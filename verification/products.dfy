/** The book and food controllers: creating, updating and deleting a
    product. The two controllers are the same code with a different noun,
    so one model serves both, the noun taken from `Kind`. Store reads are
    inputs (the category lookup, the product map); removing image files is
    a file-system effect and is not modelled, but the path check that
    precedes it is, because it can throw. */
module Products {
  import opened Wrappers
  import opened Js
  import ImageOps
  import Protects
  import ErrorHandler

  datatype Kind = Book | Food

  /** The lower-case noun in the controllers' messages. */
  function Noun(k: Kind): string {
    match k
    case Book => "book"
    case Food => "food"
  }

  /** The capitalised noun of the category message. */
  function CategoryNoun(k: Kind): string {
    match k
    case Book => "Book"
    case Food => "Food"
  }

  /** The process environment the controllers read: the role names of
      administrators and publishers (`None` when the variable is unset) and
      the upload directory. */
  datatype Env = Env(adminRole: Option<string>, publisherRole: Option<string>, uploadPath: string)

  /** The request body fields the controllers read or write. */
  datatype Body = Body(title: JsValue, description: JsValue, instock: JsValue, price: JsValue,
                       category: JsValue, user: JsValue, image: JsValue)

  /** A stored product. `user` is the owner's id. */
  datatype Product = Product(title: JsValue, description: JsValue, instock: JsValue, price: JsValue,
                             category: JsValue, user: JsValue, image: JsValue)

  /** The store of one product collection, by id. */
  type Store = map<string, Product>

  /** `role === process.env.X`: never true when the variable is unset. */
  predicate HasRole(role: string, envRole: Option<string>) {
    envRole.Some? && role == envRole.value
  }

  predicate IsAdmin(env: Env, u: Protects.User) {
    HasRole(u.role, env.adminRole)
  }

  /** Only administrators and publishers may create products. */
  predicate MayCreate(env: Env, u: Protects.User) {
    HasRole(u.role, env.adminRole) || HasRole(u.role, env.publisherRole)
  }

  /** Administrators may change any product, everybody else only their
      own (ids compared as text). */
  predicate MayChange(env: Env, u: Protects.User, p: Product) {
    IsAdmin(env, u) || p.user == Str(u.id)
  }

  /** The image name to record and the path to check: an uploaded file
      wins over the body's `image`, and only an upload gives a path. */
  function ImageRecord(body: Body, file: Option<ImageOps.UploadedFile>): JsValue {
    if file.Some? then Str(file.value.filename) else body.image
  }

  function ImagePath(env: Env, file: Option<ImageOps.UploadedFile>): Option<string> {
    if file.Some? then Some(env.uploadPath + "/" + file.value.filename) else None
  }

  // ---------------------------------------------------------------------
  // Refusals, as written and as intended

  /** A refusal as the controllers write it: the uploaded image is checked
      with `readFileFromOldPath(imagPath)` first, which throws when no file
      was uploaded, and only then is the intended error passed on. */
  function RefuseAsWritten(path: Option<string>, intended: JsError): (r: JsError)
    ensures path.Some? ==> r == intended
    ensures path.None? ==> r.name == "TypeError"
  {
    match ImageOps.ReadFileFromOldPath(path)
    case Err(e) => e
    case Ok(_) => intended
  }

  function CategoryNotFound(k: Kind, categoryId: string): JsError {
    ErrorResponse(CategoryNoun(k) + " category not found with id of " + categoryId, 404)
  }

  function RoleCannotCreate(u: Protects.User): JsError {
    ErrorResponse("User role: " + u.role + " can not add product to db", 403)
  }

  function NotFoundForUpdate(k: Kind, id: string): JsError {
    ErrorResponse("No " + Noun(k) + " with id of " + id, 404)
  }

  function CannotUpdate(k: Kind, u: Protects.User): JsError {
    ErrorResponse("User id: " + u.id + " can not update this " + Noun(k) + " product", 403)
  }

  function NotFoundForDelete(id: string): JsError {
    ErrorResponse("Product not found with id of " + id, 404)
  }

  function CannotDelete(k: Kind, u: Protects.User): JsError {
    ErrorResponse("User id: " + u.id + " can not delete this " + Noun(k) + " product", 403)
  }

  // ---------------------------------------------------------------------
  // Create

  /** The document handed to `Model.create`: the body with `category` set
      to the route's category id, `user` to the requester and `image` to
      the recorded image. */
  function NewProduct(body: Body, categoryId: string, u: Protects.User,
                      file: Option<ImageOps.UploadedFile>): Product {
    Product(body.title, body.description, body.instock, body.price,
            Str(categoryId), Str(u.id), ImageRecord(body, file))
  }

  /** `createdBook` / `createdFood` as written. `categoryFound` is the
      result of the category lookup. */
  function CreateAsWritten(k: Kind, env: Env, u: Protects.User, categoryId: string, body: Body,
                           file: Option<ImageOps.UploadedFile>, categoryFound: bool): (r: Result<Product, JsError>)
    ensures r.Ok? <==> categoryFound && MayCreate(env, u)
    ensures file.Some? && !categoryFound ==> r == Err(CategoryNotFound(k, categoryId))
    ensures file.None? && r.Err? ==> r.error.name == "TypeError"
  {
    var path := ImagePath(env, file);
    if !categoryFound then Err(RefuseAsWritten(path, CategoryNotFound(k, categoryId)))
    else if !MayCreate(env, u) then Err(RefuseAsWritten(path, RoleCannotCreate(u)))
    else Ok(NewProduct(body, categoryId, u, file))
  }

  /** The create handler with the image check done only when an image was
      uploaded: a missing category is a 404, checked before the role, and
      a role other than administrator or publisher is a 403. */
  function Create(k: Kind, env: Env, u: Protects.User, categoryId: string, body: Body,
                  file: Option<ImageOps.UploadedFile>, categoryFound: bool): (r: Result<Product, JsError>)
    ensures !categoryFound ==> r == Err(CategoryNotFound(k, categoryId))
    ensures categoryFound && !MayCreate(env, u) ==> r == Err(RoleCannotCreate(u))
    ensures r.Ok? ==> r.value.category == Str(categoryId) && r.value.user == Str(u.id)
    ensures r.Ok? <==> categoryFound && MayCreate(env, u)
    ensures r.Ok? ==> r.value.image == (if file.Some? then Str(file.value.filename) else body.image)
    ensures r.Ok? ==> r.value.title == body.title && r.value.description == body.description
                      && r.value.instock == body.instock && r.value.price == body.price
  {
    if !categoryFound then Err(CategoryNotFound(k, categoryId))
    else if !MayCreate(env, u) then Err(RoleCannotCreate(u))
    else Ok(NewProduct(body, categoryId, u, file))
  }

  // ---------------------------------------------------------------------
  // Update

  /** The field merge of the update handler: each of title, description,
      instock, price and category keeps its old value when the body's is
      falsy; the owner becomes the body's `user` or else the requester,
      never the old owner; the image becomes the recorded image or else
      "no-pic.png", never the old image. */
  function Merge(p: Product, body: Body, image: JsValue, requesterId: string): (r: Product)
    ensures Truthy(r.image) && (requesterId != "" ==> Truthy(r.user))
    ensures Truthy(body.title) ==> r.title == body.title
    ensures !Truthy(body.title) ==> r.title == p.title
    ensures Truthy(body.description) ==> r.description == body.description
    ensures !Truthy(body.description) ==> r.description == p.description
    ensures Truthy(body.instock) ==> r.instock == body.instock
    ensures !Truthy(body.instock) ==> r.instock == p.instock
    ensures Truthy(body.price) ==> r.price == body.price
    ensures !Truthy(body.price) ==> r.price == p.price
    ensures Truthy(body.category) ==> r.category == body.category
    ensures !Truthy(body.category) ==> r.category == p.category
    ensures r.user == (if Truthy(body.user) then body.user else Str(requesterId))
    ensures r.image == (if Truthy(image) then image else Str("no-pic.png"))
  {
    Product(Or(body.title, p.title), Or(body.description, p.description), Or(body.instock, p.instock),
            Or(body.price, p.price), Or(body.category, p.category),
            Or(body.user, Str(requesterId)),
            Or(image, Str("no-pic.png")))
  }

  /** `updatedBook` / `updatedFood` as written. */
  function UpdateAsWritten(k: Kind, env: Env, u: Protects.User, id: string, body: Body,
                           file: Option<ImageOps.UploadedFile>, store: Store): (r: Result<Store, JsError>)
    ensures r.Ok? <==> id in store && MayChange(env, u, store[id])
    ensures file.None? && r.Err? ==> r.error.name == "TypeError"
    ensures r.Ok? ==> r.value == store[id := Merge(store[id], body, ImageRecord(body, file), u.id)]
  {
    var path := ImagePath(env, file);
    if id !in store then Err(RefuseAsWritten(path, NotFoundForUpdate(k, id)))
    else if !MayChange(env, u, store[id]) then Err(RefuseAsWritten(path, CannotUpdate(k, u)))
    else Ok(store[id := Merge(store[id], body, ImageRecord(body, file), u.id)])
  }

  /** The update handler with the image check done only when an image was
      uploaded: 404 when the product does not exist, then 403 for a
      requester who is neither administrator nor owner, then the merge. */
  function Update(k: Kind, env: Env, u: Protects.User, id: string, body: Body,
                  file: Option<ImageOps.UploadedFile>, store: Store): (r: Result<Store, JsError>)
    ensures id !in store ==> r == Err(NotFoundForUpdate(k, id))
    ensures id in store && !MayChange(env, u, store[id]) ==> r == Err(CannotUpdate(k, u))
    ensures r.Ok? ==> id in store && r.value.Keys == store.Keys
    ensures r.Ok? ==> forall other :: other in store && other != id ==> r.value[other] == store[other]
    ensures r.Ok? ==> r.value[id] == Merge(store[id], body, ImageRecord(body, file), u.id)
    ensures r.Ok? <==> id in store && MayChange(env, u, store[id])
  {
    if id !in store then Err(NotFoundForUpdate(k, id))
    else if !MayChange(env, u, store[id]) then Err(CannotUpdate(k, u))
    else Ok(store[id := Merge(store[id], body, ImageRecord(body, file), u.id)])
  }

  // ---------------------------------------------------------------------
  // Delete

  /** `deletedBook` / `deletedFood`: 404 when the product does not exist,
      403 for a requester who is neither administrator nor owner; both are
      decided before the deletion, which removes that one product. */
  function Delete(k: Kind, env: Env, u: Protects.User, id: string, store: Store): (r: Result<Store, JsError>)
    ensures id !in store ==> r == Err(NotFoundForDelete(id))
    ensures id in store && !MayChange(env, u, store[id]) ==> r == Err(CannotDelete(k, u))
    ensures r.Ok? <==> id in store && MayChange(env, u, store[id])
    ensures r.Ok? ==> id !in r.value && r.value.Keys == store.Keys - {id}
    ensures r.Ok? ==> forall other :: other in r.value ==> r.value[other] == store[other]
  {
    if id !in store then Err(NotFoundForDelete(id))
    else if !MayChange(env, u, store[id]) then Err(CannotDelete(k, u))
    else Ok(map other | other in store && other != id :: store[other])
  }

  // ---------------------------------------------------------------------
  // Properties of the merge

  /** Applying the same update twice is the same as applying it once. */
  lemma MergeIdempotent(p: Product, body: Body, image: JsValue, requesterId: string)
    ensures var once := Merge(p, body, image, requesterId);
      Merge(once, body, image, requesterId) == once
  {
  }

  /** A JSON number 0 for price or stock in the body is falsy and leaves
      the stored value: a JSON body cannot set either to zero. */
  lemma ZeroCannotBeSet(p: Product, body: Body, image: JsValue, requesterId: string)
    requires body.price == Num(0.0) && body.instock == Num(0.0)
    ensures Merge(p, body, image, requesterId).price == p.price
    ensures Merge(p, body, image, requesterId).instock == p.instock
  {
  }

  /** A form or multipart body sends the text "0", which is truthy: it is
      stored (and cast to 0 by the schema), so such a body can set price
      and stock to zero. */
  lemma FormZeroIsSet(p: Product, body: Body, image: JsValue, requesterId: string)
    requires body.price == Str("0") && body.instock == Str("0")
    ensures Merge(p, body, image, requesterId).price == Str("0")
    ensures Merge(p, body, image, requesterId).instock == Str("0")
  {
  }

  /** A file multer stores reaches the controllers: its name is the image
      recorded, and the path the refusals check gives that name back. */
  lemma UploadedImageRecorded(env: Env, body: Body, mimetype: string, size: int, filename: string)
    requires mimetype in ImageOps.AcceptedTypes && size <= ImageOps.MaxFileSize
    requires filename != "" && '/' !in filename
    ensures var r := ImageOps.Upload(mimetype, size, filename);
      r.Ok? && r.value.Some?
      && ImageRecord(body, r.value) == Str(filename)
      && ImageOps.ReadFileFromOldPath(ImagePath(env, r.value)) == Ok(filename)
  {
    ImageOps.BasenameOfJoin(env.uploadPath, filename);
  }

  /** The new owner and image do not depend on the stored product at all:
      the old owner and the old image are never kept. */
  lemma OwnerAndImageIgnoreOld(p1: Product, p2: Product, body: Body, image: JsValue, requesterId: string)
    ensures Merge(p1, body, image, requesterId).user == Merge(p2, body, image, requesterId).user
    ensures Merge(p1, body, image, requesterId).image == Merge(p2, body, image, requesterId).image
  {
  }

  /** An update with an empty body and no upload keeps the descriptive
      fields, makes the requester the owner and resets the image to
      "no-pic.png". */
  lemma EmptyUpdate(k: Kind, env: Env, u: Protects.User, id: string, store: Store)
    requires id in store && MayChange(env, u, store[id])
    ensures var empty := Body(Undefined, Undefined, Undefined, Undefined, Undefined, Undefined, Undefined);
      var r := Update(k, env, u, id, empty, None, store);
      var p := store[id];
      r.Ok? && r.value[id] == Product(p.title, p.description, p.instock, p.price, p.category,
                                      Or(Undefined, Str(u.id)), Str("no-pic.png"))
  {
  }

  /** When an administrator edits someone else's product without naming a
      user, the administrator becomes the owner, and the previous owner,
      unless an administrator too, can no longer change it. */
  lemma AdminEditTakesOwnership(k: Kind, env: Env, admin: Protects.User, owner: Protects.User,
                                id: string, body: Body, file: Option<ImageOps.UploadedFile>, store: Store)
    requires admin.id != "" && admin.id != owner.id
    requires IsAdmin(env, admin) && !IsAdmin(env, owner)
    requires id in store && store[id].user == Str(owner.id)
    requires !Truthy(body.user)
    ensures var r := Update(k, env, admin, id, body, file, store);
      r.Ok? && r.value[id].user == Str(admin.id) && !MayChange(env, owner, r.value[id])
  {
  }

  /** A deleted product is gone: deleting or updating it again is a 404. */
  lemma DeleteThenNotFound(k: Kind, env: Env, u: Protects.User, v: Protects.User, id: string,
                           body: Body, file: Option<ImageOps.UploadedFile>, store: Store)
    requires Delete(k, env, u, id, store).Ok?
    ensures var after := Delete(k, env, u, id, store).value;
      Delete(k, env, v, id, after) == Err(NotFoundForDelete(id))
      && Update(k, env, v, id, body, file, after) == Err(NotFoundForUpdate(k, id))
  {
  }

  /** A missing product is a 404 whoever asks: existence is decided before
      authorisation, for update and delete alike. */
  lemma NotFoundBeforeForbidden(k: Kind, env: Env, u: Protects.User, v: Protects.User, id: string,
                                body: Body, file: Option<ImageOps.UploadedFile>, store: Store)
    requires id !in store
    ensures Update(k, env, u, id, body, file, store) == Update(k, env, v, id, body, file, store)
    ensures Delete(k, env, u, id, store) == Delete(k, env, v, id, store)
    ensures ErrorHandler.Handle(Delete(k, env, u, id, store).error).status == 404
  {
  }

  // ---------------------------------------------------------------------
  // The as-written handlers against the intended ones

  /** With an upload the handlers as written and as intended agree. */
  lemma AsWrittenAgreesWithUpload(k: Kind, env: Env, u: Protects.User, categoryId: string, id: string,
                                  body: Body, f: ImageOps.UploadedFile, categoryFound: bool, store: Store)
    ensures CreateAsWritten(k, env, u, categoryId, body, Some(f), categoryFound)
         == Create(k, env, u, categoryId, body, Some(f), categoryFound)
    ensures UpdateAsWritten(k, env, u, id, body, Some(f), store) == Update(k, env, u, id, body, Some(f), store)
  {
  }

  /** The error a refusal without an upload actually carries reaches the
      client as a 500. */
  lemma MissingPathIs500(intended: JsError)
    ensures ErrorHandler.Handle(RefuseAsWritten(None, intended)).status == 500
  {
    var e := TypeError("The \"path\" argument must be of type string. Received undefined",
                       Str("ERR_INVALID_ARG_TYPE"));
    assert RefuseAsWritten(None, intended) == e;
    ErrorHandler.TypeErrorIs500(e.message.value);
  }

  /** Without an upload, a create for a missing category, which should be
      a 404, reaches the client as a 500 from the TypeError that
      `path.basename(undefined)` throws; the same happens to the role
      check's 403. */
  lemma CreateWithoutUploadIs500(k: Kind, env: Env, u: Protects.User, categoryId: string, body: Body,
                                 categoryFound: bool)
    requires !categoryFound || !MayCreate(env, u)
    ensures ErrorHandler.Handle(CreateAsWritten(k, env, u, categoryId, body, None, categoryFound).error).status == 500
    ensures ErrorHandler.Handle(Create(k, env, u, categoryId, body, None, categoryFound).error).status
         == (if !categoryFound then 404 else 403)
  {
    var intended := if !categoryFound then CategoryNotFound(k, categoryId) else RoleCannotCreate(u);
    assert CreateAsWritten(k, env, u, categoryId, body, None, categoryFound) == Err(RefuseAsWritten(None, intended));
    MissingPathIs500(intended);
    assert Create(k, env, u, categoryId, body, None, categoryFound) == Err(intended);
    ErrorHandler.ApplicationErrorPassesThrough(intended.message.value, intended.statusCode.value);
  }

  /** Likewise for update: a missing product or a foreign requester gives
      500 instead of 404 or 403 when no image was uploaded. */
  lemma UpdateWithoutUploadIs500(k: Kind, env: Env, u: Protects.User, id: string, body: Body, store: Store)
    requires id !in store || !MayChange(env, u, store[id])
    ensures ErrorHandler.Handle(UpdateAsWritten(k, env, u, id, body, None, store).error).status == 500
    ensures ErrorHandler.Handle(Update(k, env, u, id, body, None, store).error).status
         == (if id !in store then 404 else 403)
  {
    var intended := if id !in store then NotFoundForUpdate(k, id) else CannotUpdate(k, u);
    assert UpdateAsWritten(k, env, u, id, body, None, store) == Err(RefuseAsWritten(None, intended));
    MissingPathIs500(intended);
    assert Update(k, env, u, id, body, None, store) == Err(intended);
    ErrorHandler.ApplicationErrorPassesThrough(intended.message.value, intended.statusCode.value);
  }
}
