# Code-Maker-Lab API: the list-query middleware and its neighbours, in Dafny

This project models the decision logic of the Code-Maker-Lab e-commerce REST API, an Express application on MongoDB. It proves properties of that model. The modules follow the source files:

- `AdvancedResults` (`advanced_results.dfy`) is the list-query middleware `advancedResults`, which every list endpoint uses. It:
  - removes the reserved parameters `select`, `sort`, `limit` and `page` from the request query;
  - serialises the rest with `JSON.stringify` and puts `$` in front of every whole word `gt`, `gte`, `lt`, `lte` or `in`;
  - turns comma lists into space lists;
  - reads `page` and `limit` with `parseInt(..., 10) || default`;
  - cuts the page out of the matching documents and builds the `next`/`prev` cursors and the response envelope.

  Its helpers are:
  - `OperatorRewrite`: the regular-expression rewrite, as a position-by-position scan, proved equal to a word-by-word definition;
  - `QueryValues`: query values, `String(v)` and `JSON.stringify`;
  - `RewriteJson`: the rewrite of serialised text against the rewrite of each key and string;
  - `IntParsing`: `parseInt` with radix 10;
  - `Text`: `split` and `join`.
- `ErrorHandler` is the last middleware. It maps an error to an HTTP status and a message.
- `Protects` covers `isAuth` (the bearer token and its 403s) and `isRole`.
- `ValidInput` covers `isValidInput` and `getValidationResult`.
- `UserModel` covers the User schema rules:
  - the e-mail pattern, decided by a one-pass method proved equal to the pattern's language;
  - the required fields, the password length, the role enum and the defaults;
  - the reset-token expiry.
- `ImageOps` covers the upload MIME filter, the size limit and `readFileFromOldPath`, which is `path.basename` on a POSIX host.
- `Products` covers the create, update and delete handlers of the book and food controllers. The two files are the same code except for the noun, so one model serves both, with the noun taken from `Kind`.

Store reads are inputs:
- the category lookup result;
- the product map;
- the filtered, sorted document sequence;
- the collection count.

Token verification and the user lookup are function parameters.

## Model

| member | source | states |
|---|---|---|
| AdvancedResults.FilterQuery | middlewares/advancedResults.js:8-15 | an entry is in the filter exactly when it is in the request query and its key is not one of select, sort, limit, page |
| AdvancedResults.FilterLookup | middlewares/advancedResults.js:8-15 | reading any key of the filter gives the request's value for it; the four reserved keys read as undefined |
| AdvancedResults.FilterTextIsRewrittenFilter | middlewares/advancedResults.js:18-24 | for a query without control characters, the rewritten JSON text is the serialisation of the filter with every key and every string value rewritten on its own, so `$` reaches operator words in keys and values alike |
| AdvancedResults.FieldComparison | middlewares/advancedResults.js:12-24 | a field comparison next to a page parameter yields `{"field":{"op":"v"}}` with each of the three words rewritten independently and the page dropped |
| AdvancedResults.RangeQueryExample | middlewares/advancedResults.js:21-24 | `price[gte]=10&page=2` filters on `{"price":{"$gte":"10"}}` |
| AdvancedResults.EmbeddedOperatorExample | middlewares/advancedResults.js:21-24 | `inStock[gtx]=lte` filters on `{"inStock":{"gtx":"$lte"}}`: tokens inside longer words are untouched, a whole value word is not |
| OperatorRewrite.RewriteIsWordwise | middlewares/advancedResults.js:21-24 | the left-to-right scan with `\b` boundaries equals the reference that splits the text into maximal word runs and prefixes `$` to exactly the runs that are operators |
| OperatorRewrite.RewriteWord | middlewares/advancedResults.js:21-24 | a single word gets a `$` exactly when it is gt, gte, lt, lte or in |
| OperatorRewrite.RewriteConcat | middlewares/advancedResults.js:21-24 | when no word straddles the cut, rewriting a concatenation is concatenating the rewrites |
| OperatorRewrite.RewriteNoWord | middlewares/advancedResults.js:21-24 | text without word characters is unchanged |
| OperatorRewrite.RewriteLength | middlewares/advancedResults.js:21-24 | the output is as long as the input plus the number of matches |
| OperatorRewrite.RewriteOnlyInsertsDollars | middlewares/advancedResults.js:21-24 | deleting every `$` from the output gives the input with its own `$` deleted: the rewrite only inserts `$` |
| OperatorRewrite.RewriteUndoneByStrip | middlewares/advancedResults.js:21-24 | for input without `$`, deleting the inserted `$` gives back the input exactly |
| RewriteJson.EscapeCommutes | middlewares/advancedResults.js:18-24 | on text without control characters, JSON string escaping and the rewrite commute |
| RewriteJson.SerializeCommutes | middlewares/advancedResults.js:18-24 | rewriting `JSON.stringify(v)` equals stringifying `v` with every key and string rewritten, for any nesting of arrays and objects without control characters |
| QueryValues.JoinStringsIsJoin | middlewares/advancedResults.js:44-45 | `String` of an array parameter is its elements' strings joined by commas |
| AdvancedResults.FieldList | middlewares/advancedResults.js:30-41 | a missing or empty parameter gives no field list; an array or object gives the TypeError `req.query.X.split is not a function`; a non-empty string gives the same text with every comma replaced by a space |
| AdvancedResults.FieldListRoundTrip | middlewares/advancedResults.js:30-41 | comma-separated field names reach the store as the same names separated by single spaces, and splitting that on spaces gives the names back |
| Text.SplitJoinReplaces | middlewares/advancedResults.js:31 | splitting on one character and joining with another replaces each occurrence, character by character |
| Text.JoinSplitRoundTrip | middlewares/protects.js:15 | splitting a join gives back the parts when no part contains the separator |
| AdvancedResults.BuildPlan | middlewares/advancedResults.js:8-47 | fails exactly when select or sort is an array or object, with the select error first; otherwise the filter text; no projection for a falsy select, else the select text with each comma replaced by a space; sort `-createdAt` for a falsy sort, else the sort text with commas replaced the same way; page and limit are `parseInt(..., 10)` of their parameters, or the default when that is NaN or 0, defaults 1 and 15 |
| AdvancedResults.PlanReadsFieldLists | middlewares/advancedResults.js:29-41 | select and sort given as comma lists of field names reach the plan as text that splits on spaces into the same names |
| AdvancedResults.DefaultPlan | middlewares/advancedResults.js:36-45 | a query without reserved parameters gets no projection, sort `-createdAt`, page 1 and limit 15 |
| AdvancedResults.ArraySelectIs500 | middlewares/advancedResults.js:30-32 | a select that is not text (an object such as `?select[x]=a`) reaches the client as a 500 carrying the TypeError's message; the middleware is taken on its own, without the `hpp` that the server runs first |
| IntParsing.ParamOr | middlewares/advancedResults.js:44-45 | a non-zero integer that `parseInt` reads from the parameter's text is the result; NaN or 0 gives the default |
| IntParsing.ParamDefaults | middlewares/advancedResults.js:44-45 | a missing parameter ("undefined"), a non-numeric one, an empty one and "0" all give the default |
| IntParsing.ParamKeepsNonZero | middlewares/advancedResults.js:44-45 | the decimal text of any non-zero integer, negative ones included, is kept as that integer |
| IntParsing.ParseDecimal | middlewares/advancedResults.js:44-45 | leading white space, the decimal text of any integer, then any non-digit text: `parseInt` returns that integer |
| IntParsing.ParseNaN | middlewares/advancedResults.js:44-45 | text whose first non-space character starts no number parses to NaN |
| AdvancedResults.PageOf | middlewares/advancedResults.js:50 | the page holds at most `limit` documents, is as long as it can be, and its i-th document is the matching sequence's document at startIndex + i |
| AdvancedResults.PageSpan | middlewares/advancedResults.js:46-47 | lastIndex - startIndex = limit |
| AdvancedResults.PagesCover | middlewares/advancedResults.js:46-50 | pages 1 to n, one after another, are exactly the first n * limit matching documents: paging never skips or repeats |
| AdvancedResults.Paginate | middlewares/advancedResults.js:62-76 | next (page + 1, limit) is present iff lastIndex < total; prev (page - 1, limit) is present iff startIndex > 0 |
| AdvancedResults.EmptyCollectionNoCursors | middlewares/advancedResults.js:62-76 | an empty collection at page 1 with a positive limit has neither cursor |
| AdvancedResults.NextCursorContinues | middlewares/advancedResults.js:44-69 | a request made from the next cursor's decimal page and limit plans a page that starts at this page's lastIndex, and its prev cursor leads back to this page |
| AdvancedResults.NextIffMoreDocuments | middlewares/advancedResults.js:48-69 | when the matching documents are the whole collection, next is offered exactly when the next page is non-empty |
| AdvancedResults.NextIgnoresFilter | middlewares/advancedResults.js:48-69 | because total counts the unfiltered collection, a filtered listing with no matches can still offer a next cursor |
| AdvancedResults.Execute | middlewares/advancedResults.js:48-86 | the request fails exactly when the count is rejected, the query is rejected or the skip is negative, with the first of those errors in the order the middleware awaits them; otherwise success is true, data is the page of `limit` documents from startIndex (as many as remain), count is its size and not the total, and the cursors are those of `Paginate` |
| AdvancedResults.Run | middlewares/advancedResults.js:3-89 | end to end: an array or object select, then sort, is the TypeError; with page and limit read by `parseInt(..., 10)` or their defaults, the request fails exactly when the store rejects the count or the query or (page - 1) * limit is negative, with the first of those errors; a success carries the documents from (page - 1) * limit on, at most the absolute value of limit of them, their count, next iff page * limit < total and prev iff (page - 1) * limit > 0 |
| AdvancedResults.RunContinuesPages | middlewares/advancedResults.js:44-50 | for page n and a positive limit, the pages 1 to n - 1 followed by the documents of request n are pages 1 to n: successive requests walk the documents without gaps or repeats |
| AdvancedResults.TwentyDocumentsSecondPage | middlewares/advancedResults.js:44-86 | with 20 documents, `page=2&limit=5` returns documents 5 to 9, count 5, next (3, 5) and prev (1, 5) |
| AdvancedResults.NegativePageRefused | middlewares/advancedResults.js:44-50 | a negative page with a positive limit asks for a negative skip, and the store's refusal is the result |
| AdvancedResults.UncastableFilterIs404 | middlewares/advancedResults.js:79 | a filter the schema cannot cast (a CastError from the query, such as `?price=abc` on a numeric field) is the request's error and reaches the client as 404 "Resource not found" |
| ErrorHandler.Handle | middlewares/errorHandler.js:8-34 | success is always false; the last matching rule decides: LIMIT_FILE_SIZE gives 400, else CastError gives 404, else code 11000 gives 400; with none, the error's status or 500 and its message or "Server error" |
| ErrorHandler.ApplicationErrorPassesThrough | middlewares/errorHandler.js:8-9 | an application error with a non-zero status goes out with that status and its message, or "Server error" for an empty message |
| ErrorHandler.TypeErrorIs500 | middlewares/errorHandler.js:8-9 | a runtime TypeError carries no status and goes out as 500 with its own message |
| ErrorHandler.LaterRuleWins | middlewares/errorHandler.js:12-21 | an error that is both a duplicate key and a CastError is reported as 404 |
| ErrorHandler.StatusNeverZero | middlewares/errorHandler.js:9-27 | the status sent is never 0 |
| Protects.ExtractToken | middlewares/protects.js:11-17 | a token comes exactly from a present header that starts with `Bearer` and whose second space-separated piece is non-empty, and it is that piece |
| Protects.BearerRoundTrip | middlewares/protects.js:11-17 | the header `Bearer <t>` yields exactly t for any non-empty t without spaces |
| Protects.NoSpaceNoToken | middlewares/protects.js:15 | a header with no space after `Bearer` yields no token |
| Protects.OtherSchemeNoToken | middlewares/protects.js:11-14 | a header that does not start with `Bearer` yields no token |
| Protects.IsAuth | middlewares/protects.js:8-43 | no token gives the 403 "Or token expire" error; every failure is a 403; success exactly when the token verifies and the lookup does not throw, and the user let through is the lookup's answer for the verified token's id |
| Protects.NoTokenIgnoresVerifier | middlewares/protects.js:20-27 | without a token neither the verifier nor the store is consulted |
| Protects.IsRole | middlewares/protects.js:46-59 | a present user passes iff their role is listed, and is refused with 403 otherwise; a null user (a deleted account) makes the guard throw a TypeError |
| Protects.AuthThenRole | middlewares/protects.js:29-59 | after `isAuth` lets a request through, `isRole` passes iff the user found has a listed role, a refusal reaches the client as 403, and a null user (deleted account) reaches it as 500 |
| ValidInput.Check | middlewares/isValidInput.js:14-34 | no error iff the list is empty; otherwise one error with status 404 and the joined messages |
| ValidInput.SingleMessage | middlewares/isValidInput.js:10-12 | a single error's message is exactly its own msg |
| ValidInput.MessageSnoc | middlewares/isValidInput.js:10-12 | one more error appends ", " and its msg, so the messages appear in list order |
| ValidInput.FailureResponse | middlewares/isValidInput.js:16-31 | a failed validation reaches the client as 404 with the joined messages, or "Server error" when they join to nothing |
| UserModel.MatchEmail | models/User.js:16 | the one-pass scan accepts exactly the strings in the e-mail pattern's language |
| UserModel.MatchDomain | models/User.js:16 | the one-pass scan of the text after `@` accepts exactly the non-empty strings of letters, digits, `-` and `.` that neither start nor end with a dot and have no two dots in a row |
| UserModel.EmailShape | models/User.js:16 | a string matches iff the local-part class stops at an `@` after at least one character and the rest is a domain, so the first `@` is the only one |
| UserModel.DomainIsJoinedLabels | models/User.js:16 | the domain part is exactly the strings made of one or more non-empty `[A-Za-z0-9-]` labels joined by single dots |
| UserModel.LabelsOfDomain | models/User.js:16 | every dot-separated piece of an accepted domain is a non-empty label: no leading, trailing or doubled dot |
| UserModel.Validate | models/User.js:8-35 | a user is accepted iff name, email and password are present, the email matches, the password has at least 6 UTF-16 units and the role, after defaulting, is user, publisher or admin; an accepted user keeps the given name, email and password, and has avatar `nopic.png` and role `user` unless given; a missing name is reported first as "Name is required"; a refusal lists at least one error |
| UserModel.ValidateIdempotent | models/User.js:8-35 | an accepted user, validated again, is accepted unchanged |
| UserModel.Defaults | models/User.js:27-35 | without avatar and role, an accepted user gets `nopic.png` and `user` |
| UserModel.Utf16LengthPerChar | models/User.js:24 | the length the minlength rule counts is between the character count and twice it, and equals it for characters of the basic plane |
| UserModel.ResetExpiry | models/User.js:80 | the reset expiry is exactly 600000 ms after now |
| UserModel.ResetWindow | controllers/auth.js:197-200 | a reset token is accepted at `now` iff less than ten minutes have passed since it was issued |
| ImageOps.FileFilter | utils/imagedOpaerations.js:14-24 | a file is accepted iff its MIME type is image/jpg, image/jpeg or image/png; others are turned away without an error |
| ImageOps.Upload | utils/imagedOpaerations.js:26-32 | an accepted type within 1500000 bytes is stored as the file with the given name and size; an accepted type over it is a LIMIT_FILE_SIZE error; other types leave no file and no error |
| ImageOps.OversizeUploadResponse | utils/imagedOpaerations.js:26-32 | an oversize image reaches the client as 400 "File size over 1.5Mb" |
| ImageOps.ReadFileFromOldPath | utils/imagedOpaerations.js:51-55 | an undefined path throws a TypeError without a status; a string path yields its basename |
| ImageOps.Basename | utils/imagedOpaerations.js:51-55 | the basename contains no slash and is the tail of the path with its trailing slashes removed, preceded there by a slash unless it is the whole of it; a path not ending in a slash has a non-empty basename ending in its last character |
| ImageOps.BasenameOfJoin | utils/imagedOpaerations.js:51-55 | for `dir + "/" + name` with a non-empty name without slashes, the result is name |
| ImageOps.BasenameIdempotent | utils/imagedOpaerations.js:51-55 | taking the basename twice is the same as once |
| Products.UploadedImageRecorded | controllers/books.js:17-24 | a file the upload middleware stores is the image the controllers record, and the path they check gives its name back |
| Products.RefuseAsWritten | controllers/books.js:31-43 | with an uploaded file the intended error is passed on; without one the image check throws a TypeError first |
| Products.CreateAsWritten | controllers/books.js:14-73 | the handler as written: success iff the category exists and the role is admin or publisher; with an upload, a missing category is its 404; without one, every refusal is a TypeError |
| Products.Create | controllers/books.js:14-73 | success iff the category exists and the role is admin or publisher; a missing category is a 404 whatever the role, then a wrong role a 403; a created product has the body's title, description, instock and price, the route's category, the requester as user, and the uploaded file name or else the body's image |
| Products.CreateWithoutUploadIs500 | controllers/books.js:31-61 | without an upload, the create refusals that should be 404 or 403 reach the client as 500 |
| Products.Merge | controllers/books.js:125-133 | each of title, description, instock, price and category is the body's value when that is truthy and the stored one otherwise; the owner is the body's user when truthy, else the requester; the image is the upload or body image when truthy, else `no-pic.png` |
| Products.MergeIdempotent | controllers/books.js:125-133 | applying the same update twice is the same as once |
| Products.ZeroCannotBeSet | controllers/books.js:129-130 | a JSON number 0 for price or instock is falsy and leaves the stored value: a JSON body cannot set either to zero |
| Products.FormZeroIsSet | controllers/books.js:129-130 | a form or multipart field "0" is truthy text and is stored, so such a body does set price and instock to zero |
| Products.OwnerAndImageIgnoreOld | controllers/books.js:132-133 | the new owner and image do not depend on the stored product: the old owner and old image are never kept |
| Products.EmptyUpdate | controllers/books.js:82-133 | an empty body without an upload keeps the descriptive fields, makes the requester the owner and sets the image to `no-pic.png` |
| Products.UpdateAsWritten | controllers/books.js:78-117 | the handler as written: success iff the product exists and the requester is admin or owner; without an upload every refusal is a TypeError |
| Products.Update | controllers/books.js:78-142 | success iff the product exists and the requester is admin or its owner; a missing product is a 404, then a requester who is neither a 403; success changes only that product, to the merge, and keeps the keys |
| Products.UpdateWithoutUploadIs500 | controllers/books.js:92-117 | without an upload, the update refusals that should be 404 or 403 reach the client as 500 |
| Products.AdminEditTakesOwnership | controllers/books.js:101-132 | an admin editing someone else's product without naming a user becomes its owner, and the previous non-admin owner can no longer change it |
| Products.AsWrittenAgreesWithUpload | controllers/books.js:20-24 | with an upload, the handlers as written and the corrected ones agree |
| Products.Delete | controllers/books.js:147-170 | a missing product is a 404, then a requester who is neither admin nor owner a 403, both before anything is removed; success removes exactly that product |
| Products.DeleteThenNotFound | controllers/foods.js:147-170 | after a delete, deleting or updating the same product again is a 404 |
| Products.NotFoundBeforeForbidden | controllers/foods.js:149-168 | for a missing product, update and delete answer the same whoever asks, and delete's answer is a 404 |
| Products.MissingPathIs500 | controllers/foods.js:31-43 | a refusal without an upload reaches the client as a 500 |

## Left out

- The store. MongoDB's matching, sorting, projection, `populate`, `countDocuments`, `skip` and `limit` are inputs (`AdvancedResults.Store`): the filtered, sorted document sequence, the total count, whether `countDocuments` is rejected, whether the query itself is rejected (a CastError of the filter, a refused projection or sort, a failed `populate`), and the error the store raises for a negative skip. Which of these a given request provokes is MongoDB's decision and is not computed. A rejection of the query is taken to come before the negative-skip refusal, because Mongoose casts the query before the server sees the skip. A negative limit is taken to return as many documents as its absolute value.
- `JSON.parse`. The model stops at the filter text. That parsing it gives back the rewritten value is not proved, because no JSON parser is modelled.
- AdvancedResults.FilterTextIsRewrittenFilter: holds only for queries without control characters. An escape such as `\n` glues its letter to the next word, so the serialised `"\nin"` holds the word `nin` and keeps `in` unrewritten.
- Property order: JavaScript lists integer-like keys first when it copies and serialises an object. Queries keep their insertion order here.
- Number precision: `page`, `limit`, `startIndex` and `lastIndex` are unbounded integers. Doubles beyond 2^53, and the exponent form `String` uses for huge numbers, are not modelled.
- Query parsing: the request query is given as already-parsed values. The `qs` depth and array limits are not modelled.
- Foreign calls. `jwt.verify` and `User.findById` are parameters of `IsAuth`. bcrypt hashing (including the pre-save hook), `jwt.sign` and the crypto token generation are not modelled.
- File effects: `fs.unlink` (`removeAvatar`), multer's disk storage and its `Date.now()` file names.
- ImageOps.Basename: models `path.basename` on a POSIX host. On Windows the platform function also treats `\` as a separator and drops a drive prefix.
- ImageOps.Upload: the boundary at exactly 1500000 bytes follows busboy's "more than fileSize" rule. multer and busboy are not part of this model.
- utils/errorResponse.js is not part of this model. It is taken to set `message` and `statusCode` and nothing else.
- Saving. `Model.create` and `save` are not modelled, and neither are the schema checks of Book and Food. `Create` returns the document handed to the store, and `Update` and `Delete` return the new store.
- Malformed ids. `findOne` and `findById` raise a CastError for an id that is not an ObjectId, before any decision of the controller. `ErrorHandler.Handle` turns that error into 404 "Resource not found". The controller models, and the inputs under "## Findings", take the id to be well formed: the lookup answers found or not found.
- The requester in the controllers is always a user. The case where `isAuth` let through a `null` user (deleted account) is modelled only in `Protects.IsRole`.
- Ownership compares the requester's id and the stored `user` as text, as the `toString()` calls do. A product without a user, whose `toString()` would throw, is not modelled.
- Products.Merge: states a truthy owner only for a non-empty requester id. The model writes the id as text, while the source assigns an ObjectId, which is always truthy.
- Also not modelled: the `vatPrice` virtual (floating point with `toFixed`), the other controllers, the routes, the other schemas, and the server wiring (server.js). That wiring includes `hpp`, which keeps only the last value of a repeated query parameter before the list middleware runs, and `express-mongo-sanitize`, which drops keys that start with `$` or contain `.`.

## Findings

| source | as written | input that shows it | evidently intended | confidence | as-written member | corrected member |
|---|---|---|---|---|---|---|
| controllers/books.js:31-61 | create runs `readFileFromOldPath(imagPath)` before passing on the 404 or 403. `imagPath` is undefined when no file was uploaded, so `path.basename` throws ERR_INVALID_ARG_TYPE and the client gets 500. controllers/foods.js has the same lines. | POST a product without an image, as a publisher or admin, to a category id that does not exist. (The controller's own role check is reached only when ADMIN_USER or PUBLISHER_USER differ from the `publisher` and `admin` that routes/books.js:28 checks first.) | 404 "Book category not found with id of …" | high; not executed | Products.CreateAsWritten, Products.CreateWithoutUploadIs500 | Products.Create |
| controllers/books.js:92-117 | update runs the same check before its 404 and 403, with the same undefined path, so the client gets 500. controllers/foods.js has the same lines. | PUT to a product id that does not exist, or to someone else's product as a non-admin, without an image | 404 "No book with id of …", or 403 "User id: … can not update this book product" | high; not executed | Products.UpdateAsWritten, Products.UpdateWithoutUploadIs500 | Products.Update |
