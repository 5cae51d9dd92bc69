/** Upload handling: multer's MIME filter and size limit, and
    `readFileFromOldPath`, which is Node's `path.basename`. Disk storage,
    the time-stamped file name and `fs.unlink` are file-system effects and
    stay outside the model. */
module ImageOps {
  import opened Wrappers
  import opened Js
  import ErrorHandler

  const AcceptedTypes: set<string> := {"image/jpg", "image/jpeg", "image/png"}

  /** multer's `limits.fileSize`, in bytes. */
  const MaxFileSize: int := 1500000

  /** `fileFilter`: the callback's verdict. It never passes an error:
      other types are turned away with `cb(null, false)`. */
  function FileFilter(mimetype: string): (accept: bool)
    ensures accept <==> mimetype in AcceptedTypes
  {
    mimetype == "image/jpg" || mimetype == "image/jpeg" || mimetype == "image/png"
  }

  /** The file as the controllers see it in `req.file`. */
  datatype UploadedFile = UploadedFile(filename: string, size: int)

  /** multer's error for an accepted file over the size limit. */
  const FileTooLarge: JsError := JsError("MulterError", Some("File too large"), None, Str("LIMIT_FILE_SIZE"))

  /** One multipart file through the `uploads` middleware: a type the
      filter refuses leaves `req.file` unset, an accepted file over the
      limit fails the request, any other is stored under `filename`. */
  function Upload(mimetype: string, size: int, filename: string): (r: Result<Option<UploadedFile>, JsError>)
    ensures r.Ok? && r.value.Some? <==> mimetype in AcceptedTypes && size <= MaxFileSize
    ensures r.Err? <==> mimetype in AcceptedTypes && size > MaxFileSize
    ensures r.Err? ==> r.error.code == Str("LIMIT_FILE_SIZE")
    ensures r.Ok? && r.value.Some? ==> r.value.value == UploadedFile(filename, size)
  {
    if !FileFilter(mimetype) then Ok(None)
    else if size > MaxFileSize then Err(FileTooLarge)
    else Ok(Some(UploadedFile(filename, size)))
  }

  /** `path.basename(p)` on a POSIX host: the last component, trailing
      slashes ignored; the empty string for an empty path or one made of
      slashes. */
  function Basename(p: string): (r: string)
    ensures '/' !in r
    ensures |r| <= |p|
    ensures var t := StripTrailingSlashes(p);
      |r| <= |t| && r == t[|t| - |r|..] && (|r| < |t| ==> t[|t| - |r| - 1] == '/')
    ensures p != [] && p[|p| - 1] != '/' ==> r != [] && r[|r| - 1] == p[|p| - 1]
  {
    LastComponent(StripTrailingSlashes(p))
  }

  function StripTrailingSlashes(p: string): (r: string)
    ensures r == [] || r[|r| - 1] != '/'
    ensures |r| <= |p| && r == p[..|r|]
    ensures forall k :: |r| <= k < |p| ==> p[k] == '/'
  {
    if p != [] && p[|p| - 1] == '/' then StripTrailingSlashes(p[..|p| - 1]) else p
  }

  /** The text after the last slash. */
  function LastComponent(p: string): (r: string)
    ensures '/' !in r
    ensures |r| <= |p| && r == p[|p| - |r|..]
    ensures |r| < |p| ==> p[|p| - |r| - 1] == '/'
  {
    if p == [] || p[|p| - 1] == '/' then []
    else LastComponent(p[..|p| - 1]) + [p[|p| - 1]]
  }

  /** `readFileFromOldPath`: `path.basename` insists on a string, so an
      `undefined` path throws Node's ERR_INVALID_ARG_TYPE TypeError. */
  function ReadFileFromOldPath(path: Option<string>): (r: Result<string, JsError>)
    ensures path.None? <==> r.Err?
    ensures r.Err? ==> r.error.name == "TypeError" && r.error.statusCode.None?
    ensures path.Some? ==> r == Ok(Basename(path.value))
  {
    match path
    case None =>
      Err(TypeError("The \"path\" argument must be of type string. Received undefined",
                    Str("ERR_INVALID_ARG_TYPE")))
    case Some(p) => Ok(Basename(p))
  }

  lemma {:induction false} LastComponentOfJoin(dir: string, name: string)
    requires '/' !in name
    ensures LastComponent(dir + "/" + name) == name
    decreases |name|
  {
    var p := dir + "/" + name;
    if name == [] {
      assert p[|p| - 1] == '/';
    } else {
      assert p[..|p| - 1] == dir + "/" + name[..|name| - 1];
      NoSlashInPrefix(name, |name| - 1);
      LastComponentOfJoin(dir, name[..|name| - 1]);
      assert name[..|name| - 1] + [name[|name| - 1]] == name;
    }
  }

  /** The path the controllers build, `${UPLOAD_PATH}/${name}`, gives back
      the stored file name. */
  lemma BasenameOfJoin(dir: string, name: string)
    requires name != "" && '/' !in name
    ensures Basename(dir + "/" + name) == name
  {
    LastComponentOfJoin(dir, name);
  }

  /** A component is its own basename. */
  lemma BasenameOfName(name: string)
    requires '/' !in name
    ensures Basename(name) == name
  {
    assert StripTrailingSlashes(name) == name by {
      if name != [] {
        assert name[|name| - 1] in name;
      }
    }
    LastComponentOfName(name);
  }

  lemma {:induction false} LastComponentOfName(name: string)
    requires '/' !in name
    ensures LastComponent(name) == name
    decreases |name|
  {
    if name != [] {
      var init, last := name[..|name| - 1], name[|name| - 1];
      assert last in name;
      NoSlashInPrefix(name, |name| - 1);
      LastComponentOfName(init);
      assert init + [last] == name;
    }
  }

  lemma NoSlashInPrefix(s: string, k: int)
    requires '/' !in s && 0 <= k <= |s|
    ensures '/' !in s[..k]
  {
    assert forall i :: 0 <= i < k ==> s[..k][i] == s[i];
  }

  /** Taking the basename twice changes nothing. */
  lemma BasenameIdempotent(p: string)
    ensures Basename(Basename(p)) == Basename(p)
  {
    BasenameOfName(Basename(p));
  }

  /** An accepted image over the limit reaches the client as 400 "File
      size over 1.5Mb". */
  lemma OversizeUploadResponse(mimetype: string, size: int, filename: string)
    requires mimetype in AcceptedTypes && size > MaxFileSize
    ensures var r := Upload(mimetype, size, filename);
      r.Err? && ErrorHandler.Handle(r.error) == ErrorHandler.Response(400, false, "File size over 1.5Mb")
  {
  }
}
