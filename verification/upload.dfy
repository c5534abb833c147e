/**
 The image-upload endpoint: authenticate, validate the uploaded file (present,
 an allowed image type, at most 10 MiB), build a per-user storage key, upload
 the bytes to the `images` bucket, and answer with the stored path and its
 public URL, or with a classified storage error.

 The auth service, the form parser, the clock, the random id and the storage
 service are parameters: the session, the parsed form, the timestamp and the
 random id are inputs, and the store and the public-URL lookup are functions.
 */
module Upload {
  import opened Js
  import opened Http
  import Text

  /** The uploaded `File`: its name, its declared MIME type and its bytes. */
  datatype File = File(name: string, mimeType: string, bytes: seq<bv8>) {

    /** `file.size`: the number of bytes. */
    function Size(): nat {
      |bytes|
    }
  }

  /** What `request.formData()` produced: the `file` field (absent or a file),
      or the value it threw. */
  datatype Form = Form(file: Option<File>) | Unreadable(thrown: Thrown)

  /** The options passed to `storage.upload`. */
  datatype Options = Options(contentType: string, cacheControl: string, upsert: bool)

  /** `storage.from(bucket).upload(key, bytes, options)`. */
  datatype UploadCall = UploadCall(bucket: string, key: string, bytes: seq<bv8>, options: Options)

  /** What the storage service reported: the stored object's path, or an error message. */
  datatype Stored = Stored(path: string) | StoreError(message: string)

  /** The 200 body `{ success: true, url, path }`. */
  datatype Success = Success(url: string, path: string)

  /** The handler's response together with the storage call it made, if any. */
  datatype Exchange = Exchange(response: Response<Success>, call: Option<UploadCall>)

  /** The outcome of the validation ladder: the caller and file to upload, or
      the error response of the first check that failed. */
  datatype Verdict = Accepted(userId: string, file: File) | Rejected(status: nat, error: string)

  const AllowedTypes: seq<string> := ["image/jpeg", "image/png", "image/gif", "image/webp"]
  const MaxSize: nat := 10 * 1024 * 1024
  const Bucket: string := "images"
  const CacheControl: string := "3600"
  const DefaultExtension: string := "jpg"

  const NoFileMessage: string := "No file provided"
  const BadTypeMessage: string := "Invalid file type. Allowed: JPEG, PNG, GIF, WebP"
  const TooLargeMessage: string := "File too large. Maximum size is 10MB"
  const BucketMissingMessage: string :=
    "Storage bucket not configured. Please create an \"images\" bucket in Supabase Storage."
  const UploadFailedPrefix: string := "Upload failed: "
  const Fallback: string := "Failed to upload image"

  /** `allowedTypes.includes(type)`. */
  predicate AllowedType(mimeType: string)
    ensures AllowedType(mimeType) <==>
      mimeType == "image/jpeg" || mimeType == "image/png" || mimeType == "image/gif" || mimeType == "image/webp"
  {
    mimeType in AllowedTypes
  }

  /** The checks in source order: session, form, file present, type, size. The
      first one that fails decides the response. */
  function Validate(session: Session, form: Form): (v: Verdict)
    ensures v.Rejected? && v.status == 401 <==> !SignedIn(session)
    ensures !SignedIn(session) ==> v == Rejected(401, "Unauthorized. Please log in.")
    // A form that could not be read reaches the catch-all.
    ensures SignedIn(session) && form.Unreadable? ==> v == Rejected(500, MessageOf(form.thrown, Fallback))
    ensures SignedIn(session) && form == Form(None) ==> v == Rejected(400, NoFileMessage)
    ensures SignedIn(session) && form.Form? && form.file.Some? && !AllowedType(form.file.value.mimeType) ==>
      v == Rejected(400, BadTypeMessage)
    ensures (SignedIn(session) && form.Form? && form.file.Some? && AllowedType(form.file.value.mimeType)
             && form.file.value.Size() > MaxSize) ==> v == Rejected(400, TooLargeMessage)
    ensures v.Accepted? <==>
      && SignedIn(session)
      && form.Form? && form.file.Some?
      && form.file.value.mimeType in {"image/jpeg", "image/png", "image/gif", "image/webp"}
      && form.file.value.Size() <= 10485760
    ensures v.Accepted? ==> session.user == Some(v.userId) && form.file == Some(v.file)
    ensures v.Rejected? ==> v.status in {400, 401, 500}
  {
    if !SignedIn(session) then Rejected(401, UnauthorizedMessage)
    else
      match form
      case Unreadable(e) => Rejected(500, MessageOf(e, Fallback))
      case Form(None) => Rejected(400, NoFileMessage)
      case Form(Some(file)) =>
        if !AllowedType(file.mimeType) then Rejected(400, BadTypeMessage)
        else if file.Size() > MaxSize then Rejected(400, TooLargeMessage)
        else Accepted(session.user.value, file)
  }

  /** `file.name.split('.').pop() || 'jpg'`: the text after the name's last dot,
      the whole name when it has no dot, and `jpg` when that text is empty. */
  function Extension(name: string): (ext: string)
    ensures ext != "" && '.' !in ext
    ensures var t := Text.LastSegment(name, '.'); ext == if t == "" then DefaultExtension else t
  {
    var piece := Text.Last(Text.Split(name, '.'));
    assert piece == Text.LastSegment(name, '.') && '.' !in piece by { Text.LastOfSplit(name, '.'); }
    if piece == "" then DefaultExtension else piece
  }

  /** `${userId}/${timestamp}-${randomId}.${extension}`. */
  function StorageKey(userId: string, timestamp: nat, randomId: string, ext: string): (key: string)
    ensures Text.StartsWith(key, userId + "/")
    ensures Text.EndsWith(key, "." + ext)
    ensures |key| == |userId| + |Text.Decimal(timestamp)| + |randomId| + |ext| + 3
    ensures key[|userId| + 1..|key| - |ext| - 1] == Text.Decimal(timestamp) + "-" + randomId
  {
    var middle := Text.Decimal(timestamp) + "-" + randomId;
    var key := userId + "/" + middle + "." + ext;
    assert key == (userId + "/") + middle + ("." + ext);
    assert key[..|userId + "/"|] == userId + "/";
    assert key[|key| - |"." + ext|..] == "." + ext;
    assert key[|userId| + 1..|key| - |ext| - 1] == middle;
    key
  }

  /** The storage call for an accepted file: the `images` bucket, the per-user
      key, the file's bytes, its MIME type, one hour of caching and no overwrite. */
  function UploadRequest(userId: string, file: File, timestamp: nat, randomId: string): (call: UploadCall)
    ensures call.bucket == "images" && call.bytes == file.bytes
    ensures call.options.contentType == file.mimeType
    ensures call.options.cacheControl == "3600" && !call.options.upsert
    ensures call.key == StorageKey(userId, timestamp, randomId, Extension(file.name))
  {
    UploadCall(Bucket, StorageKey(userId, timestamp, randomId, Extension(file.name)), file.bytes,
               Options(file.mimeType, CacheControl, false))
  }

  /** A storage error: a message mentioning `not found` or `Bucket` (case
      sensitive) is reported as a missing bucket, any other message is passed on. */
  function ClassifyStorageError(message: string): (r: Response<Success>)
    ensures Status(r) == 500
    ensures (exists i :: Text.OccursAt(message, "not found", i)) || (exists i :: Text.OccursAt(message, "Bucket", i))
      ==> r.error == BucketMissingMessage
    ensures !(exists i :: Text.OccursAt(message, "not found", i)) && !(exists i :: Text.OccursAt(message, "Bucket", i))
      ==> Text.StartsWith(r.error, UploadFailedPrefix) && r.error[|UploadFailedPrefix|..] == message
  {
    if Text.Contains(message, "not found") || Text.Contains(message, "Bucket") then
      ErrorJson(500, BucketMissingMessage)
    else
      var error := UploadFailedPrefix + message;
      assert error[..|UploadFailedPrefix|] == UploadFailedPrefix;
      ErrorJson(500, error)
  }

  /** The POST handler. */
  function HandleUpload(session: Session, form: Form, timestamp: nat, randomId: string,
                        store: UploadCall -> Stored, publicUrl: string -> string): (x: Exchange)
    // Storage is reached exactly when every check passes.
    ensures x.call.None? <==> Validate(session, form).Rejected?
    ensures Validate(session, form).Rejected? ==>
      x.response == ErrorJson(Validate(session, form).status, Validate(session, form).error)
    ensures Status(x.response) == 401 <==> !SignedIn(session)
    ensures x.call.Some? ==>
      x.call.value == UploadRequest(session.user.value, form.file.value, timestamp, randomId)
    ensures x.call.Some? ==>
      && Validate(session, form).Accepted?
      && x.call.value.key ==
           StorageKey(session.user.value, timestamp, randomId, Extension(form.file.value.name))
      && x.call.value.bytes == form.file.value.bytes
      && x.call.value.options == Options(form.file.value.mimeType, "3600", false)
    // A storage error is a 500; a stored object is answered with its path and public URL.
    ensures x.call.Some? && store(x.call.value).StoreError? ==>
      x.response == ClassifyStorageError(store(x.call.value).message)
    ensures x.call.Some? && store(x.call.value).Stored? ==>
      x.response == Json(Success(publicUrl(store(x.call.value).path), store(x.call.value).path))
    ensures x.response.Json? ==> x.call.Some? && store(x.call.value).Stored?
  {
    match Validate(session, form)
    case Rejected(status, error) => Exchange(ErrorJson(status, error), None)
    case Accepted(userId, file) =>
      var call := UploadRequest(userId, file, timestamp, randomId);
      match store(call)
      case StoreError(message) => Exchange(ClassifyStorageError(message), Some(call))
      case Stored(path) => Exchange(Json(Success(publicUrl(path), path)), Some(call))
  }

  /** A rejected request does not depend on the clock, the random id or the storage service. */
  lemma RejectionIgnoresStorage(session: Session, form: Form, t1: nat, t2: nat, r1: string, r2: string,
                                s1: UploadCall -> Stored, s2: UploadCall -> Stored,
                                u1: string -> string, u2: string -> string)
    requires Validate(session, form).Rejected?
    ensures HandleUpload(session, form, t1, r1, s1, u1) == HandleUpload(session, form, t2, r2, s2, u2)
  {
  }

  /** A file of the wrong type is reported as such even when it is also too large. */
  lemma TypeCheckedBeforeSize(session: Session, file: File)
    requires SignedIn(session)
    requires !AllowedType(file.mimeType) && file.Size() > MaxSize
    ensures Validate(session, Form(Some(file))).error == BadTypeMessage
  {
  }

  /** Exactly 10 MiB is accepted; one byte more is rejected. */
  lemma SizeBoundary(session: Session, file: File)
    requires SignedIn(session) && AllowedType(file.mimeType)
    ensures file.Size() == 10485760 ==> Validate(session, Form(Some(file))).Accepted?
    ensures file.Size() == 10485761 ==> Validate(session, Form(Some(file))) == Rejected(400, TooLargeMessage)
  {
  }

  /** A name ending in a dot and a dot-free, non-empty text has that text as its extension. */
  lemma ExtensionAfterDot(a: string, b: string)
    requires b != "" && '.' !in b
    ensures Extension(a + "." + b) == b
  {
    Text.SplitAt(a, '.', b);
    Text.SplitWithoutSeparator(b, '.');
    Text.LastOfSplit(a + "." + b, '.');
    assert a + "." + b == a + ['.'] + b;
  }

  /** A name without a dot is its own extension; an empty name or one ending
      in a dot gets `jpg`. */
  lemma ExtensionCases(name: string)
    ensures name != "" && '.' !in name ==> Extension(name) == name
    ensures name == "" || name[|name| - 1] == '.' ==> Extension(name) == "jpg"
  {
    if name != "" && '.' !in name {
      Text.LastOfSplit(name, '.');
      Text.SplitWithoutSeparator(name, '.');
    }
  }

  /** The first `/`-separated piece of a key is the caller's id, so every caller
      writes under their own folder. */
  lemma KeyFolder(userId: string, timestamp: nat, randomId: string, ext: string)
    requires '/' !in userId
    ensures Text.Split(StorageKey(userId, timestamp, randomId, ext), '/')[0] == userId
  {
    var rest := Text.Decimal(timestamp) + "-" + randomId + "." + ext;
    assert StorageKey(userId, timestamp, randomId, ext) == userId + ['/'] + rest;
    Text.SplitAt(userId, '/', rest);
    Text.SplitWithoutSeparator(userId, '/');
  }

  /** The stored object keeps the uploaded file's extension. */
  lemma KeyKeepsExtension(userId: string, timestamp: nat, randomId: string, name: string)
    ensures Extension(StorageKey(userId, timestamp, randomId, Extension(name))) == Extension(name)
  {
    var ext := Extension(name);
    var prefix := userId + "/" + Text.Decimal(timestamp) + "-" + randomId;
    assert StorageKey(userId, timestamp, randomId, ext) == prefix + "." + ext;
    ExtensionAfterDot(prefix, ext);
  }
}
