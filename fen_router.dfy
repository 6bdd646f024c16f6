/** The image upload and library endpoints (backend/routers/fen.py): the upload
    is checked for an image content type, stored in the S3 bucket under a key
    built from the user and a fresh uuid, and recorded as a new position. */
module FenRouter {
  import opened Common
  import opened Text
  import opened Records
  import opened Database
  import PositionsRouter

  const ImageTypePrefix: string := "image/"
  const NotImageDetail: string := "File must be an image format."
  const StorageFailedDetail: string := "Failed to save board to cloud storage."
  const UploadedMessage: string := "Image successfully uploaded and saved to library"
  /** The body of the 500 the server sends for an exception no handler catches. */
  const UnhandledErrorDetail: string := "Internal Server Error"

  /** An uploaded file part; `contentType` is `None` when the part carries no
      Content-Type header. */
  datatype UploadFile = UploadFile(filename: string, contentType: Option<string>)

  /** `file.content_type.startswith("image/")`, for a part that has a content type. */
  predicate IsImage(file: UploadFile)
    requires file.contentType.Some?
  {
    StartsWith(file.contentType.value, ImageTypePrefix)
  }

  datatype UploadResponse = UploadResponse(message: string, imageUrl: string, id: int)

  /** `file.filename.split(".")[-1]`. */
  function Extension(filename: string): (ext: string)
    ensures '.' !in ext
    ensures '.' !in filename ==> ext == filename
  {
    LastPiece(filename, '.')
  }

  /** The extension is the end of the file name, after its last '.' when it has one. */
  lemma ExtensionIsSuffix(filename: string)
    ensures var ext := Extension(filename);
      |ext| <= |filename| && filename[|filename| - |ext|..] == ext &&
      (|ext| < |filename| ==> filename[|filename| - |ext| - 1] == '.')
  {
    LastPieceSuffix(filename, '.');
  }

  /** The S3 object key: `boards/<username>/<uuid>.<extension>`. */
  function StorageKey(username: string, uuid: string, ext: string): string
  {
    "boards/" + username + "/" + uuid + "." + ext
  }

  /** The stored object keeps the upload's extension. */
  lemma StorageKeyKeepsExtension(username: string, uuid: string, filename: string)
    ensures Extension(StorageKey(username, uuid, Extension(filename))) == Extension(filename)
  {
    var ext := Extension(filename);
    assert StorageKey(username, uuid, ext) == ("boards/" + username + "/" + uuid) + ['.'] + ext;
    LastPieceAfter("boards/" + username + "/" + uuid, ext, '.');
  }

  /** With no '/' in the user name, the uuid or the extension, the key is the three
      path segments `boards`, the user name, and the object name. */
  lemma StorageKeySegments(username: string, uuid: string, ext: string)
    requires '/' !in username && '/' !in uuid && '/' !in ext
    ensures var parts := Split(StorageKey(username, uuid, ext), '/');
      |parts| == 3 && parts[0] == "boards" && parts[1] == username && parts[2] == uuid + "." + ext
  {
    var name := uuid + "." + ext;
    StorageKeyShape(username, uuid, ext);
    NoSeparator(name, '/');
    PieceBefore(username, name, '/');
    PieceBefore("boards", username + ['/'] + name, '/');
  }

  /** The key cut at its two slashes; the object name holds none. */
  lemma StorageKeyShape(username: string, uuid: string, ext: string)
    requires '/' !in uuid && '/' !in ext
    ensures StorageKey(username, uuid, ext) == "boards" + ['/'] + (username + ['/'] + (uuid + "." + ext))
    ensures '/' !in uuid + "." + ext
  {
  }

  /** The public URL of the stored object. */
  function ImageUrl(bucket: string, region: string, key: string): string
  {
    "https://" + bucket + ".s3." + region + ".amazonaws.com/" + key
  }

  /** The host names the bucket and the region, and the path is the object key. */
  lemma ImageUrlSegments(bucket: string, region: string, username: string, uuid: string, ext: string)
    requires '/' !in bucket && '/' !in region
    requires '/' !in username && '/' !in uuid && '/' !in ext
    ensures var parts := Split(ImageUrl(bucket, region, StorageKey(username, uuid, ext)), '/');
      && |parts| == 6 && parts[0] == "https:" && parts[1] == ""
      && parts[2] == bucket + ".s3." + region + ".amazonaws.com"
      && parts[3] == "boards" && parts[4] == username && parts[5] == uuid + "." + ext
  {
    var host := bucket + ".s3." + region + ".amazonaws.com";
    var key := StorageKey(username, uuid, ext);
    ImageUrlShape(bucket, region, key);
    StorageKeySegments(username, uuid, ext);
    PieceBefore(host, key, '/');
    PieceBefore("", host + ['/'] + key, '/');
    PieceBefore("https:", "" + ['/'] + (host + ['/'] + key), '/');
  }

  /** The URL cut at the slashes before the key; the host holds none. */
  lemma ImageUrlShape(bucket: string, region: string, key: string)
    requires '/' !in bucket && '/' !in region
    ensures var host := bucket + ".s3." + region + ".amazonaws.com";
      && ImageUrl(bucket, region, key) == "https:" + ['/'] + ("" + ['/'] + (host + ['/'] + key))
      && '/' !in host
  {
  }

  /** `upload_image`. The content type is checked before anything else; without one,
      `startswith` is called on `None` and the request fails with an unhandled 500
      before anything is stored. The S3 upload
      (`uploaded`) and the commit can each fail; then the session is rolled back, no
      position is added and the request fails with 500. `storedKey` is the object the
      bucket holds afterwards: a failed commit does not remove an uploaded object. */
  method UploadImage(db: Db, user: User, file: UploadFile, fen: string, uuid: string,
                     bucket: string, region: string, uploaded: bool, now: int)
    returns (r: Result<UploadResponse, HttpError>, storedKey: Option<string>)
    requires db.Valid()
    modifies db
    ensures db.Valid()
    ensures db.users == old(db.users)
    ensures file.contentType.None? ==>
      r == Err(Fail(500, UnhandledErrorDetail)) && storedKey.None? && db.positions == old(db.positions)
    ensures file.contentType.Some? && !IsImage(file) ==>
      r == Err(Fail(400, NotImageDetail)) && storedKey.None? && db.positions == old(db.positions)
    ensures var key := StorageKey(user.username, uuid, Extension(file.filename));
      file.contentType.Some? && IsImage(file) ==>
        storedKey == (if uploaded then Some(key) else None)
    ensures file.contentType.Some? && IsImage(file) && !uploaded ==>
      r == Err(Fail(500, StorageFailedDetail)) && db.positions == old(db.positions)
    ensures var url := ImageUrl(bucket, region, StorageKey(user.username, uuid, Extension(file.filename)));
      var p := Position(old(db.nextPositionId), user.id, fen, None, None, Some(url), now);
      file.contentType.Some? && IsImage(file) && uploaded ==>
        if CanInsertPosition(old(db.users), p) then
          r == Ok(UploadResponse(UploadedMessage, url, p.id)) && db.positions == old(db.positions) + [p]
        else
          r == Err(Fail(500, StorageFailedDetail)) && db.positions == old(db.positions)
  {
    if file.contentType.None? {
      return Err(Fail(500, UnhandledErrorDetail)), None;
    }
    if !IsImage(file) {
      return Err(Fail(400, NotImageDetail)), None;
    }
    var ext := Extension(file.filename);
    var key := StorageKey(user.username, uuid, ext);
    if !uploaded {
      return Err(Fail(500, StorageFailedDetail)), None;
    }
    storedKey := Some(key);
    var url := ImageUrl(bucket, region, key);
    var inserted := db.InsertPosition(user.id, fen, None, None, Some(url), now);
    if inserted.None? {
      return Err(Fail(500, StorageFailedDetail)), storedKey;
    }
    r := Ok(UploadResponse(UploadedMessage, url, inserted.value.id));
  }

  /** `get_user_library`: the current user's positions, newest first. */
  method UserLibrary(db: Db, userId: int) returns (rows: seq<Position>)
    ensures PositionsRouter.NewestFirst(rows)
    ensures multiset(rows) == multiset(PositionsRouter.Selected(db.positions, userId, None))
    ensures forall k :: 0 <= k < |rows| ==> rows[k].userId == userId
    ensures forall k :: 0 <= k < |db.positions| && db.positions[k].userId == userId ==> db.positions[k] in rows
  {
    rows := PositionsRouter.Query(db.positions, userId, None);
  }
}
