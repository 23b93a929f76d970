/** The data model of the storage service: one metadata record per key in the
    metadata table, objects in per-region buckets, and the key layout
    `{userId}/uploads/{folder/}{name}` that emulates folders on a flat store. */
module StorageModel {
  import opened Text
  import opened Wrappers

  /** The `size` attribute: absent (reads as 0), JSON null, a stored value
      `int()` cannot read (a non-numeric string, say), or a number of bytes. */
  datatype Size = Missing | Null | Malformed(text: string) | Bytes(n: int)

  /** `int(size)` raises on this attribute. */
  predicate Unreadable(sz: Size) {
    sz.Null? || sz.Malformed?
  }

  /** One metadata record. String attributes that a record does not carry are "". */
  datatype FileRecord = FileRecord(
    id: string,
    bucket: string,
    region: string,
    userId: string,
    fileName: string,
    fileType: string,
    size: Size,
    status: string,
    starred: bool,
    shared: bool,
    sharePermissions: string,
    shareExpiry: string,
    sharePassword: string,
    folder: string,
    createdAt: string)

  /** The fileType sentinel of folder records. */
  const FolderType: string := "folder"

  predicate IsFolderRecord(r: FileRecord) {
    r.fileType == FolderType
  }

  /** The item an `update_item` creates when no record has the key: only the id. */
  function Stub(id: string): (r: FileRecord)
    ensures r.id == id && !IsFolderRecord(r) && !r.starred && !r.shared
  {
    FileRecord(id, "", "", "", "", "", Missing, "", false, false, "", "", "", "", "")
  }

  /** An object of the object store, named by bucket and key. */
  datatype StoredObject = StoredObject(bucket: string, key: string)

  /** The request fields that name one file or folder: a raw key, or a file name
      with an optional folder. Absent strings are "". */
  datatype Target = Target(region: string, userId: string, fileName: string, folder: string, rawKey: string)

  /** The two mutable stores: the metadata table and the object store. */
  datatype Tables = Tables(meta: map<string, FileRecord>, objects: set<StoredObject>)

  /** Keys for which a call raises during one request: object-store calls naming
      a key in `objects`, metadata writes naming a key in `meta`. */
  datatype Faults = Faults(objects: set<string>, meta: set<string>)

  /** `{userId}/uploads/`, the root every key of a user starts with. */
  function UserRoot(userId: string): string {
    userId + "/uploads/"
  }

  /** The upload and create-folder normalisation `folder.strip().strip('/')`. */
  function NormalizeFolder(folder: string): (r: string)
    ensures r != "" ==> r[0] != '/' && r[|r| - 1] != '/'
  {
    StripChar(StripSpace(folder), '/')
  }

  /** The upload key for an already normalised folder. */
  function UploadKey(userId: string, folder: string, name: string): (key: string)
    ensures StartsWith(key, UserRoot(userId))
    ensures key == UploadPrefix(userId, folder) + name
  {
    if folder != "" then UserRoot(userId) + folder + "/" + name
    else UserRoot(userId) + name
  }

  /** The part of an upload key before the file name. */
  function UploadPrefix(userId: string, folder: string): string {
    if folder != "" then UserRoot(userId) + folder + "/" else UserRoot(userId)
  }

  /** The key a download, delete, star or share request names: the raw key when
      one is given, otherwise `{userId}/uploads/` + `{folder.strip('/')}/` (when
      a folder is given) + the file name. */
  function TargetKey(userId: string, rawKey: string, fileName: string, folder: string): (key: string)
    ensures rawKey != "" ==> key == rawKey
    ensures rawKey == "" ==> StartsWith(key, UserRoot(userId)) && EndsWith(key, fileName)
  {
    if rawKey != "" then rawKey
    else
      var prefix := if folder != "" then UserRoot(userId) + StripChar(folder, '/') + "/" else UserRoot(userId);
      prefix + fileName
  }

  /** The keys of all metadata records whose id starts with `prefix` (the
      `begins_with` scan). */
  function Scan(meta: map<string, FileRecord>, prefix: string): (keys: set<string>)
    ensures keys <= meta.Keys
    ensures forall k :: k in keys <==> k in meta && StartsWith(k, prefix)
  {
    set k | k in meta && StartsWith(k, prefix)
  }

  /** Folder detection of the delete handlers: a trailing `/` first, then a folder
      record under the key itself, in which case `/` is appended. */
  function DeleteTarget(meta: map<string, FileRecord>, key: string): (r: (bool, string))
    ensures r.0 <==> EndsWith(key, "/") || (key in meta && IsFolderRecord(meta[key]))
    ensures r.1 == key || r.1 == key + "/"
    ensures r.0 <==> EndsWith(r.1, "/")
    ensures r.1 != key ==> key in meta && IsFolderRecord(meta[key])
  {
    if EndsWith(key, "/") then (true, key)
    else if key in meta && IsFolderRecord(meta[key]) then (true, key + "/")
    else (false, key)
  }

  /** Folder detection of star and share: the metadata record only; `/` is
      appended to a folder key that lacks it. */
  function MetaTarget(meta: map<string, FileRecord>, key: string): (r: (bool, string))
    ensures r.0 <==> key in meta && IsFolderRecord(meta[key])
    ensures r.1 == key || r.1 == key + "/"
    ensures r.0 ==> EndsWith(r.1, "/")
    ensures !r.0 ==> r.1 == key
  {
    var isFolder := key in meta && IsFolderRecord(meta[key]);
    (isFolder, if isFolder && !EndsWith(key, "/") then key + "/" else key)
  }

  /** Folder detection of move and copy: the source key is
      `{userId}/uploads/{source}`; a folder record there gets `/` appended, and
      the source is a folder exactly when the resulting key ends in `/`. */
  function MoveSourceKey(meta: map<string, FileRecord>, userId: string, source: string): (key: string)
    ensures StartsWith(key, UserRoot(userId) + source)
    ensures key == UserRoot(userId) + source || key == UserRoot(userId) + source + "/"
    ensures var k0 := UserRoot(userId) + source;
            EndsWith(key, "/") <==> EndsWith(k0, "/") || (k0 in meta && IsFolderRecord(meta[k0]))
  {
    var k0 := UserRoot(userId) + source;
    if !EndsWith(k0, "/") && k0 in meta && IsFolderRecord(meta[k0]) then k0 + "/" else k0
  }

  /** Share expiry in seconds: 1day, 7days, 30days and never, anything else as 7days. */
  function ExpirySeconds(expiry: string): (seconds: nat)
    ensures expiry == "1day" ==> seconds == 86400
    ensures expiry == "7days" ==> seconds == 604800
    ensures expiry == "30days" ==> seconds == 2592000
    ensures expiry == "never" ==> seconds == 315360000
    ensures expiry !in {"1day", "7days", "30days", "never"} ==> seconds == 604800
  {
    match expiry
    case "1day" => 86400
    case "7days" => 604800
    case "30days" => 2592000
    case "never" => 315360000
    case _ => 604800
  }
}
