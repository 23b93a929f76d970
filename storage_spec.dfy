/** What each state-changing handler of the storage service does to the two
    stores, as functions from the old tables to the reply and the new tables.
    The class in module Storage runs the handlers' loops and is proved to
    reach exactly these states. */
module StorageSpec {
  import opened Text
  import opened Naming
  import opened Wrappers
  import opened StorageModel

  // ---------------------------------------------------------------------------
  // Upload

  datatype UploadRequest = UploadRequest(
    region: string,
    fileName: string,
    fileType: Option<string>,   // default application/octet-stream
    userId: string,
    size: Size,
    status: Option<string>,     // default private
    starred: bool,
    folder: string)

  /** The body of a successful upload: the issued name and the key the
      presigned PUT is for. */
  datatype UploadReply = UploadReply(finalFileName: string, key: string)

  /** The counter of the issued name: 0 when the requested name is free,
      otherwise the least n >= 1 whose `{base} ({n}){.ext}` key is free. */
  function UploadCounter(taken: set<string>, userId: string, folder: string, fileName: string): (n: nat)
    ensures var prefix := UploadPrefix(userId, folder);
            var (base, ext) := SplitExt(fileName);
            n == 0 <==> prefix + fileName !in taken
    ensures var prefix := UploadPrefix(userId, folder);
            var (base, ext) := SplitExt(fileName);
            n > 0 ==> IsFirstFree(taken, prefix, base, DotExt(ext), 1, n)
  {
    var prefix := UploadPrefix(userId, folder);
    var (base, ext) := SplitExt(fileName);
    if prefix + fileName !in taken then 0 else FirstFree(taken, prefix, base, DotExt(ext), 1, 1)
  }

  /** The issued file name for a counter. */
  function UploadName(fileName: string, n: nat): string {
    if n == 0 then fileName
    else
      var (base, ext) := SplitExt(fileName);
      Suffixed(base, DotExt(ext), n)
  }

  /** The record the upload handler writes. */
  function UploadRecord(req: UploadRequest, bucket: string, folder: string, key: string, name: string,
                        now: string): FileRecord
  {
    FileRecord(key, bucket, req.region, req.userId, name,
               if req.fileType.Some? then req.fileType.value else "application/octet-stream",
               req.size,
               if req.status.Some? then req.status.value else "private",
               req.starred, false, "", "", "", folder, now)
  }

  /** POST /upload: validate, look up the bucket, pick a free name, write the
      record. The object itself is written later through the presigned URL. */
  function Upload(t: Tables, buckets: map<string, string>, req: UploadRequest, now: string,
                  faults: Faults): (Reply<UploadReply>, Tables)
  {
    if req.region == "" || req.fileName == "" || req.userId == "" then (Fail(400), t)
    else if req.region !in buckets then (Fail(404), t)
    else
      var folder := NormalizeFolder(req.folder);
      var n := UploadCounter(t.meta.Keys, req.userId, folder, req.fileName);
      var name := UploadName(req.fileName, n);
      var key := UploadKey(req.userId, folder, name);
      if key in faults.meta then (Fail(500), t)
      else
        var rec := UploadRecord(req, buckets[req.region], folder, key, name, now);
        (Ok(UploadReply(name, key)), t.(meta := t.meta[key := rec]))
  }

  /** The issued key is free, lies in the requested folder and carries the issued
      name; a free name is kept; otherwise the name is `{base} ({n}){.ext}` with
      the least free n >= 1. Only that one record is added and no object is
      written. */
  lemma UploadSpec(t: Tables, buckets: map<string, string>, req: UploadRequest, now: string, faults: Faults)
    ensures var (reply, t') := Upload(t, buckets, req, now, faults);
            reply.Ok? ==>
              var folder := NormalizeFolder(req.folder);
              var prefix := UploadPrefix(req.userId, folder);
              var (base, ext) := SplitExt(req.fileName);
              var name := reply.value.finalFileName;
              var key := reply.value.key;
              && key !in t.meta
              && key == UploadKey(req.userId, folder, name)
              && (prefix + req.fileName !in t.meta ==> name == req.fileName)
              && (prefix + req.fileName in t.meta ==>
                    exists n :: n >= 1 && name == Suffixed(base, DotExt(ext), n)
                                && IsFirstFree(t.meta.Keys, prefix, base, DotExt(ext), 1, n))
              && t'.meta.Keys == t.meta.Keys + {key}
              && (forall k :: k in t.meta ==> t'.meta[k] == t.meta[k])
              && t'.meta[key].fileName == name && t'.meta[key].folder == folder
              && t'.objects == t.objects
    ensures var (reply, t') := Upload(t, buckets, req, now, faults);
            reply.Fail? ==> t' == t
  {
    var (reply, t') := Upload(t, buckets, req, now, faults);
    if reply.Ok? {
      var folder := NormalizeFolder(req.folder);
      IssuedNameFree(t.meta.Keys, req.userId, folder, req.fileName);
      var n := UploadCounter(t.meta.Keys, req.userId, folder, req.fileName);
      assert reply.value.finalFileName == UploadName(req.fileName, n);
    }
  }

  /** The key of the issued name is free, and a renamed file carries its
      counter. */
  lemma IssuedNameFree(taken: set<string>, userId: string, folder: string, fileName: string)
    ensures var n := UploadCounter(taken, userId, folder, fileName);
            UploadKey(userId, folder, UploadName(fileName, n)) !in taken
  {
    var n := UploadCounter(taken, userId, folder, fileName);
    var prefix := UploadPrefix(userId, folder);
    var (base, ext) := SplitExt(fileName);
    if n > 0 {
      assert Candidate(prefix, base, DotExt(ext), n) == UploadKey(userId, folder, UploadName(fileName, n));
    }
  }

  // ---------------------------------------------------------------------------
  // Download

  /** The body of a download: the object the presigned GET is for and the file
      name it is offered under. */
  datatype DownloadReply = DownloadReply(bucket: string, key: string, downloadName: string)

  /** GET /download: a presigned GET for the named key, offered under the text
      after the key's last `/`. */
  function Download(buckets: map<string, string>, q: Target, faults: Faults): (r: Reply<DownloadReply>)
    ensures r.Ok? ==> '/' !in r.value.downloadName && EndsWith(r.value.key, r.value.downloadName)
  {
    if q.region == "" || q.userId == "" || (q.fileName == "" && q.rawKey == "") then Fail(400)
    else if q.region !in buckets then Fail(404)
    else
      var key := TargetKey(q.userId, q.rawKey, q.fileName, q.folder);
      if key in faults.objects then Fail(404)
      else
        LastSegmentIsSuffix(key, '/');
        Ok(DownloadReply(buckets[q.region], key, LastSegment(key, '/')))
  }

  /** A download by file name and folder names the key an upload into the same
      folder wrote, whenever the folder needs no normalisation. */
  lemma DownloadFindsUpload(t: Tables, buckets: map<string, string>, req: UploadRequest, now: string,
                            faults: Faults, q: Target)
    requires Upload(t, buckets, req, now, faults).0.Ok?
    requires var r := Upload(t, buckets, req, now, faults).0.value;
             q == Target(req.region, req.userId, r.finalFileName, req.folder, "")
    requires NormalizeFolder(req.folder) == req.folder
    requires Upload(t, buckets, req, now, faults).0.value.key !in faults.objects
    ensures Download(buckets, q, faults).Ok?
    ensures Download(buckets, q, faults).value.key == Upload(t, buckets, req, now, faults).0.value.key
  {
    var folder := req.folder;
    if folder != "" {
      StripCharNoop(folder, '/');
    }
  }

  // ---------------------------------------------------------------------------
  // Delete

  /** The objects of `bucket` named by `keys`. */
  function ObjectsOf(bucket: string, keys: set<string>): set<StoredObject> {
    set k | k in keys :: StoredObject(bucket, k)
  }

  /** Per key, an object delete and an independent metadata delete; a failed
      call is logged and skipped. */
  function RemoveKeys(t: Tables, bucket: string, keys: set<string>, faults: Faults): (r: Tables)
    ensures r.meta.Keys == t.meta.Keys - (keys - faults.meta)
    ensures r.objects == t.objects - ObjectsOf(bucket, keys - faults.objects)
  {
    Tables(t.meta - (keys - faults.meta), t.objects - ObjectsOf(bucket, keys - faults.objects))
  }

  /** The keys a folder delete, star or share covers: every metadata key under the
      folder key (which includes the folder's own record) and the folder key. */
  function FolderKeys(meta: map<string, FileRecord>, key: string): set<string> {
    Scan(meta, key) + {key}
  }

  /** DELETE /delete. */
  function Delete(t: Tables, buckets: map<string, string>, q: Target, faults: Faults): (Reply<bool>, Tables) {
    if q.region == "" || q.userId == "" || (q.fileName == "" && q.rawKey == "") then (Fail(400), t)
    else if q.region !in buckets then (Fail(404), t)
    else
      var bucket := buckets[q.region];
      var (isFolder, key) := DeleteTarget(t.meta, TargetKey(q.userId, q.rawKey, q.fileName, q.folder));
      if isFolder then (Ok(true), RemoveKeys(t, bucket, FolderKeys(t.meta, key), faults))
      else if key in faults.objects then (Fail(404), t)
      else (Ok(false), RemoveKeys(t, bucket, {key}, faults))
  }

  /** Deleting a folder without faults removes every record whose id starts with
      the folder key and the objects of the bucket named by them, and keeps every
      other record and object as it was. */
  lemma DeleteFolderSpec(t: Tables, buckets: map<string, string>, q: Target)
    requires Delete(t, buckets, q, Faults({}, {})).0 == Ok(true)
    ensures var key := DeleteTarget(t.meta, TargetKey(q.userId, q.rawKey, q.fileName, q.folder)).1;
            var t' := Delete(t, buckets, q, Faults({}, {})).1;
            && EndsWith(key, "/")
            && (forall k :: k in t'.meta <==> k in t.meta && !StartsWith(k, key))
            && (forall k :: k in t'.meta ==> t'.meta[k] == t.meta[k])
            && (forall o :: o in t'.objects <==>
                  o in t.objects && !(o.bucket == buckets[q.region] && (o.key == key || (o.key in t.meta && StartsWith(o.key, key)))))
  {
    var bucket := buckets[q.region];
    var key := DeleteTarget(t.meta, TargetKey(q.userId, q.rawKey, q.fileName, q.folder)).1;
    var keys := FolderKeys(t.meta, key);
    assert StartsWith(key, key);
    forall o ensures o in ObjectsOf(bucket, keys) <==> o.bucket == bucket && o.key in keys {
      if o in ObjectsOf(bucket, keys) {
        var k :| k in keys && o == StoredObject(bucket, k);
      }
    }
  }

  /** Deleting a file removes only its own key; a failed object delete answers
      404 and changes nothing, a failed metadata delete is ignored. */
  lemma DeleteFileSpec(t: Tables, buckets: map<string, string>, q: Target, faults: Faults)
    requires q.region != "" && q.userId != "" && (q.fileName != "" || q.rawKey != "") && q.region in buckets
    requires !DeleteTarget(t.meta, TargetKey(q.userId, q.rawKey, q.fileName, q.folder)).0
    ensures var key := TargetKey(q.userId, q.rawKey, q.fileName, q.folder);
            var (reply, t') := Delete(t, buckets, q, faults);
            && (key in faults.objects ==> reply == Fail(404) && t' == t)
            && (key !in faults.objects ==>
                  && reply == Ok(false)
                  && t'.objects == t.objects - {StoredObject(buckets[q.region], key)}
                  && t'.meta == if key in faults.meta then t.meta else t.meta - {key})
  {
    var key := TargetKey(q.userId, q.rawKey, q.fileName, q.folder);
    assert ObjectsOf(buckets[q.region], {key} - faults.objects) ==
           (if key in faults.objects then {} else {StoredObject(buckets[q.region], key)});
  }

  /** Objects under a folder that have no metadata record survive its delete. */
  lemma DeleteKeepsOrphans(t: Tables, buckets: map<string, string>, q: Target, faults: Faults, o: StoredObject)
    requires Delete(t, buckets, q, faults).0 == Ok(true)
    requires o in t.objects && o.key !in t.meta
    requires o.key != DeleteTarget(t.meta, TargetKey(q.userId, q.rawKey, q.fileName, q.folder)).1
    ensures o in Delete(t, buckets, q, faults).1.objects
  {
    var bucket := buckets[q.region];
    var key := DeleteTarget(t.meta, TargetKey(q.userId, q.rawKey, q.fileName, q.folder)).1;
    var keys := FolderKeys(t.meta, key) - faults.objects;
    forall k | k in keys ensures StoredObject(bucket, k) != o {
      assert k in t.meta || k == key;
    }
    assert o !in ObjectsOf(bucket, keys);
  }

  // ---------------------------------------------------------------------------
  // Delete multiple

  /** An entry of `fileNames`: a plain string, or a dict with optional key,
      fileName and folder. */
  datatype DeleteItem = Name(name: string) | Entry(key: string, fileName: Option<string>, folder: string)

  /** The key an entry names; None where building it raises (no key and no
      fileName: `str + None`). */
  function ItemKey(userId: string, it: DeleteItem): (r: Option<string>)
    ensures it.Name? ==> r == Some(TargetKey(userId, "", it.name, ""))
  {
    match it
    case Name(n) => Some(UserRoot(userId) + n)
    case Entry(k, fn, f) =>
      if k != "" then Some(k)
      else if fn.None? then None
      else Some(TargetKey(userId, "", fn.value, f))
  }

  /** One entry of a batch delete: the folder cascade as in the single delete;
      for a file, object and metadata deletes are independent. */
  function DeleteOne(t: Tables, bucket: string, key0: string, faults: Faults): Tables {
    var (isFolder, key) := DeleteTarget(t.meta, key0);
    if isFolder then RemoveKeys(t, bucket, FolderKeys(t.meta, key), faults)
    else RemoveKeys(t, bucket, {key}, faults)
  }

  /** The entries in order; an entry whose key cannot be built stops the batch
      (false) with the earlier entries' deletes in place. */
  function DeleteAll(t: Tables, bucket: string, userId: string, items: seq<DeleteItem>, faults: Faults): (bool, Tables)
    decreases |items|
  {
    if items == [] then (true, t)
    else match ItemKey(userId, items[0])
      case None => (false, t)
      case Some(key) => DeleteAll(DeleteOne(t, bucket, key, faults), bucket, userId, items[1..], faults)
  }

  /** POST /delete-multiple. */
  function DeleteMultiple(t: Tables, buckets: map<string, string>, region: string, userId: string,
                          items: seq<DeleteItem>, faults: Faults): (Reply<()>, Tables)
  {
    if region == "" || userId == "" || items == [] then (Fail(400), t)
    else if region !in buckets then (Fail(404), t)
    else
      var (ok, t') := DeleteAll(t, buckets[region], userId, items, faults);
      (if ok then Ok(()) else Fail(500), t')
  }

  /** A batch delete only ever removes: no record or object appears and no
      record changes. */
  lemma {:induction false} DeleteAllOnlyRemoves(t: Tables, bucket: string, userId: string,
                                                items: seq<DeleteItem>, faults: Faults)
    ensures var t' := DeleteAll(t, bucket, userId, items, faults).1;
            && t'.meta.Keys <= t.meta.Keys
            && (forall k :: k in t'.meta ==> t'.meta[k] == t.meta[k])
            && t'.objects <= t.objects
    decreases |items|
  {
    if items != [] && ItemKey(userId, items[0]).Some? {
      DeleteAllOnlyRemoves(DeleteOne(t, bucket, ItemKey(userId, items[0]).value, faults), bucket, userId, items[1..], faults);
    }
  }

  /** A plain empty string names the user root itself, so the batch deletes every
      record of the user. */
  lemma EmptyNameDeletesUserRoot(t: Tables, bucket: string, userId: string, k: string)
    requires k in t.meta && StartsWith(k, UserRoot(userId))
    ensures k !in DeleteAll(t, bucket, userId, [Name("")], Faults({}, {})).1.meta
  {
    assert UserRoot(userId) + "" == UserRoot(userId);
    assert EndsWith(UserRoot(userId), "/");
    assert DeleteAll(t, bucket, userId, [Name("")], Faults({}, {})) ==
           DeleteAll(DeleteOne(t, bucket, UserRoot(userId), Faults({}, {})), bucket, userId, [], Faults({}, {}));
  }

  // ---------------------------------------------------------------------------
  // Create folder

  /** `'/'.join(name.split('/')[:-1])`, the parent path of a nested folder name. */
  function ParentPath(name: string): string {
    var parts := Split(name, '/');
    Join(parts[..|parts| - 1], "/")
  }

  /** The parent path and the last segment put together give the name back. */
  lemma ParentPathSpec(name: string)
    ensures '/' !in name ==> ParentPath(name) == "" && LastSegment(name, '/') == name
    ensures '/' in name ==> ParentPath(name) + "/" + LastSegment(name, '/') == name
  {
    var parts := Split(name, '/');
    if '/' !in name {
      SplitNoSep(name, '/');
    } else {
      JoinSplit(name, '/');
      JoinInitLast(parts, "/");
    }
  }

  /** A folder record's parent path and name rebuild its key. */
  lemma FolderRecordKey(userId: string, name: string)
    requires name != "" && name[0] != '/'
    ensures UserRoot(userId) + name + "/" == UploadKey(userId, ParentPath(name), LastSegment(name, '/')) + "/"
  {
    ParentPathSpec(name);
    var parent, last := ParentPath(name), LastSegment(name, '/');
    if '/' in name {
      assert name[0] == if parent == "" then '/' else parent[0];
      KeyOfParent(userId, parent, last, name);
    } else {
      assert UploadKey(userId, parent, last) == UserRoot(userId) + name;
    }
  }

  /** A name under a non-empty parent path is uploaded as `{parent}/{last}`. */
  lemma KeyOfParent(userId: string, parent: string, last: string, name: string)
    requires parent != "" && parent + "/" + last == name
    ensures UserRoot(userId) + name + "/" == UploadKey(userId, parent, last) + "/"
  {
    assert UploadKey(userId, parent, last) == UserRoot(userId) + (parent + "/" + last);
  }

  /** The record of a new folder. */
  function FolderRecord(key: string, bucket: string, region: string, userId: string, name: string,
                        now: string): FileRecord
  {
    FileRecord(key, bucket, region, userId, LastSegment(name, '/'), FolderType, Missing, "", false, false,
               "", "", "", ParentPath(name), now)
  }

  /** POST /create-folder. */
  function CreateFolder(t: Tables, buckets: map<string, string>, region: string, userId: string,
                        folderName: string, now: string, faults: Faults): (Reply<()>, Tables)
  {
    var name := NormalizeFolder(folderName);
    if region == "" || userId == "" || name == "" then (Fail(400), t)
    else if region !in buckets then (Fail(404), t)
    else
      var bucket := buckets[region];
      var key := UserRoot(userId) + name + "/";
      if key in t.meta then (Fail(409), t)
      else if key in faults.objects then (Fail(500), t)
      else
        var t1 := t.(objects := t.objects + {StoredObject(bucket, key)});
        if key in faults.meta then (Fail(500), t1)
        else (Ok(()), t1.(meta := t1.meta[key := FolderRecord(key, bucket, region, userId, name, now)]))
  }

  /** A created folder gets a marker object and a folder record under
      `{userId}/uploads/{name}/` whose folder and fileName put together give the
      name; an existing key answers 409 and changes nothing. */
  lemma CreateFolderSpec(t: Tables, buckets: map<string, string>, region: string, userId: string,
                         folderName: string, now: string, faults: Faults)
    ensures var (reply, t') := CreateFolder(t, buckets, region, userId, folderName, now, faults);
            var name := NormalizeFolder(folderName);
            var key := UserRoot(userId) + name + "/";
            && (reply.Ok? ==>
                  && key !in t.meta
                  && t'.objects == t.objects + {StoredObject(buckets[region], key)}
                  && t'.meta == t.meta[key := t'.meta[key]]
                  && IsFolderRecord(t'.meta[key])
                  && key == UploadKey(userId, t'.meta[key].folder, t'.meta[key].fileName) + "/")
            && (reply == Fail(409) ==> key in t.meta && t' == t)
  {
    var name := NormalizeFolder(folderName);
    if name != "" {
      FolderRecordKey(userId, name);
    }
  }

  // ---------------------------------------------------------------------------
  // Star and share

  /** The record an `update_item` modifies: the stored one, or a new item with
      only the id when none exists (the update creates it). */
  function Current(meta: map<string, FileRecord>, k: string): FileRecord {
    if k in meta then meta[k] else Stub(k)
  }

  /** The `SET` expression of an `update_item`: star/unstar, or the four share
      fields. */
  datatype Update = StarTo(starred: bool) | ShareWith(permissions: string, expiry: string, password: string)

  function SetStarred(r: FileRecord, starred: bool): FileRecord {
    r.(starred := starred)
  }

  function Shared(r: FileRecord, permissions: string, expiry: string, password: string): FileRecord {
    r.(shared := true, sharePermissions := permissions, shareExpiry := expiry, sharePassword := password)
  }

  /** The record after the update. */
  function Apply(u: Update, r: FileRecord): FileRecord {
    match u
    case StarTo(s) => SetStarred(r, s)
    case ShareWith(p, e, pw) => Shared(r, p, e, pw)
  }

  /** Applying the same update twice is applying it once, so a key listed twice
      ends up as if listed once. */
  lemma ApplyIdempotent(u: Update, r: FileRecord)
    ensures Apply(u, Apply(u, r)) == Apply(u, r)
  {
  }

  /** Apply `u` to the record of every key in `keys` whose update does not fail. */
  function UpdateAll(meta: map<string, FileRecord>, keys: set<string>, u: Update,
                     faults: Faults): (r: map<string, FileRecord>)
    ensures r.Keys == meta.Keys + (keys - faults.meta)
  {
    var ks := keys - faults.meta;
    map k | k in meta.Keys + ks :: if k in ks then Apply(u, Current(meta, k)) else meta[k]
  }

  /** The keys star and share update, and whether the target is a folder. */
  function UpdateKeys(meta: map<string, FileRecord>, q: Target): (r: (bool, string, set<string>))
    ensures r.1 in r.2
  {
    var (isFolder, key) := MetaTarget(meta, TargetKey(q.userId, q.rawKey, q.fileName, q.folder));
    (isFolder, key, if isFolder then FolderKeys(meta, key) else {key})
  }

  datatype StarReply = StarReply(isFolder: bool, updatedItems: set<string>)

  /** POST /star (starred) and POST /unstar (not starred); there is no bucket
      lookup. */
  function Star(t: Tables, q: Target, starred: bool, faults: Faults): (Reply<StarReply>, Tables) {
    if q.region == "" || q.userId == "" || (q.rawKey == "" && q.fileName == "") then (Fail(400), t)
    else
      var (isFolder, key, keys) := UpdateKeys(t.meta, q);
      (Ok(StarReply(isFolder, keys)),
       t.(meta := UpdateAll(t.meta, keys, StarTo(starred), faults)))
  }

  /** Starring sets `starred` on every updated key and changes no other field of
      any record; keys under a folder, the folder key and nothing else are
      updated, and a missing key gains a new record. */
  lemma StarSpec(t: Tables, q: Target, starred: bool, k: string)
    requires Star(t, q, starred, Faults({}, {})).0.Ok?
    ensures var (reply, t') := Star(t, q, starred, Faults({}, {}));
            var (isFolder, key, keys) := UpdateKeys(t.meta, q);
            && reply.value.updatedItems == keys
            && (isFolder ==> (k in keys <==> k == key || (k in t.meta && StartsWith(k, key))))
            && (!isFolder ==> keys == {key})
            && (k in keys ==> k in t'.meta && t'.meta[k] == Current(t.meta, k).(starred := starred))
            && (k !in keys ==> (k in t'.meta <==> k in t.meta) && (k in t.meta ==> t'.meta[k] == t.meta[k]))
            && t'.objects == t.objects
  {
  }

  datatype ShareLink = ShareLink(bucket: string, key: string, expiresIn: nat)

  datatype ShareReply = ShareReply(isFolder: bool, shareLink: Option<ShareLink>, id: string,
                                   permissions: string, expiry: string)

  datatype ShareRequest = ShareRequest(target: Target, permissions: Option<string>, expiry: Option<string>,
                                       password: Option<string>)

  /** POST /share: the updates, then a presigned GET for files only. */
  function Share(t: Tables, buckets: map<string, string>, req: ShareRequest, faults: Faults): (Reply<ShareReply>, Tables) {
    var q := req.target;
    var permissions := if req.permissions.Some? then req.permissions.value else "view";
    var expiry := if req.expiry.Some? then req.expiry.value else "7days";
    var password := if req.password.Some? then req.password.value else "";
    if q.region == "" || q.userId == "" || (q.rawKey == "" && q.fileName == "") then (Fail(400), t)
    else if q.region !in buckets then (Fail(404), t)
    else
      var (isFolder, key, keys) := UpdateKeys(t.meta, q);
      var t' := t.(meta := UpdateAll(t.meta, keys, ShareWith(permissions, expiry, password), faults));
      if isFolder then (Ok(ShareReply(true, None, key, permissions, expiry)), t')
      else if key in faults.objects then (Fail(404), t')
      else (Ok(ShareReply(false, Some(ShareLink(buckets[q.region], key, ExpirySeconds(expiry))), key, permissions, expiry)), t')
  }

  /** Sharing answers 400 without a region, a user id, or a key or file name,
      and 404 when the region has no bucket, changing nothing in either case.
      Otherwise it writes the requested permissions, expiry and password (with
      the defaults "view", "7days" and "") into every updated key and nothing
      else: on a folder the folder key and the keys under it, on a file its key
      only. A file gets a link to its key in the region's bucket that expires
      after the seconds its expiry names, and a folder gets none. When the link
      cannot be presigned, the reply is 404 but the records stay shared. */
  lemma ShareSpec(t: Tables, buckets: map<string, string>, req: ShareRequest, faults: Faults, k: string)
    ensures var (reply, t') := Share(t, buckets, req, faults);
            var q := req.target;
            var valid := q.region != "" && q.userId != "" && (q.rawKey != "" || q.fileName != "");
            && t'.objects == t.objects
            && (!valid ==> reply == Fail(400) && t' == t)
            && (valid && q.region !in buckets ==> reply == Fail(404) && t' == t)
    ensures var (reply, t') := Share(t, buckets, req, faults);
            var q := req.target;
            var valid := q.region != "" && q.userId != "" && (q.rawKey != "" || q.fileName != "");
            var permissions := if req.permissions.Some? then req.permissions.value else "view";
            var expiry := if req.expiry.Some? then req.expiry.value else "7days";
            var password := if req.password.Some? then req.password.value else "";
            var (isFolder, key, keys) := UpdateKeys(t.meta, q);
            valid && q.region in buckets ==>
              && (isFolder ==> (k in keys <==> k == key || (k in t.meta && StartsWith(k, key))))
              && (!isFolder ==> keys == {key})
              && (k in keys - faults.meta ==>
                    k in t'.meta && t'.meta[k] == Shared(Current(t.meta, k), permissions, expiry, password))
              && (k !in keys - faults.meta ==>
                    (k in t'.meta <==> k in t.meta) && (k in t.meta ==> t'.meta[k] == t.meta[k]))
              && (reply.Fail? <==> !isFolder && key in faults.objects)
              && (reply.Fail? ==> reply.status == 404)
              && (reply.Ok? ==>
                    && reply.value.id == key
                    && reply.value.isFolder == isFolder
                    && reply.value.permissions == permissions
                    && reply.value.expiry == expiry
                    && (reply.value.shareLink.Some? <==> !isFolder)
                    && (reply.value.shareLink.Some? ==>
                          reply.value.shareLink.value == ShareLink(buckets[q.region], key, ExpirySeconds(expiry))))
  {
  }
}
