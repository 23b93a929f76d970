/** The storage service's handlers as they run: a file system object whose two
    fields are the metadata table and the object store, updated call by call in
    the order the handlers make them. Every handler is proved to leave the
    stores exactly as the matching function of StorageSpec, MoveSpec or
    ArchiveSpec says, and to give the same reply. */
module Storage {
  import opened Text
  import opened Naming
  import opened Wrappers
  import opened StorageModel
  import opened StorageSpec
  import opened MoveSpec
  import opened ArchiveSpec

  // ---------------------------------------------------------------------------
  // Lemmas the loops step with

  /** Removing two key sets one after the other removes their union. */
  lemma RemoveKeysUnion(t: Tables, bucket: string, a: set<string>, b: set<string>, faults: Faults)
    ensures RemoveKeys(RemoveKeys(t, bucket, a, faults), bucket, b, faults) == RemoveKeys(t, bucket, a + b, faults)
  {
    var r1 := RemoveKeys(RemoveKeys(t, bucket, a, faults), bucket, b, faults);
    var r2 := RemoveKeys(t, bucket, a + b, faults);
    assert r1.meta == r2.meta;
    forall o ensures o in ObjectsOf(bucket, (a + b) - faults.objects) <==>
                     o in ObjectsOf(bucket, a - faults.objects) || o in ObjectsOf(bucket, b - faults.objects)
    {
      if o in ObjectsOf(bucket, (a + b) - faults.objects) {
        var k :| k in (a + b) - faults.objects && o == StoredObject(bucket, k);
        if k in a {
          assert o in ObjectsOf(bucket, a - faults.objects);
        } else {
          assert o in ObjectsOf(bucket, b - faults.objects);
        }
      }
    }
    assert r1.objects == r2.objects;
  }

  /** An empty update batch changes nothing. */
  lemma UpdateAllNothing(meta: map<string, FileRecord>, u: Update, faults: Faults)
    ensures UpdateAll(meta, {}, u, faults) == meta
  {
  }

  /** One more key in an update batch. */
  lemma UpdateAllStep(meta: map<string, FileRecord>, done: set<string>, k: string, u: Update, faults: Faults)
    requires k !in done
    ensures Current(UpdateAll(meta, done, u, faults), k) == Current(meta, k)
    ensures UpdateAll(meta, done + {k}, u, faults) ==
            var m := UpdateAll(meta, done, u, faults);
            if k in faults.meta then m else m[k := Apply(u, Current(m, k))]
  {
  }

  /** A new scanned key adds one new destination. */
  lemma DestsStep(dp: string, sourceKey: string, copied: set<string>, k: string)
    requires k !in copied && StartsWith(k, sourceKey)
    requires forall c :: c in copied ==> StartsWith(c, sourceKey)
    ensures Dests(dp, sourceKey, copied + {k}) == Dests(dp, sourceKey, copied) + {DestOf(dp, sourceKey, k)}
    ensures DestOf(dp, sourceKey, k) !in Dests(dp, sourceKey, copied)
  {
    var d := DestOf(dp, sourceKey, k);
    if d in Dests(dp, sourceKey, copied) {
      var c :| c in copied && DestOf(dp, sourceKey, c) == d;
      SourceOfDestOf(dp, sourceKey, c);
      SourceOfDestOf(dp, sourceKey, k);
    }
  }

  /** One more copied key in a folder copy: its record. */
  lemma CopyEachMetaStep(t: Tables, bucket: string, dp: string, sourceKey: string, copied: set<string>,
                         k: string, now: string)
    requires k !in copied && k in t.meta && StartsWith(k, sourceKey)
    requires forall c :: c in copied ==> StartsWith(c, sourceKey)
    ensures var d := DestOf(dp, sourceKey, k);
            CopyEach(t, bucket, dp, sourceKey, copied + {k}, now).meta ==
              CopyEach(t, bucket, dp, sourceKey, copied, now).meta[d := CopiedRecord(t.meta[k], d, CopyName(d), now)]
  {
    DestsStep(dp, sourceKey, copied, k);
    SourceOfDestOf(dp, sourceKey, k);
  }

  /** Before the copy loop: nothing copied, nothing changed. */
  lemma CopyEachNothing(t: Tables, bucket: string, dp: string, sourceKey: string, now: string, faults: Faults)
    ensures CopyEach(t, bucket, dp, sourceKey, {}, now) == t
    ensures Copyable(t, bucket, {}, faults) == {}
  {
    assert Dests(dp, sourceKey, {}) == {};
    assert ObjectsOf(bucket, {}) == {};
  }

  /** One more copied key in a folder copy: its object. */
  lemma CopyEachObjectsStep(t: Tables, bucket: string, dp: string, sourceKey: string, copied: set<string>,
                            k: string, now: string)
    requires k !in copied && StartsWith(k, sourceKey)
    requires forall c :: c in copied ==> StartsWith(c, sourceKey)
    ensures CopyEach(t, bucket, dp, sourceKey, copied + {k}, now).objects ==
              CopyEach(t, bucket, dp, sourceKey, copied, now).objects + {StoredObject(bucket, DestOf(dp, sourceKey, k))}
  {
    var ds := Dests(dp, sourceKey, copied);
    var d := DestOf(dp, sourceKey, k);
    DestsStep(dp, sourceKey, copied, k);
    assert ObjectsOf(bucket, ds + {d}) == ObjectsOf(bucket, ds) + {StoredObject(bucket, d)};
  }

  /** One more scanned key: it joins the copied keys exactly when its object
      was present and its copy does not fail. */
  lemma CopyableStep(t: Tables, bucket: string, done: set<string>, k: string, faults: Faults)
    ensures Copyable(t, bucket, done + {k}, faults) ==
            if StoredObject(bucket, k) in t.objects && k !in faults.objects
            then Copyable(t, bucket, done, faults) + {k}
            else Copyable(t, bucket, done, faults)
  {
  }

  /** The handler's loop step: one more source on top of the sources so far. */
  lemma MoveAllSnoc(t: Tables, bucket: string, userId: string, sources: seq<string>, destination: string,
                    move: bool, now: string, faults: Faults, moved: seq<string>, t1: Tables,
                    m: Option<string>, t2: Tables)
    requires sources != []
    requires (moved, t1) == MoveAll(t, bucket, userId, sources[..|sources| - 1], destination, move, now, faults)
    requires (m, t2) == MoveOne(t1, bucket, userId, sources[|sources| - 1], destination, move, now, faults)
    ensures MoveAll(t, bucket, userId, sources, destination, move, now, faults).0 ==
            moved + (if m.Some? then [m.value] else [])
    ensures MoveAll(t, bucket, userId, sources, destination, move, now, faults).1 == t2
  {
  }

  /** One more component of the accumulated path. */
  lemma PathToStep(parts: seq<string>, j: nat)
    requires j < |parts|
    ensures PathTo(parts, j + 1) == PathTo(parts, j) + parts[j] + "/"
  {
    assert parts[..j + 1][..j] == parts[..j];
  }

  /** One more turn of the `path_acc` loop: the folder of one more prefix. */
  lemma PrefixFoldersStep(root: string, parts: seq<string>, j: nat)
    requires j < |parts|
    ensures PathTo(parts, j + 1) == PathTo(parts, j) + parts[j] + "/"
    ensures (set n | 1 <= n <= j + 1 :: root + PathTo(parts, n))
         == (set n | 1 <= n <= j :: root + PathTo(parts, n)) + {root + PathTo(parts, j + 1)}
  {
    PathToStep(parts, j);
  }

  /** Taking one element off the part of `all` still to visit adds it to the
      visited part. */
  lemma DrainStep<T>(all: set<T>, todo: set<T>, x: T)
    requires x in todo && todo <= all
    ensures all - (todo - {x}) == (all - todo) + {x}
  {
  }

  /** One more listed key in the folder collection. */
  lemma FolderSetStep(keys: set<string>, root: string, k: string)
    ensures FolderSet(keys + {k}, root) ==
            FolderSet(keys, root) + if EndsWith(k, "/") then {k} else Ancestors(root, k)
  {
    var extra := if EndsWith(k, "/") then {} else Ancestors(root, k);
    forall d ensures d in AncestorFolders(keys + {k}, root) <==> d in AncestorFolders(keys, root) || d in extra {
      if d in AncestorFolders(keys + {k}, root) {
        var k' :| k' in keys + {k} && !EndsWith(k', "/") && d in Ancestors(root, k');
        if k' != k {
          assert d in AncestorFolders(keys, root);
        }
      }
      if d in extra {
        assert d in AncestorFolders(keys + {k}, root);
      }
    }
    assert AncestorFolders(keys + {k}, root) == AncestorFolders(keys, root) + extra;
  }

  /** The `path_acc` loop of download-folder: the folder of every proper
      prefix of the key's components below the user root. */
  method CollectAncestors(root: string, k: string) returns (folders: set<string>)
    ensures folders == Ancestors(root, k)
  {
    var parts := RelParts(root, k);
    var pathAcc := "";
    folders := {};
    var j := 0;
    while j < |parts| - 1
      invariant 0 <= j <= |parts| - 1
      invariant pathAcc == PathTo(parts, j)
      invariant folders == set n | 1 <= n <= j :: root + PathTo(parts, n)
    {
      PrefixFoldersStep(root, parts, j);
      pathAcc := pathAcc + parts[j] + "/";
      j := j + 1;
      folders := folders + {root + pathAcc};
    }
  }

  /** The listing loop of download-folder: every marker, and the ancestors of
      every other key. */
  method CollectFolders(keys: set<string>, root: string) returns (folders: set<string>)
    ensures folders == FolderSet(keys, root)
  {
    folders := {};
    var todo := keys;
    assert FolderSet(keys - todo, root) == {};
    while todo != {}
      invariant todo <= keys
      invariant folders == FolderSet(keys - todo, root)
      decreases |todo|
    {
      var k :| k in todo;
      CollectFoldersStep(keys, todo, root, k);
      if EndsWith(k, "/") {
        folders := folders + {k};
      } else {
        var ancestors := CollectAncestors(root, k);
        folders := folders + ancestors;
      }
      todo := todo - {k};
    }
    assert keys - todo == keys;
  }

  /** One turn of the listing loop: taking `k` off the keys still to visit. */
  lemma CollectFoldersStep(keys: set<string>, todo: set<string>, root: string, k: string)
    requires k in todo && todo <= keys
    ensures FolderSet(keys - (todo - {k}), root) ==
            FolderSet(keys - todo, root) + if EndsWith(k, "/") then {k} else Ancestors(root, k)
  {
    DrainStep(keys, todo, k);
    FolderSetStep(keys - todo, root, k);
  }

  /** The directory entries of the archive, one per collected folder. */
  method DirEntries(folders: set<string>, root: string) returns (dirs: set<string>)
    ensures dirs == set f | f in folders :: DirEntry(root, f)
  {
    dirs := {};
    var todo := folders;
    while todo != {}
      invariant todo <= folders
      invariant dirs == set f | f in folders - todo :: DirEntry(root, f)
      decreases |todo|
    {
      var f :| f in todo;
      DrainStep(folders, todo, f);
      dirs := dirs + {DirEntry(root, f)};
      todo := todo - {f};
    }
    assert folders - todo == folders;
  }

  /** The file entries of the archive: each listed key that is not a marker,
      below the user root; None when one of their downloads fails. */
  method FileEntries(keys: set<string>, root: string, faults: Faults) returns (files: Option<set<string>>)
    ensures files.None? <==> exists k :: k in keys && !EndsWith(k, "/") && k in faults.objects
    ensures files.Some? ==> files.value == set k | k in keys && !EndsWith(k, "/") :: DropPrefix(k, |root|)
  {
    var acc: set<string> := {};
    var todo := keys;
    while todo != {}
      invariant todo <= keys
      invariant acc == set k | k in keys - todo && !EndsWith(k, "/") :: DropPrefix(k, |root|)
      invariant forall k :: k in keys - todo && !EndsWith(k, "/") ==> k !in faults.objects
      decreases |todo|
    {
      var k :| k in todo;
      DrainStep(keys, todo, k);
      if !EndsWith(k, "/") {
        if k in faults.objects {
          return None;
        }
        acc := acc + {DropPrefix(k, |root|)};
      }
      todo := todo - {k};
    }
    assert keys - todo == keys;
    return Some(acc);
  }

  class FileSystem {
    /** The metadata table: one record per id. */
    var meta: map<string, FileRecord>
    /** The object store. */
    var objects: set<StoredObject>
    /** The bucket table, region to bucket name; the handlers only read it. */
    const buckets: map<string, string>

    function State(): Tables
      reads this
    {
      Tables(meta, objects)
    }

    constructor (buckets: map<string, string>)
      ensures State() == Tables(map[], {}) && this.buckets == buckets
    {
      this.buckets := buckets;
      meta := map[];
      objects := {};
    }

    // -------------------------------------------------------------------------
    // Upload

    /** POST /upload, with its renaming loop: the counter runs from 1 and stops
        at the first `{base} ({counter}){.ext}` that is not a metadata key. */
    method HandleUpload(req: UploadRequest, now: string, faults: Faults) returns (reply: Reply<UploadReply>)
      modifies this
      ensures (reply, State()) == Upload(old(State()), buckets, req, now, faults)
    {
      if req.region == "" || req.fileName == "" || req.userId == "" {
        return Fail(400);
      }
      if req.region !in buckets {
        return Fail(404);
      }
      var bucket := buckets[req.region];
      var folder := NormalizeFolder(req.folder);
      var prefix := UploadPrefix(req.userId, folder);
      var (base, ext) := SplitExt(req.fileName);
      var counter := 1;
      var finalName := req.fileName;
      var key := UploadKey(req.userId, folder, finalName);
      var existing := key in meta;
      while existing
        invariant State() == old(State())
        invariant 1 <= counter
        invariant existing <==> key in meta
        invariant key == prefix + finalName
        invariant counter == 1 ==> finalName == req.fileName
        invariant counter > 1 ==> prefix + req.fileName in meta
                                  && finalName == Suffixed(base, DotExt(ext), counter - 1)
                                  && forall m :: 1 <= m < counter - 1 ==> Candidate(prefix, base, DotExt(ext), m) in meta.Keys
        decreases |meta.Keys| + 1 - counter
      {
        if counter > 1 {
          assert Candidate(prefix, base, DotExt(ext), counter - 1) == key;
          CandidatesFit(meta.Keys, prefix, base, DotExt(ext), 1, counter);
        }
        finalName := Suffixed(base, DotExt(ext), counter);
        key := UploadKey(req.userId, folder, finalName);
        existing := key in meta;
        counter := counter + 1;
      }
      ghost var n := UploadCounter(meta.Keys, req.userId, folder, req.fileName);
      if counter > 1 {
        assert Candidate(prefix, base, DotExt(ext), counter - 1) == key;
        FirstFreeUnique(meta.Keys, prefix, base, DotExt(ext), 1, n, counter - 1);
      }
      assert finalName == UploadName(req.fileName, n);
      assert key == UploadKey(req.userId, folder, UploadName(req.fileName, n));
      if key in faults.meta {
        return Fail(500);
      }
      meta := meta[key := UploadRecord(req, bucket, folder, key, finalName, now)];
      return Ok(UploadReply(finalName, key));
    }

    // -------------------------------------------------------------------------
    // Delete

    /** An object delete and then an independent metadata delete of one key. */
    method RemoveOne(bucket: string, k: string, faults: Faults)
      modifies this
      ensures State() == RemoveKeys(old(State()), bucket, {k}, faults)
    {
      if k !in faults.objects {
        objects := objects - {StoredObject(bucket, k)};
      }
      if k !in faults.meta {
        meta := meta - {k};
      }
      assert ObjectsOf(bucket, {k} - faults.objects) ==
             if k in faults.objects then {} else {StoredObject(bucket, k)};
    }

    /** The loop over the scanned items of a folder delete. */
    method RemoveEach(bucket: string, keys: set<string>, faults: Faults)
      modifies this
      ensures State() == RemoveKeys(old(State()), bucket, keys, faults)
    {
      ghost var t0 := State();
      var todo := keys;
      ghost var done: set<string> := {};
      assert State() == RemoveKeys(t0, bucket, done, faults);
      while todo != {}
        invariant done + todo == keys
        invariant State() == RemoveKeys(t0, bucket, done, faults)
        decreases |todo|
      {
        var k :| k in todo;
        RemoveOne(bucket, k, faults);
        RemoveKeysUnion(t0, bucket, done, {k}, faults);
        todo := todo - {k};
        done := done + {k};
      }
    }

    /** The folder detection and deletes one key of a delete makes, with a failed
        object delete of a file skipped like every other failure. */
    method DeleteEntry(bucket: string, key0: string, faults: Faults)
      modifies this
      ensures State() == DeleteOne(old(State()), bucket, key0, faults)
    {
      var (isFolder, key) := DeleteTarget(meta, key0);
      if isFolder {
        var items := Scan(meta, key);
        ghost var t0 := State();
        RemoveEach(bucket, items, faults);
        RemoveOne(bucket, key, faults);
        RemoveKeysUnion(t0, bucket, items, {key}, faults);
      } else {
        RemoveOne(bucket, key, faults);
      }
    }

    /** DELETE /delete. */
    method HandleDelete(q: Target, faults: Faults) returns (reply: Reply<bool>)
      modifies this
      ensures (reply, State()) == Delete(old(State()), buckets, q, faults)
    {
      if q.region == "" || q.userId == "" || (q.fileName == "" && q.rawKey == "") {
        return Fail(400);
      }
      if q.region !in buckets {
        return Fail(404);
      }
      var bucket := buckets[q.region];
      var (isFolder, key) := DeleteTarget(meta, TargetKey(q.userId, q.rawKey, q.fileName, q.folder));
      if isFolder {
        var items := Scan(meta, key);
        ghost var t0 := State();
        RemoveEach(bucket, items, faults);
        RemoveOne(bucket, key, faults);
        RemoveKeysUnion(t0, bucket, items, {key}, faults);
        return Ok(true);
      }
      if key in faults.objects {
        return Fail(404);
      }
      RemoveOne(bucket, key, faults);
      return Ok(false);
    }

    /** POST /delete-multiple: the entries in order; an entry whose key cannot
        be built raises, which the router answers with 500. */
    method HandleDeleteMultiple(region: string, userId: string, items: seq<DeleteItem>, faults: Faults)
      returns (reply: Reply<()>)
      modifies this
      ensures (reply, State()) == DeleteMultiple(old(State()), buckets, region, userId, items, faults)
    {
      if region == "" || userId == "" || items == [] {
        return Fail(400);
      }
      if region !in buckets {
        return Fail(404);
      }
      var bucket := buckets[region];
      ghost var goal := DeleteAll(State(), bucket, userId, items, faults);
      var i := 0;
      while i < |items|
        invariant 0 <= i <= |items|
        invariant DeleteAll(State(), bucket, userId, items[i..], faults) == goal
      {
        assert items[i..][0] == items[i] && items[i..][1..] == items[i + 1..];
        var key := ItemKey(userId, items[i]);
        if key.None? {
          return Fail(500);
        }
        DeleteEntry(bucket, key.value, faults);
        i := i + 1;
      }
      return Ok(());
    }

    // -------------------------------------------------------------------------
    // Create folder

    /** POST /create-folder: the marker object, then the folder record. */
    method HandleCreateFolder(region: string, userId: string, folderName: string, now: string, faults: Faults)
      returns (reply: Reply<()>)
      modifies this
      ensures (reply, State()) == CreateFolder(old(State()), buckets, region, userId, folderName, now, faults)
    {
      var name := NormalizeFolder(folderName);
      if region == "" || userId == "" || name == "" {
        return Fail(400);
      }
      if region !in buckets {
        return Fail(404);
      }
      var bucket := buckets[region];
      var key := UserRoot(userId) + name + "/";
      if key in meta {
        return Fail(409);
      }
      if key in faults.objects {
        return Fail(500);
      }
      objects := objects + {StoredObject(bucket, key)};
      if key in faults.meta {
        return Fail(500);
      }
      meta := meta[key := FolderRecord(key, bucket, region, userId, name, now)];
      return Ok(());
    }

    // -------------------------------------------------------------------------
    // Star and share

    /** The `update_item` loop of star and share. */
    method ApplyEach(keys: set<string>, u: Update, faults: Faults)
      modifies this
      ensures meta == UpdateAll(old(meta), keys, u, faults) && objects == old(objects)
    {
      ghost var m0 := meta;
      var todo := keys;
      ghost var done: set<string> := {};
      UpdateAllNothing(m0, u, faults);
      while todo != {}
        invariant done + todo == keys && done !! todo
        invariant meta == UpdateAll(m0, done, u, faults) && objects == old(objects)
        decreases |todo|
      {
        var k :| k in todo;
        UpdateAllStep(m0, done, k, u, faults);
        if k !in faults.meta {
          meta := meta[k := Apply(u, Current(meta, k))];
        }
        todo := todo - {k};
        done := done + {k};
      }
    }

    /** POST /star and POST /unstar. */
    method HandleStar(q: Target, starred: bool, faults: Faults) returns (reply: Reply<StarReply>)
      modifies this
      ensures (reply, State()) == Star(old(State()), q, starred, faults)
    {
      if q.region == "" || q.userId == "" || (q.rawKey == "" && q.fileName == "") {
        return Fail(400);
      }
      var (isFolder, key, keys) := UpdateKeys(meta, q);
      ApplyEach(keys, StarTo(starred), faults);
      return Ok(StarReply(isFolder, keys));
    }

    /** POST /share: the updates, then the presigned link of a file. */
    method HandleShare(req: ShareRequest, faults: Faults) returns (reply: Reply<ShareReply>)
      modifies this
      ensures (reply, State()) == Share(old(State()), buckets, req, faults)
    {
      var q := req.target;
      var permissions := if req.permissions.Some? then req.permissions.value else "view";
      var expiry := if req.expiry.Some? then req.expiry.value else "7days";
      var password := if req.password.Some? then req.password.value else "";
      if q.region == "" || q.userId == "" || (q.rawKey == "" && q.fileName == "") {
        return Fail(400);
      }
      if q.region !in buckets {
        return Fail(404);
      }
      var (isFolder, key, keys) := UpdateKeys(meta, q);
      ApplyEach(keys, ShareWith(permissions, expiry, password), faults);
      if isFolder {
        return Ok(ShareReply(true, None, key, permissions, expiry));
      }
      if key in faults.objects {
        return Fail(404);
      }
      return Ok(ShareReply(false, Some(ShareLink(buckets[q.region], key, ExpirySeconds(expiry))), key, permissions, expiry));
    }

    // -------------------------------------------------------------------------
    // Move and copy

    /** A file source: the probing loop for a free destination name from
        counter 0 on, then the object copy, the record copy and, for a move, the
        deletes of the source object and record. */
    method MoveFileSource(bucket: string, userId: string, source: string, destination: string, move: bool,
                          now: string, faults: Faults) returns (m: Option<string>)
      modifies this
      ensures (m, State()) == MoveFile(old(State()), bucket, userId, source, destination, move, now, faults)
    {
      var (base, dotExt) := FileParts(source);
      var prefix := DestPrefix(userId, destination);
      var counter := 0;
      var destFile := Suffixed(base, dotExt, counter);
      var destKey := prefix + destFile;
      while destKey in meta
        invariant State() == old(State())
        invariant destFile == Suffixed(base, dotExt, counter)
        invariant destKey == Candidate(prefix, base, dotExt, counter)
        invariant forall j :: 0 <= j < counter ==> Candidate(prefix, base, dotExt, j) in meta.Keys
        decreases |meta.Keys| - counter
      {
        ProbeStep(meta.Keys, prefix, base, dotExt, counter + 1);
        counter := counter + 1;
        destFile := Suffixed(base, dotExt, counter);
        destKey := prefix + destFile;
      }
      FirstFreeUnique(meta.Keys, prefix, base, dotExt, 0, counter, FileDestCounter(meta, userId, source, destination));
      var key := UserRoot(userId) + source;
      if StoredObject(bucket, key) !in objects || key in faults.objects || destKey == key {
        return None;
      }
      objects := objects + {StoredObject(bucket, destKey)};
      if key in meta {
        if destKey in faults.meta {
          return None;
        }
        meta := meta[destKey := CopiedRecord(meta[key], destKey, destFile, now)];
      }
      if move {
        objects := objects - {StoredObject(bucket, key)};
        if key in faults.meta {
          return None;
        }
        meta := meta - {key};
      }
      return Some(destFile);
    }

    /** The copy phase of a folder source: scan the records under the source
        key, then copy each one. */
    method CopyFolderSource(bucket: string, userId: string, source: string, destination: string,
                            sourceKey: string, now: string, faults: Faults)
      modifies this
      ensures State() == CopyFolder(old(State()), bucket, userId, source, destination, sourceKey, now, faults)
    {
      var items := Scan(meta, sourceKey);
      CopyEachRecord(bucket, FolderDestPrefix(userId, source, destination), sourceKey, items, meta, objects,
                     now, faults, State());
    }

    /** The copy loop over the scanned records `items`, whose records and
        objects were `records` and `before` when the scan ran: per record the
        object copy and, when it succeeds, the record copy. Whether a copy
        succeeds is decided on the objects present when the scan ran. */
    method CopyEachRecord(bucket: string, dp: string, sourceKey: string, items: set<string>,
                          records: map<string, FileRecord>, before: set<StoredObject>, now: string,
                          faults: Faults, ghost t0: Tables)
      requires t0 == State() && records == t0.meta && before == t0.objects
      requires items == Scan(t0.meta, sourceKey)
      modifies this
      ensures State() == CopyEach(t0, bucket, dp, sourceKey, Copyable(t0, bucket, items, faults), now)
    {
      var todo := items;
      ghost var copied: set<string> := {};
      CopyEachNothing(t0, bucket, dp, sourceKey, now, faults);
      assert items - todo == {};
      while todo != {}
        invariant todo <= items
        invariant copied == Copyable(t0, bucket, items - todo, faults) && copied <= items - todo
        invariant State() == CopyEach(t0, bucket, dp, sourceKey, copied, now)
        decreases |todo|
      {
        var k :| k in todo;
        DrainStep(items, todo, k);
        copied := CopyScanned(bucket, dp, sourceKey, items, k, records, before, now, faults, t0, items - todo, copied);
        todo := todo - {k};
      }
      assert items - todo == items;
    }

    /** One turn of the copy loop: the scanned key `k`, copied when its object
        was present at the scan and its copy does not fail. */
    method CopyScanned(bucket: string, dp: string, sourceKey: string, items: set<string>, k: string,
                       records: map<string, FileRecord>, before: set<StoredObject>, now: string,
                       faults: Faults, ghost t0: Tables, ghost done: set<string>, ghost copied: set<string>)
      returns (ghost copied': set<string>)
      requires records == t0.meta && before == t0.objects
      requires items == Scan(t0.meta, sourceKey)
      requires k in items && k !in done && done <= items
      requires copied == Copyable(t0, bucket, done, faults) && copied <= done
      requires State() == CopyEach(t0, bucket, dp, sourceKey, copied, now)
      modifies this
      ensures copied' == Copyable(t0, bucket, done + {k}, faults) && copied' <= done + {k}
      ensures State() == CopyEach(t0, bucket, dp, sourceKey, copied', now)
    {
      CopyableStep(t0, bucket, done, k, faults);
      copied' := copied;
      if StoredObject(bucket, k) in before && k !in faults.objects {
        CopyRecord(bucket, dp, sourceKey, k, DestOf(dp, sourceKey, k), records[k], now, t0, copied);
        copied' := copied + {k};
      }
    }

    /** One successful copy: the object under the destination key, then the
        record with its new id, name and time. */
    method CopyRecord(bucket: string, dp: string, sourceKey: string, k: string, destKey: string,
                      rec: FileRecord, now: string, ghost t0: Tables, ghost copied: set<string>)
      requires k !in copied && k in t0.meta && rec == t0.meta[k] && StartsWith(k, sourceKey)
      requires destKey == DestOf(dp, sourceKey, k)
      requires forall c :: c in copied ==> StartsWith(c, sourceKey)
      requires State() == CopyEach(t0, bucket, dp, sourceKey, copied, now)
      modifies this
      ensures State() == CopyEach(t0, bucket, dp, sourceKey, copied + {k}, now)
    {
      CopyEachMetaStep(t0, bucket, dp, sourceKey, copied, k, now);
      CopyEachObjectsStep(t0, bucket, dp, sourceKey, copied, k, now);
      objects := objects + {StoredObject(bucket, destKey)};
      meta := meta[destKey := CopiedRecord(rec, destKey, CopyName(destKey), now)];
    }

    /** The delete loop of a folder move: the object delete, then the record
        delete, both skipped once the object delete fails. */
    method RemoveOriginalsOf(bucket: string, items: set<string>, faults: Faults)
      modifies this
      ensures State() == RemoveOriginals(old(State()), bucket, items, faults)
    {
      ghost var t0 := State();
      var todo := items;
      ghost var done: set<string> := {};
      assert State() == RemoveKeys(t0, bucket, {}, faults);
      while todo != {}
        invariant done + todo == items
        invariant State() == RemoveKeys(t0, bucket, done - faults.objects, faults)
        decreases |todo|
      {
        var k :| k in todo;
        if k !in faults.objects {
          RemoveOne(bucket, k, faults);
          RemoveKeysUnion(t0, bucket, done - faults.objects, {k}, faults);
          assert (done - faults.objects) + {k} == (done + {k}) - faults.objects;
        } else {
          assert done - faults.objects == (done + {k}) - faults.objects;
        }
        todo := todo - {k};
        done := done + {k};
      }
    }

    /** One source of a move or copy. */
    method MoveSource(bucket: string, userId: string, source: string, destination: string, move: bool,
                      now: string, faults: Faults) returns (m: Option<string>)
      modifies this
      ensures (m, State()) == MoveOne(old(State()), bucket, userId, source, destination, move, now, faults)
    {
      var sourceKey := UserRoot(userId) + source;
      if !EndsWith(sourceKey, "/") && sourceKey in meta && IsFolderRecord(meta[sourceKey]) {
        sourceKey := sourceKey + "/";
      }
      if EndsWith(sourceKey, "/") {
        var items := Scan(meta, sourceKey);
        CopyFolderSource(bucket, userId, source, destination, sourceKey, now, faults);
        if move {
          RemoveOriginalsOf(bucket, items, faults);
        }
        return Some(source);
      }
      m := MoveFileSource(bucket, userId, source, destination, move, now, faults);
    }

    /** POST /move (move) and POST /copy (not move). */
    method HandleMoveOrCopy(req: MoveRequest, move: bool, now: string, faults: Faults)
      returns (reply: Reply<seq<string>>)
      modifies this
      ensures (reply, State()) == MoveOrCopy(old(State()), buckets, req, move, now, faults)
    {
      if req.region == "" || req.userId == "" || req.sources == [] || req.destination == "" {
        return Fail(400);
      }
      if req.region !in buckets {
        return Fail(404);
      }
      var bucket := buckets[req.region];
      ghost var t0 := State();
      var moved: seq<string> := [];
      var i := 0;
      while i < |req.sources|
        invariant 0 <= i <= |req.sources|
        invariant moved == MoveAll(t0, bucket, req.userId, req.sources[..i], req.destination, move, now, faults).0
        invariant State() == MoveAll(t0, bucket, req.userId, req.sources[..i], req.destination, move, now, faults).1
      {
        ghost var s := req.sources[..i + 1];
        assert s[..|s| - 1] == req.sources[..i] && s[|s| - 1] == req.sources[i];
        ghost var before := State();
        ghost var movedBefore := moved;
        var m := MoveSource(bucket, req.userId, req.sources[i], req.destination, move, now, faults);
        MoveAllSnoc(t0, bucket, req.userId, s, req.destination, move, now, faults, movedBefore, before, m, State());
        if m.Some? {
          moved := moved + [m.value];
        }
        i := i + 1;
        assert req.sources[..i] == s;
      }
      assert req.sources[..i] == req.sources;
      return Ok(moved);
    }

    // -------------------------------------------------------------------------
    // Download folder

    /** GET /download-folder: list, collect the folders, write the directory
        and file entries, store the archive. */
    method HandleDownloadFolder(region: string, userId: string, folder: string, faults: Faults)
      returns (reply: Reply<Archive>)
      modifies this
      ensures (reply, State()) == DownloadFolder(old(State()), buckets, region, userId, folder, faults)
    {
      if region == "" || userId == "" || folder == "" {
        return Fail(400);
      }
      if region !in buckets {
        return Fail(404);
      }
      var bucket := buckets[region];
      var root := UserRoot(userId);
      var keys := Listed(objects, bucket, root + StripChar(folder, '/') + "/");
      var folders := CollectFolders(keys, root);
      if keys == {} && folders == {} {
        return Fail(404);
      }
      var dirs := DirEntries(folders, root);
      var files := FileEntries(keys, root, faults);
      if files.None? {
        return Fail(500);
      }
      var zipKey := ZipKey(userId, folder);
      if zipKey in faults.objects {
        return Fail(500);
      }
      objects := objects + {StoredObject(bucket, zipKey)};
      return Ok(Archive(dirs, files.value, zipKey));
    }
  }
}
