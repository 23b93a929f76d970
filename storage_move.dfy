/** What POST /move and POST /copy do to the two stores. Each source is either a
    file, copied under the first free name in the destination folder, or a
    folder, whose records are copied one by one under
    `{userId}/uploads/{destination}/{source}/` and, for a move, deleted after
    all copies. */
module MoveSpec {
  import opened Text
  import opened Naming
  import opened Wrappers
  import opened StorageModel
  import opened StorageSpec

  datatype MoveRequest = MoveRequest(region: string, userId: string, sources: seq<string>, destination: string)

  /** `{userId}/uploads/{destination.strip('/')}/`. */
  function DestPrefix(userId: string, destination: string): string {
    UserRoot(userId) + StripChar(destination, '/') + "/"
  }

  /** The record a copy writes: the original with a new id, name and time. */
  function CopiedRecord(r: FileRecord, id: string, name: string, now: string): FileRecord {
    r.(id := id, fileName := name, createdAt := now)
  }

  // ---------------------------------------------------------------------------
  // A file source

  /** The base name and `.ext` of the source's last path segment. */
  function FileParts(source: string): (string, string) {
    var (base, ext) := SplitExt(LastSegment(source, '/'));
    (base, DotExt(ext))
  }

  /** The counter of the destination name: the least n >= 0 whose candidate is
      not a metadata key. */
  function FileDestCounter(meta: map<string, FileRecord>, userId: string, source: string, destination: string): (n: nat)
    ensures IsFirstFree(meta.Keys, DestPrefix(userId, destination), FileParts(source).0, FileParts(source).1, 0, n)
  {
    FirstFree(meta.Keys, DestPrefix(userId, destination), FileParts(source).0, FileParts(source).1, 0, 0)
  }

  /** One file source: copy the object, write the copied record when the source
      has one, and for a move delete the source object and record. The name is
      returned when the copy was listed in movedFiles; a failed call skips the
      rest of this source. A copy onto the source key itself (possible only for
      an object without a record moved into its own folder) is refused by the
      object store, so it fails like any other copy. */
  function MoveFile(t: Tables, bucket: string, userId: string, source: string, destination: string,
                    move: bool, now: string, faults: Faults): (Option<string>, Tables)
  {
    var key := UserRoot(userId) + source;
    var (base, dotExt) := FileParts(source);
    var n := FileDestCounter(t.meta, userId, source, destination);
    var destFile := Suffixed(base, dotExt, n);
    var destKey := DestPrefix(userId, destination) + destFile;
    if StoredObject(bucket, key) !in t.objects || key in faults.objects || destKey == key then (None, t)
    else
      var t1 := t.(objects := t.objects + {StoredObject(bucket, destKey)});
      if key in t.meta && destKey in faults.meta then (None, t1)
      else
        var t2 := if key in t.meta then t1.(meta := t1.meta[destKey := CopiedRecord(t.meta[key], destKey, destFile, now)])
                  else t1;
        if !move then (Some(destFile), t2)
        else
          var t3 := t2.(objects := t2.objects - {StoredObject(bucket, key)});
          if key in faults.meta then (None, t3)
          else (Some(destFile), t3.(meta := t3.meta - {key}))
  }

  // ---------------------------------------------------------------------------
  // A folder source

  /** `{userId}/uploads/{destination.strip('/')}/{source.strip('/')}/`. */
  function FolderDestPrefix(userId: string, source: string, destination: string): string {
    DestPrefix(userId, destination) + StripChar(source, '/') + "/"
  }

  /** `dest_key.split('/')[-2 if dest_key.endswith('/') else -1]`. */
  function CopyName(d: string): string {
    var parts := Split(d, '/');
    if EndsWith(d, "/") then
      assert d[|d| - 1] == '/';
      parts[|parts| - 2]
    else parts[|parts| - 1]
  }

  /** The scanned records whose object copy succeeds: the object exists in the
      bucket and the call does not fail. */
  function Copyable(t: Tables, bucket: string, items: set<string>, faults: Faults): set<string> {
    set k | k in items && StoredObject(bucket, k) in t.objects && k !in faults.objects
  }

  /** The copy destination of a scanned key. */
  function DestOf(dp: string, sourceKey: string, k: string): string {
    dp + DropPrefix(k, |sourceKey|)
  }

  /** The scanned key a destination key was copied from. */
  function SourceOf(dp: string, sourceKey: string, d: string): string {
    sourceKey + DropPrefix(d, |dp|)
  }

  /** The destination keys of the copied keys. */
  function Dests(dp: string, sourceKey: string, copied: set<string>): set<string> {
    set k | k in copied :: DestOf(dp, sourceKey, k)
  }

  /** The stores after the keys in `copied` have had their object and record
      copied under `dp`. */
  function CopyEach(t: Tables, bucket: string, dp: string, sourceKey: string, copied: set<string>,
                    now: string): Tables
  {
    var dests := Dests(dp, sourceKey, copied);
    Tables(
      map d | d in t.meta.Keys + dests ::
        if d in dests then CopiedRecord(Current(t.meta, SourceOf(dp, sourceKey, d)), d, CopyName(d), now)
        else t.meta[d],
      t.objects + ObjectsOf(bucket, dests))
  }

  /** The copy phase: every copyable record's object and record are copied. */
  function CopyFolder(t: Tables, bucket: string, userId: string, source: string, destination: string,
                      sourceKey: string, now: string, faults: Faults): Tables
  {
    CopyEach(t, bucket, FolderDestPrefix(userId, source, destination), sourceKey,
             Copyable(t, bucket, Scan(t.meta, sourceKey), faults), now)
  }

  /** The delete phase of a move: per scanned key the object delete and then the
      record delete, both skipped once the object delete fails. */
  function RemoveOriginals(t: Tables, bucket: string, items: set<string>, faults: Faults): (r: Tables)
    ensures r.meta.Keys == t.meta.Keys - (items - faults.objects - faults.meta)
    ensures r.objects == t.objects - ObjectsOf(bucket, items - faults.objects)
  {
    RemoveKeys(t, bucket, items - faults.objects, faults)
  }

  function MoveFolder(t: Tables, bucket: string, userId: string, source: string, destination: string,
                      sourceKey: string, move: bool, now: string, faults: Faults): Tables
  {
    var t1 := CopyFolder(t, bucket, userId, source, destination, sourceKey, now, faults);
    if move then RemoveOriginals(t1, bucket, Scan(t.meta, sourceKey), faults) else t1
  }

  // ---------------------------------------------------------------------------
  // The handler

  /** One source: a folder when its key (after the metadata check) ends in `/`;
      a folder source is always listed in movedFiles, under its own name. */
  function MoveOne(t: Tables, bucket: string, userId: string, source: string, destination: string,
                   move: bool, now: string, faults: Faults): (Option<string>, Tables)
  {
    var sourceKey := MoveSourceKey(t.meta, userId, source);
    if EndsWith(sourceKey, "/") then
      (Some(source), MoveFolder(t, bucket, userId, source, destination, sourceKey, move, now, faults))
    else MoveFile(t, bucket, userId, source, destination, move, now, faults)
  }

  /** The sources in order, each seeing the stores the earlier ones left; the
      names listed so far are extended by each source's name, if any. */
  function MoveAll(t: Tables, bucket: string, userId: string, sources: seq<string>, destination: string,
                   move: bool, now: string, faults: Faults): (seq<string>, Tables)
    decreases |sources|
  {
    if sources == [] then ([], t)
    else
      var (moved, t1) := MoveAll(t, bucket, userId, sources[..|sources| - 1], destination, move, now, faults);
      var (m, t2) := MoveOne(t1, bucket, userId, sources[|sources| - 1], destination, move, now, faults);
      (moved + (if m.Some? then [m.value] else []), t2)
  }

  /** POST /move (move) and POST /copy (not move). */
  function MoveOrCopy(t: Tables, buckets: map<string, string>, req: MoveRequest, move: bool, now: string,
                      faults: Faults): (Reply<seq<string>>, Tables)
  {
    if req.region == "" || req.userId == "" || req.sources == [] || req.destination == "" then (Fail(400), t)
    else if req.region !in buckets then (Fail(404), t)
    else
      var (moved, t') := MoveAll(t, buckets[req.region], req.userId, req.sources, req.destination, move, now, faults);
      (Ok(moved), t')
  }

  // ---------------------------------------------------------------------------
  // Properties

  /** The destination of a file is the first free name among `base.ext`,
      `base (1).ext`, `base (2).ext`, ... in the destination folder. */
  lemma FileDestinationFree(t: Tables, userId: string, source: string, destination: string)
    ensures var (base, dotExt) := FileParts(source);
            var n := FileDestCounter(t.meta, userId, source, destination);
            && DestPrefix(userId, destination) + Suffixed(base, dotExt, n) !in t.meta
            && (forall m :: 0 <= m < n ==> DestPrefix(userId, destination) + Suffixed(base, dotExt, m) in t.meta)
            && (DestPrefix(userId, destination) + base + dotExt !in t.meta ==> n == 0)
  {
    var (base, dotExt) := FileParts(source);
    var n := FileDestCounter(t.meta, userId, source, destination);
    FirstFreeCandidates(t.meta.Keys, DestPrefix(userId, destination), base, dotExt, n);
  }

  /** A file whose object is missing, whose copy fails, or whose destination is
      its own key is skipped: nothing changes and it is not listed. */
  lemma FileCopyErrorSkips(t: Tables, bucket: string, userId: string, source: string, destination: string,
                           move: bool, now: string, faults: Faults)
    requires || StoredObject(bucket, UserRoot(userId) + source) !in t.objects
             || UserRoot(userId) + source in faults.objects
             || DestPrefix(userId, destination) + Suffixed(FileParts(source).0, FileParts(source).1,
                                                           FileDestCounter(t.meta, userId, source, destination))
                == UserRoot(userId) + source
    ensures MoveFile(t, bucket, userId, source, destination, move, now, faults) == (None, t)
  {
  }

  /** Without faults, a file source with a record is copied: the new record keeps
      every field but id, fileName and createdAt (so its `folder` still names the
      old folder), and a move deletes the source object and record. */
  lemma MoveFileSpec(t: Tables, bucket: string, userId: string, source: string, destination: string,
                     move: bool, now: string)
    requires StoredObject(bucket, UserRoot(userId) + source) in t.objects
    requires UserRoot(userId) + source in t.meta
    ensures var key := UserRoot(userId) + source;
            var (base, dotExt) := FileParts(source);
            var destFile := Suffixed(base, dotExt, FileDestCounter(t.meta, userId, source, destination));
            var destKey := DestPrefix(userId, destination) + destFile;
            var (m, t') := MoveFile(t, bucket, userId, source, destination, move, now, Faults({}, {}));
            && m == Some(destFile)
            && destKey != key
            && destKey in t'.meta
            && t'.meta[destKey] == t.meta[key].(id := destKey, fileName := destFile, createdAt := now)
            && t'.meta[destKey].folder == t.meta[key].folder
            && StoredObject(bucket, destKey) in t'.objects
            && (move ==> key !in t'.meta && StoredObject(bucket, key) !in t'.objects)
            && (move ==> t'.meta == (t.meta - {key})[destKey := t'.meta[destKey]]
                         && t'.objects == (t.objects - {StoredObject(bucket, key)}) + {StoredObject(bucket, destKey)})
            && (!move ==> t'.meta == t.meta[destKey := t'.meta[destKey]] && t'.objects == t.objects + {StoredObject(bucket, destKey)})
  {
    FileDestinationFree(t, userId, source, destination);
  }

  /** A destination key of the folder copy maps back to the scanned key it came
      from, so distinct records never share a destination. */
  lemma SourceOfDestOf(dp: string, sourceKey: string, k: string)
    requires StartsWith(k, sourceKey)
    ensures SourceOf(dp, sourceKey, DestOf(dp, sourceKey, k)) == k
  {
    var rel := k[|sourceKey|..];
    assert DestOf(dp, sourceKey, k) == dp + rel;
    assert (dp + rel)[|dp|..] == rel;
    assert k == sourceKey + rel;
  }

  /** Copying a folder without faults: each scanned record with an object is
      copied to `{dest}/{source}/{rel}`, keeping every field but id, fileName and
      createdAt, with the object copied alongside. */
  lemma CopyFolderSpec(t: Tables, bucket: string, userId: string, source: string, destination: string,
                       sourceKey: string, now: string, k: string)
    requires k in t.meta && StartsWith(k, sourceKey) && StoredObject(bucket, k) in t.objects
    ensures var dp := FolderDestPrefix(userId, source, destination);
            var d := dp + k[|sourceKey|..];
            var t' := CopyFolder(t, bucket, userId, source, destination, sourceKey, now, Faults({}, {}));
            && d in t'.meta
            && t'.meta[d] == t.meta[k].(id := d, fileName := CopyName(d), createdAt := now)
            && StoredObject(bucket, d) in t'.objects
            && k in t'.meta
  {
    var dp := FolderDestPrefix(userId, source, destination);
    var d := DestOf(dp, sourceKey, k);
    SourceOfDestOf(dp, sourceKey, k);
    assert k in Copyable(t, bucket, Scan(t.meta, sourceKey), Faults({}, {}));
  }

  /** The folder copy changes nothing else: a key that is not the destination
      of a scanned record with an object keeps its record (or its absence) and
      its object (or its absence), and no object disappears. */
  lemma CopyFolderFrame(t: Tables, bucket: string, userId: string, source: string, destination: string,
                        sourceKey: string, now: string, d: string)
    requires var dp := FolderDestPrefix(userId, source, destination);
             !StartsWith(d, dp) || SourceOf(dp, sourceKey, d) !in t.meta
             || StoredObject(bucket, SourceOf(dp, sourceKey, d)) !in t.objects
    ensures var t' := CopyFolder(t, bucket, userId, source, destination, sourceKey, now, Faults({}, {}));
            && (d in t'.meta <==> d in t.meta)
            && (d in t.meta ==> t'.meta[d] == t.meta[d])
            && (StoredObject(bucket, d) in t'.objects <==> StoredObject(bucket, d) in t.objects)
            && t.objects <= t'.objects
  {
    var dp := FolderDestPrefix(userId, source, destination);
    var ok := Copyable(t, bucket, Scan(t.meta, sourceKey), Faults({}, {}));
    forall k | k in ok
      ensures DestOf(dp, sourceKey, k) != d
    {
      SourceOfDestOf(dp, sourceKey, k);
    }
    assert d !in Dests(dp, sourceKey, ok);
  }

  /** A scanned record without an object is not copied: its destination key
      keeps whatever it had before. */
  lemma CopyFolderSkipsObjectless(t: Tables, bucket: string, userId: string, source: string,
                                  destination: string, sourceKey: string, now: string, k: string)
    requires k in t.meta && StartsWith(k, sourceKey) && StoredObject(bucket, k) !in t.objects
    ensures var d := FolderDestPrefix(userId, source, destination) + k[|sourceKey|..];
            var t' := CopyFolder(t, bucket, userId, source, destination, sourceKey, now, Faults({}, {}));
            && (d in t'.meta <==> d in t.meta)
            && (d in t.meta ==> t'.meta[d] == t.meta[d])
            && (StoredObject(bucket, d) in t'.objects <==> StoredObject(bucket, d) in t.objects)
  {
    var dp := FolderDestPrefix(userId, source, destination);
    SourceOfDestOf(dp, sourceKey, k);
    CopyFolderFrame(t, bucket, userId, source, destination, sourceKey, now, DestOf(dp, sourceKey, k));
  }

  /** Moving a folder deletes every scanned original whose deletes do not fail,
      including one whose copy failed; such a record then exists nowhere. */
  lemma MoveFolderLosesUncopied(t: Tables, bucket: string, userId: string, source: string, destination: string,
                                sourceKey: string, now: string, faults: Faults, k: string)
    requires k in t.meta && StartsWith(k, sourceKey)
    requires k !in faults.objects && k !in faults.meta
    ensures k !in MoveFolder(t, bucket, userId, source, destination, sourceKey, true, now, faults).meta
    ensures var d := FolderDestPrefix(userId, source, destination) + k[|sourceKey|..];
            StoredObject(bucket, k) !in t.objects && d !in t.meta && d !in Scan(t.meta, sourceKey) ==>
              d !in MoveFolder(t, bucket, userId, source, destination, sourceKey, true, now, faults).meta
  {
    var dp := FolderDestPrefix(userId, source, destination);
    var d := DestOf(dp, sourceKey, k);
    var ok := Copyable(t, bucket, Scan(t.meta, sourceKey), faults);
    if StoredObject(bucket, k) !in t.objects && d !in t.meta {
      if d in Dests(dp, sourceKey, ok) {
        var k' :| k' in ok && DestOf(dp, sourceKey, k') == d;
        SourceOfDestOf(dp, sourceKey, k');
        SourceOfDestOf(dp, sourceKey, k);
      }
    }
  }

  /** Every source adds at most one name to movedFiles. */
  lemma {:induction false} MovedListBound(t: Tables, bucket: string, userId: string, sources: seq<string>,
                                         destination: string, move: bool, now: string, faults: Faults)
    ensures |MoveAll(t, bucket, userId, sources, destination, move, now, faults).0| <= |sources|
    decreases |sources|
  {
    if sources != [] {
      MovedListBound(t, bucket, userId, sources[..|sources| - 1], destination, move, now, faults);
    }
  }
}
