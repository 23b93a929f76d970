/** What GET /download-folder puts into the archive: a directory entry for every
    folder marker and every ancestor folder of a listed file, and a file entry
    per listed object, all relative to the user root; the archive is stored
    under `{userId}/downloads/`. */
module ArchiveSpec {
  import opened Text
  import opened Wrappers
  import opened StorageModel
  import opened StorageSpec
  import opened MoveSpec

  datatype Archive = Archive(dirs: set<string>, files: set<string>, zipKey: string)

  /** The keys `list_objects_v2` returns for a bucket and prefix (all pages). */
  function Listed(objects: set<StoredObject>, bucket: string, prefix: string): (keys: set<string>)
    ensures forall k :: k in keys <==> StoredObject(bucket, k) in objects && StartsWith(k, prefix)
  {
    set o | o in objects && o.bucket == bucket && StartsWith(o.key, prefix) :: o.key
  }

  /** `path_acc` after the given parts: each part followed by `/`. */
  function PathOf(parts: seq<string>): (p: string)
    ensures parts != [] ==> EndsWith(p, "/")
    decreases |parts|
  {
    if parts == [] then "" else PathOf(parts[..|parts| - 1]) + parts[|parts| - 1] + "/"
  }

  /** The components of a key below the user root. */
  function RelParts(root: string, k: string): seq<string> {
    Split(DropPrefix(k, |root|), '/')
  }

  /** The path of the first `n` components. */
  function PathTo(parts: seq<string>, n: nat): string
    requires n <= |parts|
  {
    PathOf(parts[..n])
  }

  /** The folders a file contributes: the root followed by the path of each
      proper non-empty prefix of its components. */
  function Ancestors(root: string, k: string): set<string> {
    var parts := RelParts(root, k);
    set n | 1 <= n < |parts| :: root + PathTo(parts, n)
  }

  /** The ancestors of every listed file. */
  function AncestorFolders(keys: set<string>, root: string): set<string> {
    set d, k | k in keys && !EndsWith(k, "/") && d in Ancestors(root, k) :: d
  }

  /** The folder set: every listed marker and every listed file's ancestors. */
  function FolderSet(keys: set<string>, root: string): set<string> {
    (set k | k in keys && EndsWith(k, "/")) + AncestorFolders(keys, root)
  }

  /** A directory entry: the path below the user root, with a trailing `/`. */
  function DirEntry(root: string, f: string): (e: string)
    ensures EndsWith(e, "/")
  {
    var rel := DropPrefix(f, |root|);
    if EndsWith(rel, "/") then rel else rel + "/"
  }

  /** `s.replace('/', '_')`. */
  function SlashesToUnderscores(s: string): (r: string)
    ensures |r| == |s| && '/' !in r
    ensures forall i :: 0 <= i < |s| ==> r[i] == if s[i] == '/' then '_' else s[i]
  {
    seq(|s|, i requires 0 <= i < |s| => if s[i] == '/' then '_' else s[i])
  }

  /** `{userId}/downloads/{folder.strip('/').replace('/', '_')}.zip`. */
  function ZipKey(userId: string, folder: string): string {
    userId + "/downloads/" + SlashesToUnderscores(StripChar(folder, '/')) + ".zip"
  }

  /** The archive for the listed keys. */
  function ArchiveOf(keys: set<string>, root: string, zipKey: string): Archive {
    Archive(set f | f in FolderSet(keys, root) :: DirEntry(root, f),
            set k | k in keys && !EndsWith(k, "/") :: DropPrefix(k, |root|),
            zipKey)
  }

  /** GET /download-folder: list the objects under the folder, fail with 404 when
      there are none and with 500 when a download or the archive upload fails,
      otherwise store the archive. */
  function DownloadFolder(t: Tables, buckets: map<string, string>, region: string, userId: string,
                          folder: string, faults: Faults): (Reply<Archive>, Tables)
  {
    if region == "" || userId == "" || folder == "" then (Fail(400), t)
    else if region !in buckets then (Fail(404), t)
    else
      var bucket := buckets[region];
      var root := UserRoot(userId);
      var keys := Listed(t.objects, bucket, root + StripChar(folder, '/') + "/");
      var zipKey := ZipKey(userId, folder);
      if keys == {} then (Fail(404), t)
      else if exists k :: k in keys && !EndsWith(k, "/") && k in faults.objects then (Fail(500), t)
      else if zipKey in faults.objects then (Fail(500), t)
      else (Ok(ArchiveOf(keys, root, zipKey)), t.(objects := t.objects + {StoredObject(bucket, zipKey)}))
  }

  // ---------------------------------------------------------------------------
  // Properties

  /** PathOf of one more part extends the path. */
  lemma PathOfSnoc(parts: seq<string>, p: string)
    ensures PathOf(parts + [p]) == PathOf(parts) + p + "/"
  {
    assert (parts + [p])[..|parts|] == parts;
  }

  /** Every file entry comes with a directory entry for each of its ancestor
      folders, so the archive never holds a file without its parent folders. */
  lemma ArchiveHasParents(keys: set<string>, root: string, zipKey: string, k: string, n: nat)
    requires k in keys && !EndsWith(k, "/")
    requires 1 <= n < |RelParts(root, k)|
    ensures PathTo(RelParts(root, k), n) in ArchiveOf(keys, root, zipKey).dirs
  {
    var parts := RelParts(root, k);
    var d := root + PathTo(parts, n);
    assert d in Ancestors(root, k);
    assert d in FolderSet(keys, root);
    var rel := PathTo(parts, n);
    assert DropPrefix(d, |root|) == rel by {
      assert d[|root|..] == rel;
    }
    assert DirEntry(root, d) == rel;
  }

  /** File entries keep the path below the user root: when every listed key
      starts with `root + rest`, every file entry starts with `rest`. */
  lemma ArchiveFilesBelowRoot(keys: set<string>, root: string, rest: string, zipKey: string, e: string)
    requires forall k :: k in keys ==> StartsWith(k, root + rest)
    requires e in ArchiveOf(keys, root, zipKey).files
    ensures StartsWith(e, rest)
  {
    var k :| k in keys && !EndsWith(k, "/") && e == DropPrefix(k, |root|);
    var prefix := root + rest;
    assert k[..|prefix|] == prefix;
    assert e[..|rest|] == k[|root|..|prefix|];
    assert prefix[|root|..] == rest;
  }

  /** The entries are relative to the user root, not to the requested folder:
      every file entry starts with the folder's own path. */
  lemma EntriesIncludeFolderPath(t: Tables, buckets: map<string, string>, region: string, userId: string,
                                 folder: string, faults: Faults, e: string)
    requires DownloadFolder(t, buckets, region, userId, folder, faults).0.Ok?
    requires e in DownloadFolder(t, buckets, region, userId, folder, faults).0.value.files
    ensures StartsWith(e, StripChar(folder, '/') + "/")
  {
    var root := UserRoot(userId);
    var rest := StripChar(folder, '/') + "/";
    assert root + StripChar(folder, '/') + "/" == root + rest;
    var keys := Listed(t.objects, buckets[region], root + rest);
    ArchiveFilesBelowRoot(keys, root, rest, ZipKey(userId, folder), e);
  }

  /** A successful download-folder stores exactly one new object, the archive,
      under `{userId}/downloads/` with a name free of `/`; no record changes. */
  lemma DownloadFolderWritesArchiveOnly(t: Tables, buckets: map<string, string>, region: string, userId: string,
                                        folder: string, faults: Faults)
    ensures var (reply, t') := DownloadFolder(t, buckets, region, userId, folder, faults);
            && t'.meta == t.meta
            && (reply.Ok? ==>
                  && t'.objects == t.objects + {StoredObject(buckets[region], reply.value.zipKey)}
                  && StartsWith(reply.value.zipKey, userId + "/downloads/")
                  && EndsWith(reply.value.zipKey, ".zip")
                  && '/' !in reply.value.zipKey[|userId + "/downloads/"|..|reply.value.zipKey| - 4])
            && (reply.Fail? ==> t' == t)
  {
    var (reply, t') := DownloadFolder(t, buckets, region, userId, folder, faults);
    if reply.Ok? {
      var z := ZipKey(userId, folder);
      var head := userId + "/downloads/";
      var name := SlashesToUnderscores(StripChar(folder, '/'));
      assert z == head + name + ".zip";
      assert z[|head|..|z| - 4] == name;
    }
  }
}
