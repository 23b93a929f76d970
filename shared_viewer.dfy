/** The public shared-folder viewer: the breadcrumb trail computed from the
    `key` query parameter, and where a click on a listed folder or on a crumb
    takes the page. A missing `key` parameter reads as the empty key, so the
    page without a query string is the same as `key = ""`. */
module SharedViewer {
  import opened Text

  /** One breadcrumb: the key it opens and the label it shows. */
  datatype Crumb = Crumb(id: string, name: string)

  /** An entry of the shared listing, as far as clicks look at it. */
  datatype Entry = Entry(fileName: string, fileType: string)

  /** Where the page goes: nowhere, or to the viewer for the given key (the
      empty key is the viewer without a query string). */
  datatype Nav = Stay | Open(key: string)

  // ---------------------------------------------------------------------------
  // Path segments

  /** `parts.filter(Boolean)`: the non-empty strings, in order. */
  function NonEmpty(parts: seq<string>): (r: seq<string>)
    ensures |r| <= |parts|
    ensures forall x :: x in r <==> x in parts && x != ""
    decreases |parts|
  {
    if parts == [] then []
    else (if parts[0] == "" then [] else [parts[0]]) + NonEmpty(parts[1..])
  }

  /** `key.split("/").filter(Boolean)`. */
  function Parts(key: string): (r: seq<string>)
    ensures forall k :: 0 <= k < |r| ==> r[k] != "" && '/' !in r[k]
  {
    var r := NonEmpty(Split(key, '/'));
    assert forall k :: 0 <= k < |r| ==> r[k] in Split(key, '/');
    r
  }

  /** The key that names the folder whose path segments are `parts`. */
  function FolderKey(parts: seq<string>): (key: string)
    ensures key != "" && EndsWith(key, "/")
  {
    Join(parts, "/") + "/"
  }

  /** The index of the first occurrence of `x`, as `indexOf` finds it. */
  function FirstIndex(s: seq<string>, x: string): (i: nat)
    requires x in s
    ensures i < |s| && s[i] == x && x !in s[..i]
  {
    if s[0] == x then 0
    else
      var j := FirstIndex(s[1..], x);
      assert s[..j + 1] == [s[0]] + s[1..][..j];
      1 + j
  }

  // ---------------------------------------------------------------------------
  // Breadcrumbs

  /** Crumb `i` opens the first `i + 2` segments and is labelled with segment `i + 1`. */
  function CrumbAt(parts: seq<string>, i: nat): Crumb
    requires i + 2 <= |parts|
  {
    Crumb(FolderKey(parts[..i + 2]), parts[i + 1])
  }

  /** The trail for the segments of a path: one crumb per segment after the
      first (the first segment is the sharing user's root and gets no crumb). */
  function Trail(parts: seq<string>): (r: seq<Crumb>)
    ensures |r| == if |parts| <= 1 then 0 else |parts| - 1
  {
    if |parts| <= 1 then []
    else seq(|parts| - 1, i requires 0 <= i < |parts| - 1 => CrumbAt(parts, i))
  }

  /** The trail for a key: nothing for the empty key, otherwise the trail of
      its segments. */
  function Breadcrumbs(key: string): (r: seq<Crumb>)
  {
    if key == "" then [] else Trail(Parts(key))
  }

  /** The effect that recomputes the trail, with its accumulating loop. */
  method ComputeBreadcrumbs(key: string) returns (path: seq<Crumb>)
    ensures path == Breadcrumbs(key)
  {
    if key == "" {
      return [];
    }
    var parts := Parts(key);
    if |parts| <= 1 {
      return [];
    }
    var meaningful := parts[1..];
    path := [];
    for i := 0 to |meaningful|
      invariant |path| == i
      invariant forall j :: 0 <= j < i ==> path[j] == CrumbAt(parts, j)
    {
      var upToHere := Join(parts[..i + 2], "/") + "/";
      path := path + [Crumb(upToHere, meaningful[i])];
    }
  }

  // ---------------------------------------------------------------------------
  // Navigation

  /** A click on a listed entry: non-folders do nothing, folders go where
      `FolderTarget` says for the segments of the key. */
  function FolderClick(key: string, file: Entry): (nav: Nav)
    ensures file.fileType != "folder" ==> nav == Stay
    ensures nav.Open? ==> EndsWith(nav.key, "/")
  {
    if file.fileType != "folder" then Stay
    else FolderTarget(key, Parts(CleanKey(key)), file.fileName)
  }

  /** Where a click on folder `name` leads from `key`, whose segments are
      `keyParts`: nowhere when it is the folder the page is already in; back to
      the first occurrence when it names a segment of the current path; one level
      down below the current key otherwise. */
  function FolderTarget(key: string, keyParts: seq<string>, name: string): (nav: Nav)
    ensures nav.Open? ==> EndsWith(nav.key, "/")
  {
    if |keyParts| > 0 && keyParts[|keyParts| - 1] == name then Stay
    else if name in keyParts then
      var pathToFolder := keyParts[..FirstIndex(keyParts, name) + 1];
      Open(FolderKey([keyParts[0]] + pathToFolder[1..]))
    else if key != "" then Open(key + name + "/")
    else Open(name + "/")
  }

  /** The key without one trailing `/`. */
  function CleanKey(key: string): string {
    if EndsWith(key, "/") then key[..|key| - 1] else key
  }

  /** Two paths compared after giving each a trailing `/`. */
  function Normalized(path: string): (r: string)
    ensures EndsWith(r, "/")
  {
    if EndsWith(path, "/") then path else path + "/"
  }

  /** A click on a crumb (or on the root, with the empty path): no navigation
      when it names the current folder, otherwise open it. */
  function BreadcrumbNavigate(key: string, folderPath: string): (nav: Nav)
    ensures nav == Stay <==> Normalized(key) == Normalized(folderPath)
    ensures nav.Open? ==> nav.key == folderPath
  {
    if Normalized(key) == Normalized(folderPath) then Stay else Open(folderPath)
  }

  // ---------------------------------------------------------------------------
  // Properties

  /** Dropping the empty strings distributes over concatenation. */
  lemma {:induction false} NonEmptyAppend(a: seq<string>, b: seq<string>)
    ensures NonEmpty(a + b) == NonEmpty(a) + NonEmpty(b)
    decreases |a|
  {
    if a == [] {
      assert a + b == b;
    } else {
      assert (a + b)[1..] == a[1..] + b;
      NonEmptyAppend(a[1..], b);
    }
  }

  /** Segments that are all non-empty are kept as they are. */
  lemma {:induction false} NonEmptyKeeps(parts: seq<string>)
    requires forall k :: 0 <= k < |parts| ==> parts[k] != ""
    ensures NonEmpty(parts) == parts
    decreases |parts|
  {
    if parts != [] {
      NonEmptyKeeps(parts[1..]);
    }
  }

  /** The segments of a folder key are the segments it was built from. */
  lemma PartsOfFolderKey(parts: seq<string>)
    requires |parts| >= 1
    requires forall k :: 0 <= k < |parts| ==> parts[k] != "" && '/' !in parts[k]
    ensures Parts(FolderKey(parts)) == parts
  {
    JoinSnoc(parts, "", "/");
    assert Join(parts + [""], "/") == FolderKey(parts);
    SplitJoin(parts + [""], '/');
    NonEmptyAppend(parts, [""]);
    NonEmptyKeeps(parts);
  }

  /** The segments around one `/` are the segments of either side. */
  lemma PartsAround(a: string, b: string)
    ensures Parts(a + "/" + b) == Parts(a) + Parts(b)
  {
    assert a + "/" + b == a + ['/'] + b;
    SplitAround(a, '/', b);
    NonEmptyAppend(Split(a, '/'), Split(b, '/'));
  }

  /** A trailing `/` adds no segment. */
  lemma PartsDropSlash(s: string)
    ensures Parts(s + "/") == Parts(s)
  {
    PartsAround(s, "");
    assert Parts("") == [] by {
      assert Split("", '/') == [""];
    }
    assert s + "/" + "" == s + "/";
  }

  /** A non-empty name without `/` is one segment. */
  lemma PartsOfName(name: string)
    requires name != "" && '/' !in name
    ensures Parts(name) == [name]
  {
    SplitNoSep(name, '/');
  }

  /** Appending `name/` to a key that ends with `/` adds exactly that segment. */
  lemma PartsOfChild(s: string, name: string)
    requires name != "" && '/' !in name
    ensures Parts(s + "/" + name + "/") == Parts(s) + [name]
  {
    assert s + "/" + name + "/" == s + "/" + (name + "/");
    PartsAround(s, name + "/");
    PartsDropSlash(name);
    PartsOfName(name);
  }

  /** Removing the trailing `/` keeps the segments. */
  lemma CleanKeyParts(key: string)
    ensures Parts(CleanKey(key)) == Parts(key)
  {
    if EndsWith(key, "/") {
      var k := key[..|key| - 1];
      assert key == k + "/";
      PartsDropSlash(k);
    }
  }

  /** The trail has one crumb per segment after the first, labelled with those
      segments in order; a key of fewer than two segments has no trail. */
  lemma CrumbsLabelSegments(key: string)
    ensures |Parts(key)| <= 1 ==> Breadcrumbs(key) == []
    ensures |Parts(key)| >= 2 ==>
              |Breadcrumbs(key)| == |Parts(key)| - 1
              && forall i :: 0 <= i < |Breadcrumbs(key)| ==> Breadcrumbs(key)[i].name == Parts(key)[i + 1]
  {
    if key == "" {
      assert Split(key, '/') == [""];
    }
  }

  /** Crumb `i` of a trail. */
  lemma TrailAt(parts: seq<string>, i: nat)
    requires i + 2 <= |parts|
    ensures i < |Trail(parts)| && Trail(parts)[i] == CrumbAt(parts, i)
  {
  }

  /** A non-empty trail belongs to a non-empty key of at least two segments. */
  lemma BreadcrumbsOfKey(key: string)
    requires |Breadcrumbs(key)| >= 1
    ensures key != "" && |Parts(key)| >= 2 && Breadcrumbs(key) == Trail(Parts(key))
  {
  }

  /** Each crumb's key is a proper prefix of the next crumb's key. */
  lemma CrumbIdsNest(key: string, i: nat)
    requires i + 1 < |Breadcrumbs(key)|
    ensures StartsWith(Breadcrumbs(key)[i + 1].id, Breadcrumbs(key)[i].id)
    ensures |Breadcrumbs(key)[i].id| < |Breadcrumbs(key)[i + 1].id|
  {
    BreadcrumbsOfKey(key);
    TrailNests(Parts(key), i);
  }

  /** The trail's ids nest: a proper prefix each time. */
  lemma TrailNests(parts: seq<string>, i: nat)
    requires i + 3 <= |parts|
    ensures StartsWith(Trail(parts)[i + 1].id, Trail(parts)[i].id)
    ensures |Trail(parts)[i].id| < |Trail(parts)[i + 1].id|
  {
    TrailAt(parts, i);
    TrailAt(parts, i + 1);
    assert parts[..i + 3] == parts[..i + 2] + [parts[i + 2]];
    JoinSnoc(parts[..i + 2], parts[i + 2], "/");
  }

  /** The trail of a prefix of the segments is the prefix of the trail. */
  lemma TrailOfPrefix(parts: seq<string>, i: nat)
    requires i + 2 <= |parts|
    ensures Trail(parts[..i + 2]) == Trail(parts)[..i + 1]
  {
    var sub := parts[..i + 2];
    forall j | 0 <= j < i + 1
      ensures Trail(sub)[j] == Trail(parts)[j]
    {
      TrailAt(sub, j);
      TrailAt(parts, j);
      assert sub[..j + 2] == parts[..j + 2];
    }
  }

  /** Opening crumb `i` shows exactly the first `i + 1` crumbs of the current
      trail: crumbs lead back up the same path. */
  lemma CrumbOpensPrefix(key: string, i: nat)
    requires i < |Breadcrumbs(key)|
    ensures Parts(Breadcrumbs(key)[i].id) == Parts(key)[..i + 2]
    ensures Breadcrumbs(Breadcrumbs(key)[i].id) == Breadcrumbs(key)[..i + 1]
  {
    BreadcrumbsOfKey(key);
    var parts := Parts(key);
    TrailAt(parts, i);
    var id := FolderKey(parts[..i + 2]);
    PartsOfFolderKey(parts[..i + 2]);
    assert id != "";
    TrailOfPrefix(parts, i);
  }

  /** On a key built from its segments with a trailing `/`, as every crumb and
      every folder click produces, the last crumb is the current folder, so
      clicking it does not navigate. */
  lemma LastCrumbStays(parts: seq<string>)
    requires |parts| >= 2
    requires forall k :: 0 <= k < |parts| ==> parts[k] != "" && '/' !in parts[k]
    ensures |Breadcrumbs(FolderKey(parts))| == |parts| - 1
    ensures BreadcrumbNavigate(FolderKey(parts), Breadcrumbs(FolderKey(parts))[|parts| - 2].id) == Stay
  {
    var key := FolderKey(parts);
    PartsOfFolderKey(parts);
    assert Breadcrumbs(key) == Trail(parts);
    LastCrumbIsKey(parts);
    assert BreadcrumbNavigate(key, key) == Stay;
  }

  /** The last crumb of a trail opens the whole path. */
  lemma LastCrumbIsKey(parts: seq<string>)
    requires |parts| >= 2
    ensures Trail(parts)[|parts| - 2] == Crumb(FolderKey(parts), parts[|parts| - 1])
  {
    TrailAt(parts, |parts| - 2);
    assert parts[..|parts|] == parts;
  }

  /** A folder named like the last segment does not navigate. */
  lemma ClickCurrentFolderStays(key: string, name: string)
    requires |Parts(key)| >= 1 && Parts(key)[|Parts(key)| - 1] == name
    ensures FolderClick(key, Entry(name, "folder")) == Stay
  {
    CleanKeyParts(key);
  }

  /** Going back rebuilds the path up to the first occurrence of the name. */
  lemma TargetAncestor(key: string, keyParts: seq<string>, name: string)
    requires name in keyParts && keyParts[|keyParts| - 1] != name
    ensures FolderTarget(key, keyParts, name) == Open(FolderKey(keyParts[..FirstIndex(keyParts, name) + 1]))
  {
    var path := keyParts[..FirstIndex(keyParts, name) + 1];
    assert [keyParts[0]] + path[1..] == path;
  }

  /** A folder named like an earlier segment goes back to that segment's first
      occurrence: the new key is the path up to there, and its segments are
      exactly those. */
  lemma ClickAncestorGoesBack(key: string, name: string)
    requires name in Parts(key)
    requires Parts(key)[|Parts(key)| - 1] != name
    ensures FolderClick(key, Entry(name, "folder"))
         == Open(FolderKey(Parts(key)[..FirstIndex(Parts(key), name) + 1]))
    ensures Parts(FolderClick(key, Entry(name, "folder")).key)
         == Parts(key)[..FirstIndex(Parts(key), name) + 1]
  {
    ClickIsTarget(key, name);
    TargetAncestorParts(key, Parts(key), name);
  }

  /** A click on a folder goes where the segments of the key itself send it. */
  lemma ClickIsTarget(key: string, name: string)
    ensures FolderClick(key, Entry(name, "folder")) == FolderTarget(key, Parts(key), name)
  {
    CleanKeyParts(key);
  }

  /** Going back leads to a key whose segments are the path up to the first
      occurrence of the name. */
  lemma TargetAncestorParts(key: string, keyParts: seq<string>, name: string)
    requires name in keyParts && keyParts[|keyParts| - 1] != name
    requires forall k :: 0 <= k < |keyParts| ==> keyParts[k] != "" && '/' !in keyParts[k]
    ensures FolderTarget(key, keyParts, name) == Open(FolderKey(keyParts[..FirstIndex(keyParts, name) + 1]))
    ensures Parts(FolderKey(keyParts[..FirstIndex(keyParts, name) + 1])) == keyParts[..FirstIndex(keyParts, name) + 1]
  {
    TargetAncestor(key, keyParts, name);
    PartsOfFolderKey(keyParts[..FirstIndex(keyParts, name) + 1]);
  }

  /** Going back to a segment past the first is the same as clicking its crumb. */
  lemma ClickAncestorIsCrumb(key: string, name: string)
    requires key != ""
    requires name in Parts(key)
    requires Parts(key)[|Parts(key)| - 1] != name
    requires FirstIndex(Parts(key), name) >= 1
    ensures FolderClick(key, Entry(name, "folder")) == Open(Breadcrumbs(key)[FirstIndex(Parts(key), name) - 1].id)
  {
    var parts := Parts(key);
    var i := FirstIndex(parts, name);
    ClickIsTarget(key, name);
    TargetAncestor(key, parts, name);
    TrailAt(parts, i - 1);
    assert Breadcrumbs(key)[i - 1].id == FolderKey(parts[..i + 1]);
  }

  /** Any other folder is opened one level down: below a key that ends with `/`
      its segments are the current ones plus its name. */
  lemma ClickNewFolderDescends(key: string, name: string)
    requires name != "" && '/' !in name
    requires EndsWith(key, "/")
    requires name !in Parts(key)
    ensures FolderClick(key, Entry(name, "folder")) == Open(key + name + "/")
    ensures Parts(key + name + "/") == Parts(key) + [name]
  {
    var k := key[..|key| - 1];
    assert key == k + "/";
    CleanKeyParts(key);
    PartsOfChild(k, name);
  }
}
