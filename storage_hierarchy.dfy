/** The folder hierarchy handler: the folder records of one region are merged
    into a tree of named nodes, one root-to-node chain per record, sharing the
    nodes of common ancestors. */
module Hierarchy {
  import opened Text
  import opened Wrappers
  import opened StorageModel
  import opened Listing

  /** A tree node; the children keep the insertion order of the dict they
      come from, and their names are unique. */
  datatype Node = Node(name: string, path: string, children: seq<Node>)

  datatype HierarchyResult = Folders(forest: seq<Node>) | HierarchyError(status: int)

  /** The path components of a folder record below the user root. */
  function Parts(id: string, base: string): (parts: seq<string>)
    ensures |parts| >= 1
  {
    Split(StripChar(DropPrefix(id, |base|), '/'), '/')
  }

  /** The position of the sibling called `name`, or |forest| when there is none. */
  function IndexOfName(forest: seq<Node>, name: string): (i: nat)
    ensures i <= |forest|
    ensures i < |forest| ==> forest[i].name == name
    ensures forall j :: 0 <= j < i ==> forest[j].name != name
  {
    if forest == [] then 0
    else if forest[0].name == name then 0
    else 1 + IndexOfName(forest[1..], name)
  }

  /** One pass of the inner loop: walk `parts` down from `forest`, creating each
      missing node with path `acc + part + "/"`. */
  function InsertChain(forest: seq<Node>, parts: seq<string>, acc: string): (r: seq<Node>)
    ensures |forest| <= |r|
    decreases |parts|
  {
    if parts == [] then forest
    else
      var p := parts[0];
      var path := acc + p + "/";
      var i := IndexOfName(forest, p);
      if i == |forest| then forest + [Node(p, path, InsertChain([], parts[1..], path))]
      else forest[i := Node(forest[i].name, forest[i].path, InsertChain(forest[i].children, parts[1..], path))]
  }

  /** Sibling names are unique. */
  predicate UniqueNames(forest: seq<Node>) {
    forall i, j :: 0 <= i < j < |forest| ==> forest[i].name != forest[j].name
  }

  /** Unique names at every level, and every node's path is its parent's path
      followed by its own name and `/`. */
  predicate WellFormed(forest: seq<Node>, acc: string)
    decreases forest
  {
    && UniqueNames(forest)
    && forall i :: 0 <= i < |forest| ==>
         && forest[i].path == acc + forest[i].name + "/"
         && WellFormed(forest[i].children, forest[i].path)
  }

  /** The names along `c` form a root-to-node chain of the forest. */
  predicate HasChain(forest: seq<Node>, c: seq<string>)
    decreases |c|
  {
    c == [] || exists i :: 0 <= i < |forest| && forest[i].name == c[0] && HasChain(forest[i].children, c[1..])
  }

  /** Inserting a chain keeps the forest well formed. */
  lemma {:induction false} InsertChainWellFormed(forest: seq<Node>, parts: seq<string>, acc: string)
    requires WellFormed(forest, acc)
    ensures WellFormed(InsertChain(forest, parts, acc), acc)
    decreases |parts|
  {
    if parts != [] {
      var p := parts[0];
      var path := acc + p + "/";
      var i := IndexOfName(forest, p);
      if i == |forest| {
        InsertChainWellFormed([], parts[1..], path);
      } else {
        InsertChainWellFormed(forest[i].children, parts[1..], path);
      }
    }
  }

  /** After inserting `parts`, the chains are the old ones plus every prefix of
      `parts`: intermediate nodes are created, and nothing else appears. */
  lemma {:induction false} InsertChainChains(forest: seq<Node>, parts: seq<string>, acc: string, c: seq<string>)
    requires WellFormed(forest, acc)
    ensures HasChain(InsertChain(forest, parts, acc), c) <==> HasChain(forest, c) || c <= parts
    decreases |parts|
  {
    if parts != [] && c != [] {
      var p := parts[0];
      var path := acc + p + "/";
      var i := IndexOfName(forest, p);
      PrefixCons(c, parts);
      if i == |forest| {
        var node := Node(p, path, InsertChain([], parts[1..], path));
        ChainsAppended(forest, node, c);
        if c[0] == p {
          InsertChainChains([], parts[1..], path, c[1..]);
          NoChainWithoutName(forest, c);
        }
      } else {
        var node := Node(forest[i].name, forest[i].path, InsertChain(forest[i].children, parts[1..], path));
        ChainsReplaced(forest, i, node, c);
        if c[0] == p {
          InsertChainChains(forest[i].children, parts[1..], path, c[1..]);
        }
      }
    }
  }

  /** A non-empty sequence is a prefix of another exactly when the heads agree
      and the tails are prefixes. */
  lemma PrefixCons<T>(c: seq<T>, s: seq<T>)
    requires c != [] && s != []
    ensures c <= s <==> c[0] == s[0] && c[1..] <= s[1..]
  {
    if c[0] == s[0] && c[1..] <= s[1..] {
      assert c == [c[0]] + c[1..] && s == [s[0]] + s[1..];
    }
  }

  /** No chain starts with a name no root carries. */
  lemma NoChainWithoutName(forest: seq<Node>, c: seq<string>)
    requires c != []
    requires forall j :: 0 <= j < |forest| ==> forest[j].name != c[0]
    ensures !HasChain(forest, c)
  {
  }

  /** The chains of a forest with one more root. */
  lemma ChainsAppended(forest: seq<Node>, node: Node, c: seq<string>)
    requires c != []
    ensures HasChain(forest + [node], c)
            <==> HasChain(forest, c) || (node.name == c[0] && HasChain(node.children, c[1..]))
  {
    var r := forest + [node];
    if HasChain(r, c) {
      var k :| 0 <= k < |r| && r[k].name == c[0] && HasChain(r[k].children, c[1..]);
      if k < |forest| {
        assert r[k] == forest[k];
      }
    }
    if HasChain(forest, c) {
      var k :| 0 <= k < |forest| && forest[k].name == c[0] && HasChain(forest[k].children, c[1..]);
      assert r[k] == forest[k];
    }
    if node.name == c[0] && HasChain(node.children, c[1..]) {
      assert r[|forest|] == node;
    }
  }

  /** The chains of a forest whose `i`-th root is replaced by a node of the
      same name: through that name they are the new node's, otherwise the old
      ones. */
  lemma ChainsReplaced(forest: seq<Node>, i: nat, node: Node, c: seq<string>)
    requires i < |forest| && node.name == forest[i].name && UniqueNames(forest) && c != []
    ensures HasChain(forest[i := node], c)
            <==> if c[0] == node.name then HasChain(node.children, c[1..]) else HasChain(forest, c)
  {
    var r := forest[i := node];
    if HasChain(r, c) {
      var k :| 0 <= k < |r| && r[k].name == c[0] && HasChain(r[k].children, c[1..]);
      if k != i {
        assert r[k] == forest[k];
      }
    }
    if HasChain(forest, c) {
      var k :| 0 <= k < |forest| && forest[k].name == c[0] && HasChain(forest[k].children, c[1..]);
      if k != i {
        assert r[k] == forest[k];
      }
    }
    if c[0] == node.name && HasChain(node.children, c[1..]) {
      assert r[i] == node;
    }
  }

  /** Folder records of the requested region are the only ones in the tree. */
  predicate InHierarchy(f: FileRecord, region: string) {
    f.region == region && f.fileType == FolderType
  }

  /** The tree after the loop has run over `folders` in order. */
  function Build(folders: seq<FileRecord>, base: string): seq<Node>
    decreases |folders|
  {
    if folders == [] then []
    else
      var last := folders[|folders| - 1];
      InsertChain(Build(folders[..|folders| - 1], base), Parts(last.id, base), base)
  }

  /** The specification of the hierarchy handler. */
  function HierarchyOf(items: seq<FileRecord>, region: string, userId: string): HierarchyResult {
    if region == "" || userId == "" then HierarchyError(400)
    else if items == [] then HierarchyError(404)
    else Folders(Build(Filter(items, (f: FileRecord) => InHierarchy(f, region)), UserRoot(userId)))
  }

  /** GET /hierarchy over the records the userId query returned: filter the
      folder records, then merge each one's path into the tree. */
  method HandleHierarchy(items: seq<FileRecord>, region: string, userId: string) returns (res: HierarchyResult)
    ensures res == HierarchyOf(items, region, userId)
  {
    if region == "" || userId == "" {
      return HierarchyError(400);
    }
    if items == [] {
      return HierarchyError(404);
    }
    var folders := Filter(items, (f: FileRecord) => InHierarchy(f, region));
    var base := UserRoot(userId);
    var tree: seq<Node> := [];
    var k := 0;
    while k < |folders|
      invariant 0 <= k <= |folders|
      invariant tree == Build(folders[..k], base)
    {
      BuildSnoc(folders, base, k);
      tree := InsertChain(tree, Parts(folders[k].id, base), base);
      k := k + 1;
    }
    assert folders[..k] == folders;
    return Folders(tree);
  }

  /** One more turn of the handler's loop. */
  lemma BuildSnoc(folders: seq<FileRecord>, base: string, k: nat)
    requires k < |folders|
    ensures Build(folders[..k + 1], base) == InsertChain(Build(folders[..k], base), Parts(folders[k].id, base), base)
  {
    assert folders[..k + 1][..k] == folders[..k];
  }

  /** The paths of the records below `base`, in order. */
  function PathsOf(folders: seq<FileRecord>, base: string): (ps: seq<seq<string>>)
    ensures |ps| == |folders|
    ensures forall j :: 0 <= j < |folders| ==> ps[j] == Parts(folders[j].id, base)
  {
    seq(|folders|, j requires 0 <= j < |folders| => Parts(folders[j].id, base))
  }

  /** `c` is a prefix of one of the paths. */
  predicate PrefixOfAny(ps: seq<seq<string>>, c: seq<string>) {
    exists j :: 0 <= j < |ps| && c <= ps[j]
  }

  /** `c` is a prefix of the path of one of the records. */
  predicate PrefixOfSome(folders: seq<FileRecord>, base: string, c: seq<string>) {
    PrefixOfAny(PathsOf(folders, base), c)
  }

  /** The built tree is well formed. */
  lemma {:induction false} BuildWellFormed(folders: seq<FileRecord>, base: string)
    ensures WellFormed(Build(folders, base), base)
    decreases |folders|
  {
    if folders != [] {
      var init := folders[..|folders| - 1];
      BuildWellFormed(init, base);
      InsertChainWellFormed(Build(init, base), Parts(folders[|folders| - 1].id, base), base);
    }
  }

  lemma PrefixOfSomeSnoc(folders: seq<FileRecord>, base: string, c: seq<string>)
    requires folders != []
    ensures PrefixOfSome(folders, base, c) <==>
            PrefixOfSome(folders[..|folders| - 1], base, c) || c <= Parts(folders[|folders| - 1].id, base)
  {
    var init := folders[..|folders| - 1];
    var last := Parts(folders[|folders| - 1].id, base);
    assert PathsOf(folders, base) == PathsOf(init, base) + [last];
    PrefixOfAnySnoc(PathsOf(init, base), last, c);
  }

  /** One more path: a prefix of it, or of an earlier one. */
  lemma PrefixOfAnySnoc(ps: seq<seq<string>>, p: seq<string>, c: seq<string>)
    ensures PrefixOfAny(ps + [p], c) <==> PrefixOfAny(ps, c) || c <= p
  {
    if PrefixOfAny(ps, c) {
      var j :| 0 <= j < |ps| && c <= ps[j];
      assert (ps + [p])[j] == ps[j];
    }
    if PrefixOfAny(ps + [p], c) {
      var j :| 0 <= j < |ps| + 1 && c <= (ps + [p])[j];
      if j < |ps| {
        assert (ps + [p])[j] == ps[j];
      }
    }
    assert c <= p ==> c <= (ps + [p])[|ps|];
  }

  /** The chains of the built tree are exactly the prefixes of the records'
      paths. */
  lemma {:induction false} BuildChains(folders: seq<FileRecord>, base: string, c: seq<string>)
    ensures HasChain(Build(folders, base), c) <==> c == [] || PrefixOfSome(folders, base, c)
    decreases |folders|
  {
    if folders != [] {
      var init := folders[..|folders| - 1];
      BuildChains(init, base, c);
      BuildWellFormed(init, base);
      InsertChainChains(Build(init, base), Parts(folders[|folders| - 1].id, base), base, c);
      PrefixOfSomeSnoc(folders, base, c);
    }
  }

  /** Every node the handler returns sits at the end of a chain that is a prefix
      of some folder record's path in the requested region, every such prefix is
      present, and other records contribute nothing; sibling names are unique
      and paths are `{userId}/uploads/` followed by each ancestor name and `/`. */
  lemma HierarchySpec(items: seq<FileRecord>, region: string, userId: string, c: seq<string>)
    requires region != "" && userId != "" && items != []
    ensures var r := HierarchyOf(items, region, userId);
            && r.Folders?
            && WellFormed(r.forest, UserRoot(userId))
            && (HasChain(r.forest, c) <==>
                c == [] || exists j :: 0 <= j < |items| && InHierarchy(items[j], region) && c <= Parts(items[j].id, UserRoot(userId)))
  {
    var base := UserRoot(userId);
    var p := (f: FileRecord) => InHierarchy(f, region);
    var folders := Filter(items, p);
    BuildWellFormed(folders, base);
    BuildChains(folders, base, c);
    PrefixOfFilteredFrom(items, p, base, c);
    PrefixOfFilteredTo(items, p, base, c);
  }

  /** A prefix of a kept record's path is a prefix of a path of `items` whose
      record passes the filter. */
  lemma PrefixOfFilteredFrom(items: seq<FileRecord>, p: FileRecord -> bool, base: string, c: seq<string>)
    ensures PrefixOfSome(Filter(items, p), base, c)
            ==> exists j :: 0 <= j < |items| && p(items[j]) && c <= Parts(items[j].id, base)
  {
    var folders := Filter(items, p);
    if PrefixOfSome(folders, base, c) {
      var ps := PathsOf(folders, base);
      var j :| 0 <= j < |ps| && c <= ps[j];
      assert folders[j] in items;
      var m :| 0 <= m < |items| && items[m] == folders[j];
      assert p(items[m]) && c <= Parts(items[m].id, base);
    }
  }

  /** ... and conversely. */
  lemma PrefixOfFilteredTo(items: seq<FileRecord>, p: FileRecord -> bool, base: string, c: seq<string>)
    ensures (exists j :: 0 <= j < |items| && p(items[j]) && c <= Parts(items[j].id, base))
            ==> PrefixOfSome(Filter(items, p), base, c)
  {
    var folders := Filter(items, p);
    if exists j :: 0 <= j < |items| && p(items[j]) && c <= Parts(items[j].id, base) {
      var j :| 0 <= j < |items| && p(items[j]) && c <= Parts(items[j].id, base);
      assert items[j] in folders;
      var m :| 0 <= m < |folders| && folders[m] == items[j];
      var ps := PathsOf(folders, base);
      assert c <= ps[m];
    }
  }

  /** Each node's path below the root: a folder record `{userId}/uploads/a/b/`
      produces the chain ["a", "b"]. */
  lemma PartsOfFolderKey(userId: string, a: string, b: string)
    requires a != "" && b != "" && '/' !in a && '/' !in b
    ensures Parts(UserRoot(userId) + a + "/" + b + "/", UserRoot(userId)) == [a, b]
  {
    var base := UserRoot(userId);
    var id := base + a + "/" + b + "/";
    assert DropPrefix(id, |base|) == a + "/" + b + "/";
    var stripped := a + "/" + b;
    assert StripChar(a + "/" + b + "/", '/') == StripChar(stripped, '/') by {
      assert (a + "/" + b + "/")[..|a + "/" + b + "/"| - 1] == stripped;
    }
    StripCharNoop(stripped, '/');
    SplitCons(a, '/', b);
    SplitNoSep(b, '/');
    assert a + "/" + b == a + ['/'] + b;
  }
}
