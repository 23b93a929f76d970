/** The read-only handlers over a user's records: the list handler (filter,
    folders-first ordering and pagination) and the usage total. */
module Listing {
  import opened Text
  import opened Wrappers
  import opened StorageModel
  import opened ListingOrder

  /** Query parameters of GET /list. */
  datatype ListQuery = ListQuery(
    region: string,
    userId: string,
    filterType: string,     // "" when absent
    folder: string,         // "" when absent
    sortBy: string,
    sortOrder: string,
    search: string,         // "" when absent
    recursive: bool,
    page: int,
    limit: int,
    window: set<string>)    // createdAt values inside the clock window of recent/today/week

  /** The defaults the handler applies: sortBy date, sortOrder asc, recursive
      false, page 1, limit 20. */
  function DefaultQuery(region: string, userId: string): (q: ListQuery)
    ensures q.sortBy == "date" && q.sortOrder == "asc" && !q.recursive && q.page == 1 && q.limit == 20
  {
    ListQuery(region, userId, "", "", "date", "asc", "", false, 1, 20, {})
  }

  datatype Pagination = Pagination(page: int, limit: int, total: nat, pages: int,
                                   hasNext: bool, hasPrevious: bool)

  datatype ListResult = Listed(files: seq<FileRecord>, pagination: Pagination) | ListError(status: int)

  /** The elements of `s` that satisfy `p`, in order (a list comprehension). */
  function Filter<T(!new)>(s: seq<T>, p: T -> bool): (r: seq<T>)
    ensures |r| <= |s|
    ensures forall x :: x in r <==> x in s && p(x)
    decreases |s|
  {
    if s == [] then []
    else if p(s[0]) then [s[0]] + Filter(s[1..], p)
    else Filter(s[1..], p)
  }

  /** Splitting by a predicate and its negation keeps every element once. */
  lemma {:induction false} FilterPartition<T(!new)>(s: seq<T>, p: T -> bool, q: T -> bool)
    requires forall x :: q(x) <==> !p(x)
    ensures multiset(Filter(s, p)) + multiset(Filter(s, q)) == multiset(s)
    decreases |s|
  {
    if s != [] {
      var t := s[1..];
      FilterPartition(t, p, q);
      assert multiset(s) == multiset([s[0]]) + multiset(t) by {
        assert s == [s[0]] + t;
      }
      if p(s[0]) {
        assert multiset(Filter(s, p)) == multiset([s[0]]) + multiset(Filter(t, p));
        assert Filter(s, q) == Filter(t, q);
      } else {
        assert Filter(s, p) == Filter(t, p);
        assert multiset(Filter(s, q)) == multiset([s[0]]) + multiset(Filter(t, q));
      }
    }
  }

  /** The semantic `type` filter; the first keyword contained in the lower-cased
      value decides, and a value containing none of them filters nothing. */
  function TypeFilter(files: seq<FileRecord>, filterType: string, window: set<string>): seq<FileRecord> {
    var t := Lower(filterType);
    if Contains(t, "image") then Filter(files, (f: FileRecord) => StartsWith(f.fileType, "image/"))
    else if Contains(t, "video") then Filter(files, (f: FileRecord) => StartsWith(f.fileType, "video/"))
    else if Contains(t, "audio") then Filter(files, (f: FileRecord) => StartsWith(f.fileType, "audio/"))
    else if Contains(t, "document") then Filter(files, (f: FileRecord) => StartsWith(f.fileType, "application/"))
    else if Contains(t, "folder") then Filter(files, (f: FileRecord) => f.fileType == FolderType)
    else if Contains(t, "starred") then Filter(files, (f: FileRecord) => f.starred)
    else if Contains(t, "share") then Filter(files, (f: FileRecord) => f.status == "shared" || f.shared)
    else if Contains(t, "recent") || Contains(t, "today") || Contains(t, "week") then
      Filter(files, (f: FileRecord) => f.createdAt != "" && f.createdAt in window)
    else files
  }

  /** The folder-scope test for one id when a folder is given. */
  predicate InFolderScope(id: string, prefix: string, recursive: bool) {
    && StartsWith(id, prefix)
    && id != prefix
    && (recursive || Count(id[|prefix|..], '/') <= 1)
  }

  /** The top-level test when no folder is given: nothing but slashes around one
      name after the user root. */
  predicate AtTopLevel(id: string, root: string) {
    StartsWith(id, root) && '/' !in StripChar(id[|root|..], '/')
  }

  /** `{userId}/uploads/{folder.strip('/')}/`. */
  function FolderPrefix(userId: string, folder: string): string {
    UserRoot(userId) + StripChar(folder, '/') + "/"
  }

  /** The folder scope, used when no `type` is given. */
  function FolderFilter(files: seq<FileRecord>, userId: string, folder: string, recursive: bool): seq<FileRecord> {
    if folder != "" then
      var prefix := FolderPrefix(userId, folder);
      Filter(files, (f: FileRecord) => InFolderScope(f.id, prefix, recursive))
    else
      var root := UserRoot(userId);
      Filter(files, (f: FileRecord) => AtTopLevel(f.id, root))
  }

  /** Region, then either the type filter or the folder scope, then search. */
  function Selected(items: seq<FileRecord>, q: ListQuery): seq<FileRecord> {
    var inRegion := Filter(items, (f: FileRecord) => f.region == q.region);
    var scoped := if q.filterType != "" then TypeFilter(inRegion, q.filterType, q.window)
                  else FolderFilter(inRegion, q.userId, q.folder, q.recursive);
    if q.search != "" then
      var term := Lower(q.search);
      Filter(scoped, (f: FileRecord) => Contains(Lower(f.fileName), term))
    else scoped
  }

  /** Every record that is not a folder record. */
  predicate IsFileRecord(r: FileRecord) {
    !IsFolderRecord(r)
  }

  /** Folders first, then the other records, each group sorted on its own. */
  function Ordered(files: seq<FileRecord>, sortBy: string, desc: bool): seq<FileRecord> {
    Sort(Filter(files, IsFolderRecord), sortBy, desc)
    + Sort(Filter(files, IsFileRecord), sortBy, desc)
  }

  /** `math.ceil(total / limit)` for a non-zero limit. */
  function CeilDiv(total: nat, limit: int): int
    requires limit != 0
  {
    if limit > 0 then (total + limit - 1) / limit else -(total / -limit)
  }

  /** Page selection: 500 for a zero limit (division by zero), 400 for a page
      outside [1, pages]; otherwise the slice [(page-1)*limit, page*limit). */
  function Paginate(sorted: seq<FileRecord>, page: int, limit: int): ListResult {
    var total := |sorted|;
    if limit == 0 then ListError(500)
    else
      var pages := CeilDiv(total, limit);
      if page < 1 || page > pages then ListError(400)
      else
        var start := (page - 1) * limit;
        var end := if start + limit < total then start + limit else total;
        if 0 <= start <= end then
          Listed(sorted[start..end], Pagination(page, limit, total, pages, page < pages, page > 1))
        else ListError(500)
  }

  /** Whether the sort key raises: `int()` of a null or malformed size when sorting by size. */
  predicate SortRaises(files: seq<FileRecord>, sortBy: string) {
    sortBy == "size" && exists i :: 0 <= i < |files| && Unreadable(files[i].size)
  }

  /** GET /list over the records the userId query returned. */
  function ListFiles(items: seq<FileRecord>, q: ListQuery): ListResult {
    if q.region == "" || q.userId == "" then ListError(400)
    else if items == [] then ListError(404)
    else
      var files := Selected(items, q);
      if SortRaises(files, q.sortBy) then ListError(500)
      else Paginate(Ordered(files, q.sortBy, Lower(q.sortOrder) == "desc"), q.page, q.limit)
  }

  // ---------------------------------------------------------------------------
  // Properties of the folder scope

  /** Non-recursive listing keeps a file one level inside a subfolder: the
      count of `/` after the prefix is one. */
  lemma NonRecursiveKeepsFilesOfSubfolders(prefix: string, sub: string, name: string)
    requires '/' !in sub && '/' !in name
    ensures InFolderScope(prefix + sub + "/" + name, prefix, false)
  {
    var id := prefix + sub + "/" + name;
    var rest := sub + ("/" + name);
    assert id == prefix + rest;
    assert id[|prefix|..] == rest;
    CountAppend(sub, "/" + name, '/');
    CountAppend("/", name, '/');
    assert Count("/", '/') == 1;
  }

  /** ...but not a folder two levels down, whose marker ends in a second `/`. */
  lemma NonRecursiveDropsNestedFolders(prefix: string, sub: string, name: string)
    ensures !InFolderScope(prefix + sub + "/" + name + "/", prefix, false)
  {
    var id := prefix + sub + "/" + name + "/";
    var rest := sub + ("/" + (name + "/"));
    assert id == prefix + rest;
    assert id[|prefix|..] == rest;
    CountAppend(sub, "/" + (name + "/"), '/');
    CountAppend("/", name + "/", '/');
    CountAppend(name, "/", '/');
    assert Count("/", '/') == 1;
  }

  /** Recursive listing keeps every strict descendant of the folder. */
  lemma RecursiveKeepsDescendants(prefix: string, rest: string)
    requires rest != ""
    ensures InFolderScope(prefix + rest, prefix, true)
  {
    assert StartsWith(prefix + rest, prefix);
  }

  /** Neither mode lists the folder's own record nor anything outside it. */
  lemma FolderScopeIsStrict(id: string, prefix: string, recursive: bool)
    requires InFolderScope(id, prefix, recursive)
    ensures |id| > |prefix| && id[..|prefix|] == prefix
  {
  }

  /** Without a folder, a top-level file or folder marker is listed... */
  lemma TopLevelKept(root: string, name: string)
    requires name != "" && '/' !in name
    ensures AtTopLevel(root + name, root) && AtTopLevel(root + name + "/", root)
  {
    assert (root + name)[|root|..] == name;
    assert (root + name + "/")[|root|..] == name + "/";
    assert StripChar(name + "/", '/') == StripChar(name, '/');
  }

  /** ...and anything inside a folder is not. */
  lemma NestedNotTopLevel(root: string, dir: string, name: string)
    requires dir != "" && name != "" && dir[0] != '/' && name[|name| - 1] != '/'
    ensures !AtTopLevel(root + dir + "/" + name, root)
  {
    var rest := dir + "/" + name;
    assert (root + dir + "/" + name)[|root|..] == rest;
    assert StripChar(rest, '/') == rest;
    assert rest[|dir|] == '/';
  }

  lemma {:induction false} CountAppend(a: string, b: string, c: char)
    ensures Count(a + b, c) == Count(a, c) + Count(b, c)
    decreases |a|
  {
    if a != [] {
      CountAppend(a[1..], b, c);
      assert (a + b)[1..] == a[1..] + b;
    } else {
      assert a + b == b;
    }
  }

  // ---------------------------------------------------------------------------
  // Properties of the ordering and pagination

  /** Sorting a group keeps every record of it inside the group. */
  lemma SortStaysInGroup(s: seq<FileRecord>, sortBy: string, desc: bool, folder: bool)
    requires forall x :: x in s ==> IsFolderRecord(x) == folder
    ensures |Sort(s, sortBy, desc)| == |s|
    ensures forall x :: x in Sort(s, sortBy, desc) ==> IsFolderRecord(x) == folder
  {
    SortCorrect(s, sortBy, desc);
    var t := Sort(s, sortBy, desc);
    assert |t| == |s| by { assert |multiset(t)| == |multiset(s)|; }
    forall x | x in t ensures IsFolderRecord(x) == folder {
      assert x in multiset(t);
    }
  }

  /** The ordered listing holds exactly the selected records. */
  lemma OrderedPermutation(files: seq<FileRecord>, sortBy: string, desc: bool)
    ensures multiset(Ordered(files, sortBy, desc)) == multiset(files)
  {
    var folders := Filter(files, IsFolderRecord);
    var others := Filter(files, IsFileRecord);
    SortCorrect(folders, sortBy, desc);
    SortCorrect(others, sortBy, desc);
    FilterPartition(files, IsFolderRecord, IsFileRecord);
  }

  /** Every folder record comes before every other record, and each of the two
      groups is sorted by the requested key (reversed for desc). */
  lemma OrderedGroups(files: seq<FileRecord>, sortBy: string, desc: bool)
    ensures var r := Ordered(files, sortBy, desc);
            var nf := |Filter(files, IsFolderRecord)|;
            && nf <= |r|
            && (forall i :: 0 <= i < nf ==> IsFolderRecord(r[i]))
            && (forall i :: nf <= i < |r| ==> !IsFolderRecord(r[i]))
            && Sorted(r[..nf], sortBy, desc)
            && Sorted(r[nf..], sortBy, desc)
  {
    var folders := Filter(files, IsFolderRecord);
    var others := Filter(files, IsFileRecord);
    SortCorrect(folders, sortBy, desc);
    SortCorrect(others, sortBy, desc);
    SortStaysInGroup(folders, sortBy, desc, true);
    SortStaysInGroup(others, sortBy, desc, false);
    GroupsSplit(Sort(folders, sortBy, desc), Sort(others, sortBy, desc));
  }

  /** Folder records followed by other records: the first |sf| positions are
      the folder records, the rest the others. */
  lemma GroupsSplit(sf: seq<FileRecord>, so: seq<FileRecord>)
    requires forall x :: x in sf ==> IsFolderRecord(x)
    requires forall x :: x in so ==> !IsFolderRecord(x)
    ensures (sf + so)[..|sf|] == sf && (sf + so)[|sf|..] == so
    ensures forall i :: 0 <= i < |sf| ==> IsFolderRecord((sf + so)[i])
    ensures forall i :: |sf| <= i < |sf + so| ==> !IsFolderRecord((sf + so)[i])
  {
    var r := sf + so;
    assert r[..|sf|] == sf && r[|sf|..] == so;
    forall i | 0 <= i < |sf| ensures IsFolderRecord(r[i]) {
      assert r[i] == sf[i];
    }
    forall i | |sf| <= i < |r| ensures !IsFolderRecord(r[i]) {
      assert r[i] == so[i - |sf|];
    }
  }

  /** pages is ceil(total / limit) for a positive limit. */
  lemma CeilDivBounds(total: nat, limit: int)
    requires limit > 0
    ensures var pages := CeilDiv(total, limit);
            pages >= 0 && (total == 0 <==> pages == 0) && (total > 0 ==> (pages - 1) * limit < total <= pages * limit)
  {
    var pages := CeilDiv(total, limit);
    var rem := (total + limit - 1) % limit;
    assert total + limit - 1 == pages * limit + rem;
    assert (pages - 1) * limit == pages * limit - limit;
    if pages < 0 {
      MulMono(pages, -1, limit);
    }
    if total == 0 {
      assert pages == 0;
    }
    if pages == 0 {
      assert pages * limit == 0;
    }
  }

  lemma MulMono(a: int, b: int, k: int)
    requires a <= b && k > 0
    ensures a * k <= b * k
  {
  }

  /** An empty listing rejects every page, and a non-positive limit rejects or
      fails every request. */
  lemma EmptyListingRejectsEveryPage(page: int, limit: int)
    ensures Paginate([], page, limit).ListError?
  {
    if limit > 0 {
      CeilDivBounds(0, limit);
    }
  }

  /** The pages accepted are those whose first index lies inside the listing. */
  lemma PageAccepted(total: nat, page: int, limit: int)
    requires limit > 0
    ensures 1 <= page <= CeilDiv(total, limit) <==> 1 <= page && (page - 1) * limit < total
  {
    var pages := CeilDiv(total, limit);
    CeilDivBounds(total, limit);
    if 1 <= page <= pages {
      MulMono(page - 1, pages - 1, limit);
    }
    if 1 <= page && page > pages {
      MulMono(pages, page - 1, limit);
    }
  }

  /** An accepted page is the slice [(page-1)*limit, min(page*limit, total)) with
      pages = ceil(total/limit), hasNext = page < pages, hasPrevious = page > 1;
      a zero limit fails with 500 and every other rejection is 400. */
  lemma PaginateSpec(sorted: seq<FileRecord>, page: int, limit: int)
    ensures var r := Paginate(sorted, page, limit);
            r.Listed? <==> limit > 0 && 1 <= page && (page - 1) * limit < |sorted|
    ensures var r := Paginate(sorted, page, limit);
            r.Listed? ==>
              && var start := (page - 1) * limit;
              && r.files == sorted[start..if start + limit < |sorted| then start + limit else |sorted|]
              && r.pagination.total == |sorted|
              && (r.pagination.pages - 1) * limit < |sorted| <= r.pagination.pages * limit
              && r.pagination.hasNext == (page < r.pagination.pages)
              && r.pagination.hasPrevious == (page > 1)
    ensures var r := Paginate(sorted, page, limit);
            r.ListError? ==> r.status == (if limit == 0 then 500 else 400)
  {
    var total := |sorted|;
    if limit > 0 {
      PageAccepted(total, page, limit);
      CeilDivBounds(total, limit);
      if 1 <= page {
        MulMono(0, page - 1, limit);
      }
    } else if limit < 0 {
      assert CeilDiv(total, limit) <= 0;
    }
  }

  // ---------------------------------------------------------------------------
  // Usage

  datatype UsageResult = Usage(totalBytes: int) | UsageError(status: int)

  /** The sum of `int(size)` over the non-folder records; a null or malformed size raises. */
  function SumSizes(items: seq<FileRecord>): UsageResult
    decreases |items|
  {
    if items == [] then Usage(0)
    else
      var rest := SumSizes(items[1..]);
      var f := items[0];
      if IsFolderRecord(f) then rest
      else if Unreadable(f.size) then UsageError(500)
      else if rest.UsageError? then rest
      else Usage(SizeValue(f.size) + rest.totalBytes)
  }

  /** GET /usage over the records the userId query returned. */
  function HandleUsage(userId: string, items: seq<FileRecord>): UsageResult {
    if userId == "" then UsageError(400) else SumSizes(items)
  }

  /** The usage request fails exactly when some non-folder record has a null or
      malformed size. */
  lemma {:induction false} SumSizesFails(items: seq<FileRecord>)
    ensures SumSizes(items).UsageError? <==>
            exists i :: 0 <= i < |items| && !IsFolderRecord(items[i]) && Unreadable(items[i].size)
    ensures SumSizes(items).UsageError? ==> SumSizes(items).status == 500
    decreases |items|
  {
    if items != [] {
      SumSizesFails(items[1..]);
      if exists i :: 0 <= i < |items[1..]| && !IsFolderRecord(items[1..][i]) && Unreadable(items[1..][i].size) {
        var i :| 0 <= i < |items[1..]| && !IsFolderRecord(items[1..][i]) && Unreadable(items[1..][i].size);
        assert items[i + 1] == items[1..][i];
      }
      if exists i :: 0 <= i < |items| && !IsFolderRecord(items[i]) && Unreadable(items[i].size) {
        var i :| 0 <= i < |items| && !IsFolderRecord(items[i]) && Unreadable(items[i].size);
        if i > 0 {
          assert items[1..][i - 1] == items[i];
        }
      }
    }
  }

  lemma SumSizesCons(x: FileRecord, s: seq<FileRecord>)
    ensures SumSizes([x] + s) == (
      if IsFolderRecord(x) then SumSizes(s)
      else if Unreadable(x.size) then UsageError(500)
      else if SumSizes(s).UsageError? then SumSizes(s)
      else Usage(SizeValue(x.size) + SumSizes(s).totalBytes))
  {
    assert ([x] + s)[1..] == s;
  }

  /** Folder records never count, and a non-folder record of n bytes adds n. */
  lemma SumSizesAdd(x: FileRecord, s: seq<FileRecord>)
    requires SumSizes(s).Usage?
    requires !Unreadable(x.size)
    ensures SumSizes([x] + s) == Usage(SumSizes(s).totalBytes + if IsFolderRecord(x) then 0 else SizeValue(x.size))
  {
    SumSizesCons(x, s);
  }
}
