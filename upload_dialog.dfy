/** The upload dialog's selection list: newly picked files are appended after
    the current selection, each renamed to `{base} ({n}){ext}` with the least
    free n when its name is already selected or picked earlier in the same
    batch; a file can be removed by position. */
module UploadNaming {
  import opened Text
  import opened Naming

  /** A picked file: its name, its MIME type and its contents (an identifier
      for the bytes, which renaming keeps). */
  datatype Picked = Picked(name: string, mime: string, content: nat)

  /** `\w` of a JavaScript regular expression. */
  predicate IsWordChar(c: char) {
    'A' <= c <= 'Z' || 'a' <= c <= 'z' || '0' <= c <= '9' || c == '_'
  }

  /** Length of the longest run of word characters that ends the string. */
  function WordTail(s: string): (n: nat)
    ensures n <= |s|
    ensures forall i :: |s| - n <= i < |s| ==> IsWordChar(s[i])
    ensures n < |s| ==> !IsWordChar(s[|s| - n - 1])
    decreases |s|
  {
    if s == [] || !IsWordChar(s[|s| - 1]) then 0 else 1 + WordTail(s[..|s| - 1])
  }

  /** The match of `/(\.\w+)$/`: a `.` followed by at least one word character
      up to the end of the name, or "" when the name has no such ending. */
  function DotExtOf(name: string): (ext: string)
    ensures EndsWith(name, ext)
    ensures ext != "" ==> |ext| >= 2 && ext[0] == '.' && forall i :: 1 <= i < |ext| ==> IsWordChar(ext[i])
  {
    var n := WordTail(name);
    if 0 < n < |name| && name[|name| - n - 1] == '.' then name[|name| - n - 1..] else ""
  }

  /** `name.replace(/(\.\w+)$/, "")`. */
  function BaseOf(name: string): (base: string)
    ensures base + DotExtOf(name) == name
  {
    name[..|name| - |DotExtOf(name)|]
  }

  /** The names in a list of files. */
  function Names(fs: seq<Picked>): set<string> {
    set f | f in fs :: f.name
  }

  /** The name the dialog gives a file when `taken` are the names already
      selected or picked earlier in the batch: the least free candidate
      `{base}{ (n)}{ext}`, starting from the name itself. */
  function FreshName(taken: set<string>, name: string): string {
    var base := BaseOf(name);
    var ext := DotExtOf(name);
    assert Candidate("", base, ext, 0) == name;
    Suffixed(base, ext, FirstFree(taken, "", base, ext, 0, 0))
  }

  /** A naming rule: the name given to a file when the names in the set are
      taken. */
  type Namer = (set<string>, string) -> string

  /** A rule that always gives a free name and keeps a name that is free. */
  ghost predicate NamesFreshly(namer: Namer) {
    forall taken, name :: namer(taken, name) !in taken && (name !in taken ==> namer(taken, name) == name)
  }

  /** The rule keeps the name `name` whenever it is free. */
  ghost predicate KeepsFree(namer: Namer, name: string) {
    forall taken: set<string> :: name !in taken ==> namer(taken, name) == name
  }

  /** The files a batch adds, in input order, when `taken` holds the names
      already selected: each is renamed against those and the names given to
      the files before it. */
  function RenameFrom(namer: Namer, taken: set<string>, files: seq<Picked>): (r: seq<Picked>)
    ensures |r| == |files|
    ensures forall i :: 0 <= i < |files| ==> r[i].mime == files[i].mime && r[i].content == files[i].content
    decreases |files|
  {
    if files == [] then []
    else
      var g := files[0].(name := namer(taken, files[0].name));
      [g] + RenameFrom(namer, taken + {g.name}, files[1..])
  }

  /** One step of the batch: the first file is renamed against `taken`, the
      rest against `taken` and its new name. */
  lemma RenameFromStep(namer: Namer, taken: set<string>, done: seq<Picked>, files: seq<Picked>, i: nat,
                        name: string)
    requires i < |files|
    requires name == namer(taken, files[i].name)
    ensures done + RenameFrom(namer, taken, files[i..])
         == (done + [files[i].(name := name)]) + RenameFrom(namer, taken + {name}, files[i + 1..])
  {
    assert files[i..][1..] == files[i + 1..];
  }

  /** The files `handleFileChange` appends to the selection. */
  function Renamed(selected: seq<Picked>, files: seq<Picked>): seq<Picked> {
    RenameFrom(FreshName, Names(selected), files)
  }

  // ---------------------------------------------------------------------------
  // Properties

  /** The probing starts from the name itself. */
  lemma NameIsFirstCandidate(name: string)
    ensures Candidate("", BaseOf(name), DotExtOf(name), 0) == name
  {
  }

  /** The dialog's name is the candidate of the least free counter. */
  lemma FreshNameIsFirstFree(taken: set<string>, name: string, n: nat)
    requires IsFirstFree(taken, "", BaseOf(name), DotExtOf(name), 0, n)
    ensures FreshName(taken, name) == Candidate("", BaseOf(name), DotExtOf(name), n)
  {
    var base := BaseOf(name);
    var ext := DotExtOf(name);
    FirstFreeUnique(taken, "", base, ext, 0, FirstFree(taken, "", base, ext, 0, 0), n);
  }

  /** The given name is free, and a name nothing holds is kept. */
  lemma FreshNameFree(taken: set<string>, name: string)
    ensures FreshName(taken, name) !in taken
    ensures name !in taken ==> FreshName(taken, name) == name
  {
    var base := BaseOf(name);
    var ext := DotExtOf(name);
    assert Candidate("", base, ext, 0) == name;
    var n := FirstFree(taken, "", base, ext, 0, 0);
    assert FreshName(taken, name) == Candidate("", base, ext, n);
  }

  /** A taken name becomes `{base} ({n}){ext}` for the least n >= 1 whose
      candidate is free. */
  lemma FreshNameSuffixed(taken: set<string>, name: string)
    requires name in taken
    ensures exists n: nat ::
              && n >= 1
              && FreshName(taken, name) == BaseOf(name) + " (" + Decimal(n) + ")" + DotExtOf(name)
              && forall m :: 1 <= m < n ==> Suffixed(BaseOf(name), DotExtOf(name), m) in taken
  {
    var base := BaseOf(name);
    var ext := DotExtOf(name);
    var n := FirstFree(taken, "", base, ext, 0, 0);
    assert FreshName(taken, name) == Suffixed(base, ext, n);
    assert Suffixed(base, ext, 0) in taken by {
      assert Suffixed(base, ext, 0) == name;
    }
    FirstFreeSuffixed(taken, base, ext, n);
  }

  /** When the bare candidate is taken, the first free counter is at least 1
      and every counter below it from 1 on is taken. */
  lemma FirstFreeSuffixed(taken: set<string>, base: string, ext: string, n: nat)
    requires Suffixed(base, ext, 0) in taken
    requires IsFirstFree(taken, "", base, ext, 0, n)
    ensures n >= 1
    ensures Suffixed(base, ext, n) == base + " (" + Decimal(n) + ")" + ext
    ensures forall m :: 1 <= m < n ==> Suffixed(base, ext, m) in taken
  {
    assert Candidate("", base, ext, 0) == Suffixed(base, ext, 0);
    forall m | 1 <= m < n
      ensures Suffixed(base, ext, m) in taken
    {
      assert Candidate("", base, ext, m) == Suffixed(base, ext, m);
    }
  }

  /** The dialog's rule gives free names and keeps free ones. */
  lemma FreshNameNamesFreshly()
    ensures NamesFreshly(FreshName)
  {
    forall taken, name
      ensures FreshName(taken, name) !in taken && (name !in taken ==> FreshName(taken, name) == name)
    {
      FreshNameFree(taken, name);
    }
  }

  /** No added name is already taken or equal to another added name. */
  lemma {:induction false} RenameFromDistinct(namer: Namer, taken: set<string>, files: seq<Picked>)
    requires NamesFreshly(namer)
    ensures forall i :: 0 <= i < |files| ==> RenameFrom(namer, taken, files)[i].name !in taken
    ensures forall i, j :: 0 <= i < j < |files| ==>
              RenameFrom(namer, taken, files)[i].name != RenameFrom(namer, taken, files)[j].name
    decreases |files|
  {
    if files != [] {
      var g := files[0].(name := namer(taken, files[0].name));
      RenameFromDistinct(namer, taken + {g.name}, files[1..]);
      var r := RenameFrom(namer, taken, files);
      var rest := RenameFrom(namer, taken + {g.name}, files[1..]);
      assert r == [g] + rest;
      forall i | 0 < i < |files|
        ensures r[i].name !in taken + {g.name}
      {
        assert r[i] == rest[i - 1];
      }
    }
  }

  /** After `handleFileChange` no added name equals a selected name or another
      added name. */
  lemma RenamedDistinct(selected: seq<Picked>, files: seq<Picked>)
    ensures forall f :: f in Renamed(selected, files) ==> f.name !in Names(selected)
    ensures forall i, j :: 0 <= i < j < |files| ==>
              Renamed(selected, files)[i].name != Renamed(selected, files)[j].name
  {
    FreshNameNamesFreshly();
    RenameFromDistinct(FreshName, Names(selected), files);
  }

  /** A file whose name is neither taken nor given to an earlier file of the
      batch is kept unchanged. */
  lemma {:induction false} RenameFromKeepsFreeName(namer: Namer, taken: set<string>, files: seq<Picked>, k: nat)
    requires k < |files|
    requires KeepsFree(namer, files[k].name)
    requires files[k].name !in taken
    requires forall i :: 0 <= i < k ==> RenameFrom(namer, taken, files)[i].name != files[k].name
    ensures RenameFrom(namer, taken, files)[k] == files[k]
    decreases k
  {
    if k == 0 {
      RenameFromHead(namer, taken, files);
      assert namer(taken, files[0].name) == files[0].name;
    } else {
      var name := namer(taken, files[0].name);
      RenameFromTail(namer, taken, files, k);
      RenameFromKeepsFreeName(namer, taken + {name}, files[1..], k - 1);
    }
  }

  /** `handleFileChange` keeps the name of a picked file that is neither
      selected already nor given to an earlier file of the batch. */
  lemma RenamedKeepsFreeName(selected: seq<Picked>, files: seq<Picked>, k: nat)
    requires k < |files|
    requires files[k].name !in Names(selected)
    requires forall i :: 0 <= i < k ==> Renamed(selected, files)[i].name != files[k].name
    ensures Renamed(selected, files)[k] == files[k]
  {
    var r := RenameFrom(FreshName, Names(selected), files);
    assert Renamed(selected, files) == r;
    assert forall i :: 0 <= i < k ==> r[i].name != files[k].name;
    FreshNameKeepsFree(files[k].name);
    RenameFromKeepsFreeName(FreshName, Names(selected), files, k);
  }

  /** The dialog's rule keeps every free name. */
  lemma FreshNameKeepsFree(name: string)
    ensures KeepsFree(FreshName, name)
  {
    forall taken: set<string> | name !in taken
      ensures FreshName(taken, name) == name
    {
      FreshNameFree(taken, name);
    }
  }

  /** The first file is renamed against `taken` alone. */
  lemma RenameFromHead(namer: Namer, taken: set<string>, files: seq<Picked>)
    requires files != []
    ensures RenameFrom(namer, taken, files)[0] == files[0].(name := namer(taken, files[0].name))
  {
  }

  /** The batch after its first file, seen from the `k`-th file: its name
      differs from the first file's new name and from the names given before
      it, and its result is the tail's. */
  lemma RenameFromTail(namer: Namer, taken: set<string>, files: seq<Picked>, k: nat)
    requires 0 < k < |files|
    requires forall i :: 0 <= i < k ==> RenameFrom(namer, taken, files)[i].name != files[k].name
    ensures var name := namer(taken, files[0].name);
            && files[1..][k - 1] == files[k]
            && files[k].name != name
            && (forall i :: 0 <= i < k - 1 ==> RenameFrom(namer, taken + {name}, files[1..])[i].name != files[k].name)
            && RenameFrom(namer, taken, files)[k] == RenameFrom(namer, taken + {name}, files[1..])[k - 1]
  {
    var r := RenameFrom(namer, taken, files);
    var g := files[0].(name := namer(taken, files[0].name));
    var rest := RenameFrom(namer, taken + {g.name}, files[1..]);
    assert r == [g] + rest;
    assert r[0] == g;
    forall i | 0 <= i < k - 1
      ensures rest[i].name != files[k].name
    {
      assert rest[i] == r[i + 1];
    }
  }
}

/** The dialog's selection list. */
module UploadDialog {
  import opened Naming
  import opened ListOps
  import opened Wrappers
  import opened UploadNaming

  class Dialog {
    var selected: seq<Picked>

    constructor ()
      ensures selected == []
    {
      selected := [];
    }

    /** `handleFileChange`: nothing happens without a file list; otherwise the
        renamed batch is appended to the selection. */
    method HandleFileChange(files: Option<seq<Picked>>)
      modifies this
      ensures files.None? ==> selected == old(selected)
      ensures files.Some? ==> selected == old(selected) + Renamed(old(selected), files.value)
    {
      if files.None? {
        return;
      }
      var added := RenameBatch(Names(selected), files.value);
      selected := selected + added;
    }

    /** `handleFileRemove`: the selection without the element at the index. */
    method HandleFileRemove(index: int)
      modifies this
      ensures selected == Spliced(old(selected), index)
    {
      selected := Spliced(selected, index);
    }
  }

  /** The batch loop of `handleFileChange`: rename each picked file against
      the names taken so far and add its new name to them. */
  method RenameBatch(selectedNames: set<string>, batch: seq<Picked>) returns (updated: seq<Picked>)
    ensures updated == RenameFrom(FreshName, selectedNames, batch)
  {
    updated := [];
    var taken := selectedNames;
    for i := 0 to |batch|
      invariant updated + RenameFrom(FreshName, taken, batch[i..]) == RenameFrom(FreshName, selectedNames, batch)
    {
      var f := batch[i];
      var name := PickName(taken, f.name);
      RenameFromStep(FreshName, taken, updated, batch, i, name);
      updated := updated + [f.(name := name)];
      taken := taken + {name};
    }
  }

  /** The renaming loop: try the name itself, then `{base} (1){ext}`,
      `{base} (2){ext}`, ... until one is free. */
  method PickName(taken: set<string>, name: string) returns (finalName: string)
    ensures finalName == FreshName(taken, name)
  {
    var base := BaseOf(name);
    var ext := DotExtOf(name);
    NameIsFirstCandidate(name);
    finalName := name;
    var counter := 1;
    while finalName in taken
      invariant 1 <= counter
      invariant finalName == Candidate("", base, ext, counter - 1)
      invariant forall m :: 0 <= m < counter - 1 ==> Candidate("", base, ext, m) in taken
      decreases |taken| + 1 - counter
    {
      ProbeStep(taken, "", base, ext, counter);
      finalName := Suffixed(base, ext, counter);
      counter := counter + 1;
    }
    FreshNameIsFirstFree(taken, name, counter - 1);
  }
}
