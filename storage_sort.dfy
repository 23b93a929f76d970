/** The ordering of a listing: Python's stable `list.sort(key=..., reverse=...)`
    over the keys the list handler computes (lower-cased name, size in bytes, or
    the createdAt string). */
module ListingOrder {
  import opened Text
  import opened Wrappers
  import opened StorageModel

  /** A sort key: Python compares strings by code point and ints numerically. */
  datatype SortKey = Str(s: string) | Num(n: int)

  /** Python's `<=` on strings: lexicographic by code point. */
  predicate LexLe(a: string, b: string)
    decreases |a|
  {
    a == [] || (b != [] && (a[0] < b[0] || (a[0] == b[0] && LexLe(a[1..], b[1..]))))
  }

  lemma {:induction false} LexLeTotal(a: string, b: string)
    ensures LexLe(a, b) || LexLe(b, a)
    decreases |a|
  {
    if a != [] && b != [] && a[0] == b[0] {
      LexLeTotal(a[1..], b[1..]);
    }
  }

  lemma {:induction false} LexLeTrans(a: string, b: string, c: string)
    requires LexLe(a, b) && LexLe(b, c)
    ensures LexLe(a, c)
    decreases |a|
  {
    if a != [] && b != [] && c != [] && a[0] == b[0] == c[0] {
      LexLeTrans(a[1..], b[1..], c[1..]);
    }
  }

  /** The order on keys; keys of one listing are all of one kind, and numbers
      are put before strings only to make the order total. */
  predicate KeyLe(x: SortKey, y: SortKey) {
    match (x, y)
    case (Num(a), Num(b)) => a <= b
    case (Str(a), Str(b)) => LexLe(a, b)
    case (Num(_), Str(_)) => true
    case (Str(_), Num(_)) => false
  }

  /** The integer `int(item.get('size', 0))` reads, when it does not raise. */
  function SizeValue(sz: Size): int {
    match sz
    case Missing => 0
    case Null => 0
    case Malformed(_) => 0
    case Bytes(n) => n
  }

  /** `sort_key`: name lower-cased, size, createdAt, or '' for any other sortBy. */
  function KeyOf(r: FileRecord, sortBy: string): SortKey {
    if sortBy == "name" then Str(Lower(r.fileName))
    else if sortBy == "size" then Num(SizeValue(r.size))
    else if sortBy == "date" then Str(r.createdAt)
    else Str("")
  }

  /** `a` may stand before `b` in the sorted output. */
  predicate Precedes(a: FileRecord, b: FileRecord, sortBy: string, desc: bool) {
    if desc then KeyLe(KeyOf(b, sortBy), KeyOf(a, sortBy))
    else KeyLe(KeyOf(a, sortBy), KeyOf(b, sortBy))
  }

  lemma PrecedesTotal(a: FileRecord, b: FileRecord, sortBy: string, desc: bool)
    ensures Precedes(a, b, sortBy, desc) || Precedes(b, a, sortBy, desc)
  {
    var ka, kb := KeyOf(a, sortBy), KeyOf(b, sortBy);
    if ka.Str? && kb.Str? {
      LexLeTotal(ka.s, kb.s);
    }
  }

  lemma PrecedesTrans(a: FileRecord, b: FileRecord, c: FileRecord, sortBy: string, desc: bool)
    requires Precedes(a, b, sortBy, desc) && Precedes(b, c, sortBy, desc)
    ensures Precedes(a, c, sortBy, desc)
  {
    var ka, kb, kc := KeyOf(a, sortBy), KeyOf(b, sortBy), KeyOf(c, sortBy);
    if ka.Str? && kb.Str? && kc.Str? {
      if desc {
        LexLeTrans(kc.s, kb.s, ka.s);
      } else {
        LexLeTrans(ka.s, kb.s, kc.s);
      }
    }
  }

  /** Every element may stand before every later one. */
  ghost predicate Sorted(s: seq<FileRecord>, sortBy: string, desc: bool) {
    forall i, j :: 0 <= i < j < |s| ==> Precedes(s[i], s[j], sortBy, desc)
  }

  /** Insert `x` after every element it does not strictly precede, so that
      elements with equal keys keep their order. */
  function Insert(x: FileRecord, s: seq<FileRecord>, sortBy: string, desc: bool): seq<FileRecord>
    decreases |s|
  {
    if s == [] then [x]
    else if !Precedes(s[0], x, sortBy, desc) then [x] + s
    else [s[0]] + Insert(x, s[1..], sortBy, desc)
  }

  /** The stable sort: insert the elements one by one in input order. */
  function Sort(s: seq<FileRecord>, sortBy: string, desc: bool): seq<FileRecord>
    decreases |s|
  {
    if s == [] then [] else Insert(s[|s| - 1], Sort(s[..|s| - 1], sortBy, desc), sortBy, desc)
  }

  lemma {:induction false} InsertPerm(x: FileRecord, s: seq<FileRecord>, sortBy: string, desc: bool)
    ensures multiset(Insert(x, s, sortBy, desc)) == multiset(s) + multiset{x}
    decreases |s|
  {
    if s != [] && Precedes(s[0], x, sortBy, desc) {
      InsertPerm(x, s[1..], sortBy, desc);
      assert s == [s[0]] + s[1..];
    }
  }

  lemma {:induction false} InsertSorted(x: FileRecord, s: seq<FileRecord>, sortBy: string, desc: bool)
    requires Sorted(s, sortBy, desc)
    ensures Sorted(Insert(x, s, sortBy, desc), sortBy, desc)
    decreases |s|
  {
    var r := Insert(x, s, sortBy, desc);
    if s == [] {
    } else if !Precedes(s[0], x, sortBy, desc) {
      PrecedesTotal(s[0], x, sortBy, desc);
      forall i, j | 0 <= i < j < |r| ensures Precedes(r[i], r[j], sortBy, desc) {
        if i == 0 {
          if j > 1 { PrecedesTrans(x, s[0], s[j - 1], sortBy, desc); }
        }
      }
    } else {
      InsertSorted(x, s[1..], sortBy, desc);
      InsertPerm(x, s[1..], sortBy, desc);
      var t := Insert(x, s[1..], sortBy, desc);
      forall i, j | 0 <= i < j < |r| ensures Precedes(r[i], r[j], sortBy, desc) {
        if i == 0 {
          assert r[j] in multiset(t);
          assert r[j] == x || r[j] in multiset(s[1..]);
          if r[j] != x {
            var k :| 0 <= k < |s[1..]| && s[1..][k] == r[j];
            assert Precedes(s[0], s[k + 1], sortBy, desc);
          }
        }
      }
    }
  }

  /** Sorting orders the listing and keeps exactly the same records. */
  lemma SortCorrect(s: seq<FileRecord>, sortBy: string, desc: bool)
    ensures Sorted(Sort(s, sortBy, desc), sortBy, desc)
    ensures multiset(Sort(s, sortBy, desc)) == multiset(s)
  {
    SortSorted(s, sortBy, desc);
    SortPerm(s, sortBy, desc);
  }

  lemma {:induction false} SortSorted(s: seq<FileRecord>, sortBy: string, desc: bool)
    ensures Sorted(Sort(s, sortBy, desc), sortBy, desc)
    decreases |s|
  {
    if s != [] {
      var init := s[..|s| - 1];
      SortSorted(init, sortBy, desc);
      InsertSorted(s[|s| - 1], Sort(init, sortBy, desc), sortBy, desc);
    }
  }

  lemma {:induction false} SortPerm(s: seq<FileRecord>, sortBy: string, desc: bool)
    ensures multiset(Sort(s, sortBy, desc)) == multiset(s)
    decreases |s|
  {
    if s != [] {
      var init, x := s[..|s| - 1], s[|s| - 1];
      SortPerm(init, sortBy, desc);
      InsertPerm(x, Sort(init, sortBy, desc), sortBy, desc);
      MultisetSnoc(s);
    }
  }

  /** The records of `s` whose sort key is `k`, in their order in `s`. */
  function WithKey(s: seq<FileRecord>, sortBy: string, k: SortKey): seq<FileRecord>
    decreases |s|
  {
    if s == [] then []
    else (if KeyOf(s[0], sortBy) == k then [s[0]] else []) + WithKey(s[1..], sortBy, k)
  }

  /** The sort is stable, also in descending order: the records that share any
      one sort key come out in the order they came in. */
  lemma {:induction false} SortStable(s: seq<FileRecord>, sortBy: string, desc: bool, k: SortKey)
    ensures WithKey(Sort(s, sortBy, desc), sortBy, k) == WithKey(s, sortBy, k)
    decreases |s|
  {
    if s != [] {
      var init, x := s[..|s| - 1], s[|s| - 1];
      var sorted := Sort(init, sortBy, desc);
      assert Sort(s, sortBy, desc) == Insert(x, sorted, sortBy, desc);
      SortStable(init, sortBy, desc, k);
      SortSorted(init, sortBy, desc);
      InsertWithKey(x, sorted, sortBy, desc, k);
      assert s == init + [x];
      WithKeyAppend(init, [x], sortBy, k);
      WithKeySingle(x, sortBy, k);
    }
  }

  /** Inserting `x` into a sorted listing puts it after every record with its key. */
  lemma {:induction false} InsertWithKey(x: FileRecord, s: seq<FileRecord>, sortBy: string, desc: bool, k: SortKey)
    requires Sorted(s, sortBy, desc)
    ensures WithKey(Insert(x, s, sortBy, desc), sortBy, k) ==
            WithKey(s, sortBy, k) + (if KeyOf(x, sortBy) == k then [x] else [])
    decreases |s|
  {
    WithKeySingle(x, sortBy, k);
    if s == [] {
      assert Insert(x, s, sortBy, desc) == [x];
    } else if !Precedes(s[0], x, sortBy, desc) {
      assert Insert(x, s, sortBy, desc) == [x] + s;
      InsertFrontWithKey(x, s, sortBy, desc, k);
    } else {
      assert Insert(x, s, sortBy, desc) == [s[0]] + Insert(x, s[1..], sortBy, desc);
      SortedTail(s, sortBy, desc);
      InsertWithKey(x, s[1..], sortBy, desc, k);
      assert s == [s[0]] + s[1..];
      WithKeyCons(s[0], Insert(x, s[1..], sortBy, desc), s[1..], if KeyOf(x, sortBy) == k then [x] else [], sortBy, k);
    }
  }

  lemma InsertFrontWithKey(x: FileRecord, s: seq<FileRecord>, sortBy: string, desc: bool, k: SortKey)
    requires Sorted(s, sortBy, desc) && s != [] && !Precedes(s[0], x, sortBy, desc)
    ensures WithKey([x] + s, sortBy, k) == WithKey(s, sortBy, k) + (if KeyOf(x, sortBy) == k then [x] else [])
  {
    WithKeySingle(x, sortBy, k);
    WithKeyAppend([x], s, sortBy, k);
    if KeyOf(x, sortBy) == k {
      NoKeyAfter(x, s, sortBy, desc);
    }
  }

  lemma WithKeyCons(a: FileRecord, rest: seq<FileRecord>, tail: seq<FileRecord>, own: seq<FileRecord>,
                    sortBy: string, k: SortKey)
    requires WithKey(rest, sortBy, k) == WithKey(tail, sortBy, k) + own
    ensures WithKey([a] + rest, sortBy, k) == WithKey([a] + tail, sortBy, k) + own
  {
    var h := if KeyOf(a, sortBy) == k then [a] else [];
    assert ([a] + rest)[1..] == rest && ([a] + tail)[1..] == tail;
    assert WithKey([a] + rest, sortBy, k) == h + WithKey(rest, sortBy, k);
    assert WithKey([a] + tail, sortBy, k) == h + WithKey(tail, sortBy, k);
    ConcatAssoc(h, WithKey(tail, sortBy, k), own);
  }

  lemma ConcatAssoc<T>(a: seq<T>, b: seq<T>, c: seq<T>)
    ensures a + (b + c) == (a + b) + c
  {
  }

  lemma WithKeySingle(x: FileRecord, sortBy: string, k: SortKey)
    ensures WithKey([x], sortBy, k) == if KeyOf(x, sortBy) == k then [x] else []
  {
    assert [x][1..] == [];
  }

  lemma SortedTail(s: seq<FileRecord>, sortBy: string, desc: bool)
    requires Sorted(s, sortBy, desc) && s != []
    ensures Sorted(s[1..], sortBy, desc)
  {
    forall i, j | 0 <= i < j < |s[1..]| ensures Precedes(s[1..][i], s[1..][j], sortBy, desc) {
      assert s[1..][i] == s[i + 1] && s[1..][j] == s[j + 1];
    }
  }

  /** Once the head of a sorted listing does not precede `x`, no record in it
      shares the key of `x`. */
  lemma NoKeyAfter(x: FileRecord, s: seq<FileRecord>, sortBy: string, desc: bool)
    requires Sorted(s, sortBy, desc) && s != [] && !Precedes(s[0], x, sortBy, desc)
    ensures WithKey(s, sortBy, KeyOf(x, sortBy)) == []
  {
    PrecedesTotal(s[0], s[0], sortBy, desc);
    forall j | 0 <= j < |s| ensures KeyOf(s[j], sortBy) != KeyOf(x, sortBy) {
      if j > 0 {
        assert Precedes(s[0], s[j], sortBy, desc);
      }
    }
    WithKeyNone(s, sortBy, KeyOf(x, sortBy));
  }

  lemma {:induction false} WithKeyNone(s: seq<FileRecord>, sortBy: string, k: SortKey)
    requires forall j :: 0 <= j < |s| ==> KeyOf(s[j], sortBy) != k
    ensures WithKey(s, sortBy, k) == []
    decreases |s|
  {
    if s != [] {
      WithKeyNone(s[1..], sortBy, k);
    }
  }

  lemma {:induction false} WithKeyAppend(s: seq<FileRecord>, t: seq<FileRecord>, sortBy: string, k: SortKey)
    ensures WithKey(s + t, sortBy, k) == WithKey(s, sortBy, k) + WithKey(t, sortBy, k)
    decreases |s|
  {
    if s == [] {
      assert s + t == t;
    } else {
      assert (s + t)[1..] == s[1..] + t;
      WithKeyAppend(s[1..], t, sortBy, k);
      ConcatAssoc(if KeyOf(s[0], sortBy) == k then [s[0]] else [], WithKey(s[1..], sortBy, k), WithKey(t, sortBy, k));
    }
  }

  lemma MultisetSnoc<T>(s: seq<T>)
    requires s != []
    ensures multiset(s) == multiset(s[..|s| - 1]) + multiset{s[|s| - 1]}
  {
    assert s == s[..|s| - 1] + [s[|s| - 1]];
  }
}
