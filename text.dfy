/** String helpers with the semantics of the Python and JavaScript built-ins the
    storage service and the web client use: split, join, strip, prefix tests,
    ASCII case mapping and decimal rendering of counters. */
module Text {

  /** `s.startswith(p)` / `s.startsWith(p)`. */
  predicate StartsWith(s: string, p: string) {
    p <= s
  }

  /** `s.endswith(x)` / `s.endsWith(x)`. */
  predicate EndsWith(s: string, x: string) {
    |x| <= |s| && s[|s| - |x|..] == x
  }

  /** `sub in s` / `s.includes(sub)`, by scanning start positions. */
  predicate Contains(s: string, sub: string)
    decreases |s|
  {
    sub <= s || (|s| > 0 && Contains(s[1..], sub))
  }

  /** `sub` occurs in `s` starting at index `i`. */
  predicate OccursAt(s: string, sub: string, i: int) {
    0 <= i <= |s| - |sub| && s[i..i + |sub|] == sub
  }

  /** Contains holds exactly when `sub` occurs at some position of `s`. */
  lemma ContainsAt(s: string, sub: string)
    ensures Contains(s, sub) <==> exists i :: OccursAt(s, sub, i)
  {
    if Contains(s, sub) {
      var i := ContainsOccurs(s, sub);
    }
    if exists i :: OccursAt(s, sub, i) {
      var i :| OccursAt(s, sub, i);
      OccursContains(s, sub, i);
    }
  }

  /** A position where a contained `sub` occurs. */
  lemma {:induction false} ContainsOccurs(s: string, sub: string) returns (i: nat)
    requires Contains(s, sub)
    ensures OccursAt(s, sub, i)
    decreases |s|
  {
    if sub <= s {
      i := 0;
      assert s[..|sub|] == sub;
    } else {
      var j := ContainsOccurs(s[1..], sub);
      i := j + 1;
      assert s[i..i + |sub|] == s[1..][j..j + |sub|];
    }
  }

  /** An occurrence at any position is found by the scan. */
  lemma {:induction false} OccursContains(s: string, sub: string, i: int)
    requires OccursAt(s, sub, i)
    ensures Contains(s, sub)
    decreases i
  {
    if i == 0 {
      assert sub == s[..|sub|];
    } else {
      assert s[1..][i - 1..i - 1 + |sub|] == s[i..i + |sub|];
      OccursContains(s[1..], sub, i - 1);
    }
  }

  /** Number of occurrences of `c` in `s` (`s.count(c)` for one character). */
  function Count(s: string, c: char): (n: nat)
    ensures n <= |s|
    ensures n == 0 <==> c !in s
  {
    if s == [] then 0 else (if s[0] == c then 1 else 0) + Count(s[1..], c)
  }

  /** Index of the first `c` in `s`, or |s| when there is none. */
  function IndexOf(s: string, c: char): (i: nat)
    ensures i <= |s|
    ensures i < |s| ==> s[i] == c
    ensures c !in s[..i]
  {
    if s == [] then 0
    else if s[0] == c then 0
    else 1 + IndexOf(s[1..], c)
  }

  /** Index of the last `c` in `s`, or -1 when there is none. */
  function LastIndexOf(s: string, c: char): (i: int)
    ensures -1 <= i < |s|
    ensures i >= 0 ==> s[i] == c
    ensures c !in s[i + 1..]
    ensures i == -1 <==> c !in s
  {
    if s == [] then -1
    else if s[|s| - 1] == c then |s| - 1
    else
      var j := LastIndexOf(s[..|s| - 1], c);
      assert s[j + 1..] == s[..|s| - 1][j + 1..] + [s[|s| - 1]];
      j
  }

  /** `s.split(c)`: the pieces between occurrences of `c`, always at least one. */
  function Split(s: string, c: char): (parts: seq<string>)
    ensures |parts| >= 1
    ensures c in s <==> |parts| >= 2
    ensures forall k :: 0 <= k < |parts| ==> c !in parts[k]
    decreases |s|
  {
    var i := IndexOf(s, c);
    if i == |s| then [s] else [s[..i]] + Split(s[i + 1..], c)
  }

  /** `sep.join(parts)`. */
  function Join(parts: seq<string>, sep: string): string
    decreases |parts|
  {
    if parts == [] then ""
    else if |parts| == 1 then parts[0]
    else parts[0] + sep + Join(parts[1..], sep)
  }

  /** Splitting and joining again with the same separator gives back the string. */
  lemma {:induction false} JoinSplit(s: string, c: char)
    ensures Join(Split(s, c), [c]) == s
    decreases |s|
  {
    var i := IndexOf(s, c);
    if i < |s| {
      JoinSplit(s[i + 1..], c);
      assert s == s[..i] + [c] + s[i + 1..];
    }
  }

  /** Splitting a string that contains no separator gives the string alone;
      splitting `a + [c] + b` with `c` not in `a` starts with `a`. */
  lemma SplitNoSep(s: string, c: char)
    requires c !in s
    ensures Split(s, c) == [s]
  {
  }

  lemma SplitCons(a: string, c: char, b: string)
    requires c !in a
    ensures Split(a + [c] + b, c) == [a] + Split(b, c)
  {
    var s := a + [c] + b;
    var i := IndexOf(s, c);
    assert s[|a|] == c;
    assert s[..|a|] == a;
    assert i == |a|;
    assert s[..i] == a;
    assert s[i + 1..] == b;
  }

  /** Concatenation is associative. */
  lemma AppendAssoc<T>(x: seq<T>, y: seq<T>, z: seq<T>)
    ensures x + (y + z) == (x + y) + z
  {
  }

  /** Splitting around one separator splits the two sides independently. */
  lemma {:induction false} SplitAround(a: string, c: char, b: string)
    ensures Split(a + [c] + b, c) == Split(a, c) + Split(b, c)
    decreases |a|
  {
    var i := IndexOf(a, c);
    if i == |a| {
      assert a[..i] == a;
      SplitNoSep(a, c);
      SplitCons(a, c, b);
    } else {
      var a0, a1 := a[..i], a[i + 1..];
      assert a == a0 + [c] + a1;
      SplitAround(a1, c, b);
      SplitAroundStep(a0, a1, c, b);
    }
  }

  /** The inductive step of SplitAround: one more piece in front. */
  lemma SplitAroundStep(a0: string, a1: string, c: char, b: string)
    requires c !in a0
    requires Split(a1 + [c] + b, c) == Split(a1, c) + Split(b, c)
    ensures Split(a0 + [c] + a1 + [c] + b, c) == Split(a0 + [c] + a1, c) + Split(b, c)
  {
    assert a0 + [c] + a1 + [c] + b == a0 + [c] + (a1 + [c] + b);
    SplitCons(a0, c, a1 + [c] + b);
    SplitCons(a0, c, a1);
    AppendAssoc([a0], Split(a1, c), Split(b, c));
  }

  /** Joining pieces free of the separator and splitting again gives the pieces back. */
  lemma {:induction false} SplitJoin(parts: seq<string>, c: char)
    requires |parts| >= 1
    requires forall k :: 0 <= k < |parts| ==> c !in parts[k]
    ensures Split(Join(parts, [c]), c) == parts
    decreases |parts|
  {
    if |parts| == 1 {
      assert Join(parts, [c]) == parts[0];
      SplitNoSep(parts[0], c);
    } else {
      var rest := parts[1..];
      var j := Join(rest, [c]);
      assert Join(parts, [c]) == parts[0] + [c] + j;
      SplitJoin(rest, c);
      SplitCons(parts[0], c, j);
      assert [parts[0]] + rest == parts;
    }
  }

  /** Join of a sequence with one more element. */
  lemma {:induction false} JoinSnoc(parts: seq<string>, x: string, sep: string)
    requires |parts| >= 1
    ensures Join(parts + [x], sep) == Join(parts, sep) + sep + x
    decreases |parts|
  {
    if |parts| == 1 {
      assert parts + [x] == [parts[0], x];
    } else {
      assert (parts + [x])[1..] == parts[1..] + [x];
      JoinSnoc(parts[1..], x, sep);
    }
  }

  /** A join of two or more parts ends with the separator and the last part. */
  lemma JoinInitLast(parts: seq<string>, sep: string)
    requires |parts| >= 2
    ensures Join(parts[..|parts| - 1], sep) + sep + parts[|parts| - 1] == Join(parts, sep)
  {
    var init := parts[..|parts| - 1];
    assert init + [parts[|parts| - 1]] == parts;
    JoinSnoc(init, parts[|parts| - 1], sep);
  }

  /** `s.split(c)[-1]` / `s.split(c).pop()`: the text after the last `c`. */
  function LastSegment(s: string, c: char): (r: string)
    ensures c !in r
  {
    var parts := Split(s, c);
    parts[|parts| - 1]
  }

  /** The last segment is the suffix of `s` that follows the last `c`, or all of
      `s` when it holds no `c`. */
  lemma LastSegmentIsSuffix(s: string, c: char)
    ensures EndsWith(s, LastSegment(s, c))
    ensures LastSegment(s, c) == s || s[|s| - |LastSegment(s, c)| - 1] == c
  {
    var parts := Split(s, c);
    var last := parts[|parts| - 1];
    JoinSplit(s, c);
    if |parts| == 1 {
      assert Join(parts, [c]) == last;
    } else {
      JoinInitLast(parts, [c]);
      EndsAfterSeparator(Join(parts[..|parts| - 1], [c]), c, last);
    }
  }

  /** The last segment of `a`, `c`, `b` is `b` when `b` holds no `c`. */
  lemma LastSegmentAfter(a: string, c: char, b: string)
    requires c !in b
    ensures LastSegment(a + [c] + b, c) == b
    ensures LastSegment(b, c) == b
  {
    SplitAround(a, c, b);
    SplitNoSep(b, c);
    var p := Split(a + [c] + b, c);
    assert p == Split(a, c) + [b];
    assert p[|p| - 1] == b;
  }

  /** A string ending in `c` followed by `last` ends with `last`, and `c` comes
      just before it. */
  lemma EndsAfterSeparator(x: string, c: char, last: string)
    ensures EndsWith(x + [c] + last, last)
    ensures (x + [c] + last)[|x + [c] + last| - |last| - 1] == c
  {
    assert (x + [c] + last)[|x| + 1..] == last;
  }

  /** The last segment is what follows the last `c`. */
  lemma LastSegmentAt(s: string, c: char)
    ensures LastSegment(s, c) == s[LastIndexOf(s, c) + 1..]
  {
    LastSegmentIsSuffix(s, c);
    var r := LastSegment(s, c);
    var j := LastIndexOf(s, c);
    var k := |s| - |r| - 1;
    assert s[|s| - |r|..] == r;
    if r != s {
      assert s[k] == c;
      forall i | j < i < |s|
        ensures s[i] != c
      {
        assert s[i] == s[j + 1..][i - j - 1];
      }
      forall i | k < i < |s|
        ensures s[i] != c
      {
        assert s[i] == r[i - k - 1];
      }
    }
  }

  /** Python's `s[n:]`, which is empty when `s` is shorter than `n`. */
  function DropPrefix(s: string, n: nat): (r: string)
    ensures n <= |s| ==> r == s[n..]
    ensures n > |s| ==> r == ""
  {
    if n <= |s| then s[n..] else ""
  }

  /** Python `s.strip(c)` for one character: drop every leading and trailing `c`. */
  function StripChar(s: string, c: char): (r: string)
    ensures |r| <= |s|
    ensures r != [] ==> r[0] != c && r[|r| - 1] != c
    decreases |s|
  {
    if s == [] then s
    else if s[0] == c then StripChar(s[1..], c)
    else if s[|s| - 1] == c then StripChar(s[..|s| - 1], c)
    else s
  }

  /** Stripping a string that neither starts nor ends with `c` changes nothing. */
  lemma StripCharNoop(s: string, c: char)
    requires s != [] ==> s[0] != c && s[|s| - 1] != c
    ensures StripChar(s, c) == s
  {
  }

  /** The characters Python's `str.strip()` removes (`str.isspace`). */
  predicate IsPySpace(ch: char) {
    var n := ch as int;
    (9 <= n <= 13) || (28 <= n <= 32) || n == 0x85 || n == 0xA0 || n == 0x1680
    || (0x2000 <= n <= 0x200A) || n == 0x2028 || n == 0x2029 || n == 0x202F
    || n == 0x205F || n == 0x3000
  }

  /** Python `s.strip()`: drop leading and trailing whitespace. */
  function StripSpace(s: string): (r: string)
    ensures |r| <= |s|
    ensures r != [] ==> !IsPySpace(r[0]) && !IsPySpace(r[|r| - 1])
    decreases |s|
  {
    if s == [] then s
    else if IsPySpace(s[0]) then StripSpace(s[1..])
    else if IsPySpace(s[|s| - 1]) then StripSpace(s[..|s| - 1])
    else s
  }

  /** ASCII lower-casing of one character. */
  function LowerChar(ch: char): char {
    if 'A' <= ch <= 'Z' then (ch as int + 32) as char else ch
  }

  /** ASCII upper-casing of one character. */
  function UpperChar(ch: char): char {
    if 'a' <= ch <= 'z' then (ch as int - 32) as char else ch
  }

  /** `s.lower()` / `s.toLowerCase()` on the ASCII range. */
  function Lower(s: string): (r: string)
    ensures |r| == |s|
    ensures forall i :: 0 <= i < |s| ==> r[i] == LowerChar(s[i])
  {
    seq(|s|, i requires 0 <= i < |s| => LowerChar(s[i]))
  }

  /** Lower-casing twice is lower-casing once. */
  lemma LowerIdempotent(s: string)
    ensures Lower(Lower(s)) == Lower(s)
  {
    forall i | 0 <= i < |s|
      ensures LowerChar(LowerChar(s[i])) == LowerChar(s[i])
    {
    }
  }

  /** `s.toUpperCase()` on the ASCII range. */
  function Upper(s: string): (r: string)
    ensures |r| == |s|
    ensures forall i :: 0 <= i < |s| ==> r[i] == UpperChar(s[i])
  {
    seq(|s|, i requires 0 <= i < |s| => UpperChar(s[i]))
  }

  /** The decimal digit for `d`. */
  function Digit(d: nat): (ch: char)
    requires d < 10
    ensures '0' <= ch <= '9'
  {
    (48 + d) as char
  }

  /** The decimal rendering of a counter, as in `f"{n}"` or `${n}`. */
  function Decimal(n: nat): (s: string)
    ensures |s| >= 1 && (|s| == 1 <==> n < 10)
    ensures forall i :: 0 <= i < |s| ==> '0' <= s[i] <= '9'
  {
    if n < 10 then [Digit(n)] else Decimal(n / 10) + [Digit(n % 10)]
  }

  /** Different counters render differently. */
  lemma {:induction false} DecimalInjective(a: nat, b: nat)
    requires Decimal(a) == Decimal(b)
    ensures a == b
  {
    var da, db := Decimal(a), Decimal(b);
    assert da[|da| - 1] == Digit(a % 10) && db[|db| - 1] == Digit(b % 10);
    assert a % 10 == b % 10;
    if a >= 10 {
      assert b >= 10;
      assert Decimal(a / 10) == da[..|da| - 1] == db[..|db| - 1] == Decimal(b / 10);
      DecimalInjective(a / 10, b / 10);
    } else {
      assert b < 10;
    }
  }
}
