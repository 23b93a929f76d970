/** Rename-on-conflict naming shared by the upload handler, the move/copy handler
    and the upload dialog: the candidates `{base}{ (n)}{ext}` for n = 0, 1, 2, ...
    and the first candidate that is not already taken. */
module Naming {
  import opened Text

  /** `{base} ({n}){dotExt}`, or `{base}{dotExt}` for n == 0. */
  function Suffixed(base: string, dotExt: string, n: nat): string {
    base + (if n == 0 then "" else " (" + Decimal(n) + ")") + dotExt
  }

  /** The n-th candidate key under `prefix`. */
  function Candidate(prefix: string, base: string, dotExt: string, n: nat): string {
    prefix + Suffixed(base, dotExt, n)
  }

  /** Python `name.rsplit('.', 1) if '.' in name else (name, '')`. */
  function SplitExt(name: string): (r: (string, string))
    ensures '.' !in r.1
    ensures '.' in name ==> name == r.0 + "." + r.1
    ensures '.' !in name ==> r == (name, "")
  {
    var k := LastIndexOf(name, '.');
    if k < 0 then (name, "")
    else
      assert name == name[..k] + "." + name[k + 1..];
      (name[..k], name[k + 1..])
  }

  /** The `.{ext}` suffix the Python handlers append, empty for an empty extension. */
  function DotExt(ext: string): string {
    if ext != "" then "." + ext else ""
  }

  /** Different counters give different candidates. */
  lemma CandidateInjective(prefix: string, base: string, dotExt: string, a: nat, b: nat)
    requires Candidate(prefix, base, dotExt, a) == Candidate(prefix, base, dotExt, b)
    ensures a == b
  {
    var p := prefix + base;
    var ma := if a == 0 then "" else " (" + Decimal(a) + ")";
    var mb := if b == 0 then "" else " (" + Decimal(b) + ")";
    var ca := Candidate(prefix, base, dotExt, a);
    assert ca == p + ma + dotExt;
    assert Candidate(prefix, base, dotExt, b) == p + mb + dotExt;
    assert |ma| == |mb|;
    if a != 0 {
      assert b != 0;
      assert ca[|p|..|p| + |ma|] == ma;
      assert ma == mb;
      assert Decimal(a) == ma[2..|ma| - 1] == mb[2..|mb| - 1] == Decimal(b);
      DecimalInjective(a, b);
    } else {
      assert b == 0;
    }
  }

  /** Pigeonhole: the candidates start..n-1 are pairwise distinct, so if all of
      them are taken there are at least n - start taken keys. */
  lemma {:induction false} CandidatesFit(taken: set<string>, prefix: string, base: string, dotExt: string,
                                         start: nat, n: nat)
    requires start <= n
    requires forall m :: start <= m < n ==> Candidate(prefix, base, dotExt, m) in taken
    ensures n - start <= |taken|
    decreases n
  {
    if start < n {
      var last := Candidate(prefix, base, dotExt, n - 1);
      var rest := taken - {last};
      forall m | start <= m < n - 1
        ensures Candidate(prefix, base, dotExt, m) in rest
      {
        if Candidate(prefix, base, dotExt, m) == last {
          CandidateInjective(prefix, base, dotExt, m, n - 1);
        }
      }
      CandidatesFit(rest, prefix, base, dotExt, start, n - 1);
    }
  }

  /** `r` is the least counter from `start` on whose candidate is not taken. */
  ghost predicate IsFirstFree(taken: set<string>, prefix: string, base: string, dotExt: string,
                              start: nat, r: nat)
  {
    && start <= r
    && Candidate(prefix, base, dotExt, r) !in taken
    && forall m :: start <= m < r ==> Candidate(prefix, base, dotExt, m) in taken
  }

  /** The probing loop of the rename policies: try the counters n, n + 1, ...
      and stop at the first one whose candidate is free. It terminates because
      the taken set is finite and the candidates are pairwise distinct. */
  function FirstFree(taken: set<string>, prefix: string, base: string, dotExt: string,
                     start: nat, n: nat): (r: nat)
    requires start <= n
    requires forall m :: start <= m < n ==> Candidate(prefix, base, dotExt, m) in taken
    ensures n <= r
    ensures IsFirstFree(taken, prefix, base, dotExt, start, r)
    decreases |taken| - (n - start)
  {
    CandidatesFit(taken, prefix, base, dotExt, start, n);
    if Candidate(prefix, base, dotExt, n) !in taken then n
    else
      CandidatesFit(taken, prefix, base, dotExt, start, n + 1);
      FirstFree(taken, prefix, base, dotExt, start, n + 1)
  }

  /** One probe of a renaming loop: the counters below `counter` are all
      taken, so `counter` fits within the taken names. */
  lemma ProbeStep(taken: set<string>, prefix: string, base: string, dotExt: string, counter: nat)
    requires forall m :: 0 <= m < counter - 1 ==> Candidate(prefix, base, dotExt, m) in taken
    requires 1 <= counter && Candidate(prefix, base, dotExt, counter - 1) in taken
    ensures forall m :: 0 <= m < counter ==> Candidate(prefix, base, dotExt, m) in taken
    ensures counter <= |taken|
    ensures prefix + Suffixed(base, dotExt, counter) == Candidate(prefix, base, dotExt, counter)
  {
    CandidatesFit(taken, prefix, base, dotExt, 0, counter);
  }

  /** The least free counter, spelled out on the candidate keys: its key is
      free, every earlier one is taken, and a free bare name is kept. */
  lemma FirstFreeCandidates(taken: set<string>, prefix: string, base: string, dotExt: string, n: nat)
    requires IsFirstFree(taken, prefix, base, dotExt, 0, n)
    ensures prefix + Suffixed(base, dotExt, n) !in taken
    ensures forall m :: 0 <= m < n ==> prefix + Suffixed(base, dotExt, m) in taken
    ensures prefix + base + dotExt !in taken ==> n == 0
  {
    assert Candidate(prefix, base, dotExt, 0) == prefix + base + dotExt;
    forall m | 0 <= m < n ensures prefix + Suffixed(base, dotExt, m) in taken {
      assert Candidate(prefix, base, dotExt, m) in taken;
    }
  }

  /** The least free counter is unique. */
  lemma FirstFreeUnique(taken: set<string>, prefix: string, base: string, dotExt: string,
                        start: nat, r1: nat, r2: nat)
    requires IsFirstFree(taken, prefix, base, dotExt, start, r1)
    requires IsFirstFree(taken, prefix, base, dotExt, start, r2)
    ensures r1 == r2
  {
  }
}
