/** The JavaScript array operations the client's list state uses. */
module ListOps {

  /** Where `splice(index, 1)` starts: a negative index counts from the end
      (clamped to 0), a large one is clamped to the length. */
  function SpliceStart(len: nat, index: int): (start: nat)
    ensures start <= len
    ensures 0 <= index ==> start == if index < len then index else len
  {
    if index < 0 then (if len + index < 0 then 0 else len + index)
    else if index < len then index else len
  }

  /** A copy of `s` after `splice(index, 1)`. */
  function Spliced<T>(s: seq<T>, index: int): (r: seq<T>)
    ensures 0 <= index < |s| ==> |r| == |s| - 1
    ensures index >= |s| ==> r == s
  {
    var start := SpliceStart(|s|, index);
    if start < |s| then s[..start] + s[start + 1..] else s
  }

  /** `s.filter((_, i) => i !== index)`. */
  function WithoutPosition<T>(s: seq<T>, index: int): (r: seq<T>)
    ensures index < 0 || index >= |s| ==> r == s
    decreases |s|
  {
    if s == [] then []
    else if index == 0 then s[1..]
    else [s[0]] + WithoutPosition(s[1..], index - 1)
  }

  /** Removing an element at a valid index keeps the others, in order. */
  lemma SplicedRemovesAt<T>(s: seq<T>, index: int)
    requires 0 <= index < |s|
    ensures |Spliced(s, index)| == |s| - 1
    ensures forall i :: 0 <= i < index ==> Spliced(s, index)[i] == s[i]
    ensures forall i :: index <= i < |s| - 1 ==> Spliced(s, index)[i] == s[i + 1]
  {
  }

  /** A negative index counts from the end. */
  lemma SplicedFromEnd<T>(s: seq<T>, index: int)
    requires -|s| <= index < 0
    ensures Spliced(s, index) == s[..|s| + index] + s[|s| + index + 1..]
  {
  }

  /** Filtering out a valid position is the same as splicing it out. */
  lemma {:induction false} WithoutPositionIsSplice<T>(s: seq<T>, index: int)
    requires 0 <= index < |s|
    ensures WithoutPosition(s, index) == Spliced(s, index)
    decreases |s|
  {
    if index > 0 {
      var t := s[1..];
      WithoutPositionIsSplice(t, index - 1);
      assert Spliced(t, index - 1) == s[1..index] + s[index + 1..] by {
        assert t[..index - 1] == s[1..index];
        assert t[index..] == s[index + 1..];
      }
      assert [s[0]] + (s[1..index] + s[index + 1..]) == s[..index] + s[index + 1..] by {
        assert [s[0]] + s[1..index] == s[..index];
      }
    }
  }
}
