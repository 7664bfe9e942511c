/** Sequence helpers: the reversed middleware list and occurrence counting. */
module Seqs {

  /** `s` in reverse order, as `List.Insert(0, x)` builds it one element at a time. */
  function Reverse<T>(s: seq<T>): (r: seq<T>)
    ensures |r| == |s|
    ensures forall i :: 0 <= i < |s| ==> r[i] == s[|s| - 1 - i]
  {
    if s == [] then [] else [s[|s| - 1]] + Reverse(s[..|s| - 1])
  }

  /** Appending at the back of a list prepends at the front of its reverse. */
  lemma ReverseAppend<T>(s: seq<T>, x: T)
    ensures Reverse(s + [x]) == [x] + Reverse(s)
  {
    assert (s + [x])[..|s|] == s;
  }

  /** How many times `x` occurs in `s`. */
  function Count<T(==)>(s: seq<T>, x: T): nat
  {
    if s == [] then 0 else (if s[0] == x then 1 else 0) + Count(s[1..], x)
  }

  lemma {:induction false} CountAppend<T>(s: seq<T>, t: seq<T>, x: T)
    ensures Count(s + t, x) == Count(s, x) + Count(t, x)
  {
    if s == [] {
      assert s + t == t;
    } else {
      assert (s + t)[1..] == s[1..] + t;
      CountAppend(s[1..], t, x);
    }
  }

  /** An element absent from `s` is counted zero times. */
  lemma {:induction false} CountAbsent<T>(s: seq<T>, x: T)
    requires x !in s
    ensures Count(s, x) == 0
  {
    if s != [] {
      assert forall k :: 0 <= k < |s| - 1 ==> s[1..][k] == s[k + 1];
      CountAbsent(s[1..], x);
    }
  }

  /** In a sequence without repetitions, an element that occurs is counted once. */
  lemma {:induction false} CountDistinct<T>(s: seq<T>, x: T)
    requires forall i, j :: 0 <= i < j < |s| ==> s[i] != s[j]
    requires x in s
    ensures Count(s, x) == 1
  {
    if s[0] == x {
      assert x !in s[1..] by {
        forall k | 0 <= k < |s| - 1 ensures s[1..][k] != x {
          assert s[1..][k] == s[k + 1];
        }
      }
      CountAbsent(s[1..], x);
    } else {
      CountDistinct(s[1..], x);
    }
  }

  /** A log grown from `start` to `before` and then to `after` counts the two growths together. */
  lemma CountGrowth<T>(start: seq<T>, before: seq<T>, after: seq<T>, x: T)
    requires |start| <= |before| && before[..|start|] == start
    requires |before| <= |after| && after[..|before|] == before
    ensures |start| <= |after| && after[..|start|] == start
    ensures Count(after[|start|..], x) == Count(before[|start|..], x) + Count(after[|before|..], x)
  {
    assert after[|start|..] == before[|start|..] + after[|before|..];
    CountAppend(before[|start|..], after[|before|..], x);
  }
}
