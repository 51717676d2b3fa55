/** Facts about sequences used by the proofs of several modules. */
module Sequences {
  /** `x` and `x + w` around the element at `i`. */
  lemma CutAround<T>(x: seq<T>, w: seq<T>, i: nat)
    requires i < |x|
    ensures x == x[..i] + [x[i]] + x[i + 1..]
    ensures x + w == x[..i] + [x[i]] + (x[i + 1..] + w)
  {
  }

  /** The front and last element of a sequence with one more element at its head. */
  lemma ConsFront<T>(a: T, r: seq<T>)
    requires |r| >= 1
    ensures |[a] + r| == |r| + 1
    ensures ([a] + r)[..|r|] == [a] + r[..|r| - 1]
    ensures ([a] + r)[|r|] == r[|r| - 1]
  {
  }

  /** Nothing in front of a concatenation changes it. */
  lemma EmptyPlus<T>(x: seq<T>, y: seq<T>)
    ensures [] + x + y == x + y
  {
  }

  /** Something in none of three sequences is not in their concatenation. */
  lemma NotInConcat<T>(c: T, x: seq<T>, y: seq<T>, z: seq<T>)
    requires c !in x && c !in y && c !in z
    ensures c !in x + y + z && c !in x + y
  {
  }

  /** A non-empty sequence is its front followed by its last element. */
  lemma SeqSnoc<T>(s: seq<T>)
    requires |s| >= 1
    ensures s == s[..|s| - 1] + [s[|s| - 1]]
  {
  }

  /** A sequence is its two halves around any cut. */
  lemma SplitAt<T>(s: seq<T>, i: nat)
    requires i <= |s|
    ensures s[..i] + s[i..] == s
  {
  }

  /** A sequence is its two halves around any cut, with nothing after. */
  lemma SplitAtThenEmpty<T>(s: seq<T>, i: nat)
    requires i <= |s|
    ensures s[..i] + s[i..] + [] == s
  {
  }

  /** Sequences that agree at every index are equal. */
  lemma SeqExt<T>(a: seq<T>, b: seq<T>)
    requires |a| == |b| && forall i :: 0 <= i < |a| ==> a[i] == b[i]
    ensures a == b
  {
  }

  /** The multiset of a non-empty sequence is its head plus the multiset of its tail. */
  lemma MultisetCons<T>(s: seq<T>)
    requires |s| > 0
    ensures multiset(s) == multiset{s[0]} + multiset(s[1..])
  {
    assert s == [s[0]] + s[1..];
  }
}
