/** Sums over consecutive pairs of a sequence: the shape shared by the
    distance accumulator (legs between consecutive positions) and the
    elevation accumulator (rises between consecutive elevations). */
module Pairs {

  /** f(s[0], s[1]) + f(s[1], s[2]) + ... + f(s[|s|-2], s[|s|-1]); zero for
      fewer than two elements. Unfolds from the back, the order in which a
      loop that remembers the previous element adds its terms. */
  function PairSum<T>(f: (T, T) -> real, s: seq<T>): real
    decreases |s|
  {
    if |s| < 2 then 0.0 else PairSum(f, s[..|s| - 1]) + f(s[|s| - 2], s[|s| - 1])
  }

  /** Appending one element adds the pair it forms with the previous last
      element, if there is one. */
  lemma PairSumSnoc<T>(f: (T, T) -> real, s: seq<T>, x: T)
    ensures PairSum(f, s + [x]) == PairSum(f, s) + (if |s| > 0 then f(s[|s| - 1], x) else 0.0)
  {
    if |s| > 0 {
      assert (s + [x])[..|s|] == s;
    }
  }

  ghost predicate NonNegative<T(!new)>(f: (T, T) -> real) {
    forall x, y :: f(x, y) >= 0.0
  }

  ghost predicate Symmetric<T(!new)>(f: (T, T) -> real) {
    forall x, y :: f(x, y) == f(y, x)
  }

  function Reverse<T>(s: seq<T>): seq<T> {
    seq(|s|, i requires 0 <= i < |s| => s[|s| - 1 - i])
  }

  /** Concatenating two non-empty sequences adds exactly one pair: the one
      bridging the last element of `a` and the first of `b`. */
  lemma {:induction false} PairSumSplit<T>(f: (T, T) -> real, a: seq<T>, b: seq<T>)
    requires |a| > 0 && |b| > 0
    ensures PairSum(f, a + b) == PairSum(f, a) + f(a[|a| - 1], b[0]) + PairSum(f, b)
  {
    if |b| == 1 {
      assert (a + b)[..|a + b| - 1] == a;
    } else {
      var b' := b[..|b| - 1];
      PairSumSplit(f, a, b');
      assert (a + b)[..|a + b| - 1] == a + b';
    }
  }

  lemma {:induction false} PairSumNonNegative<T(!new)>(f: (T, T) -> real, s: seq<T>)
    requires NonNegative(f)
    ensures PairSum(f, s) >= 0.0
  {
    if |s| >= 2 {
      PairSumNonNegative(f, s[..|s| - 1]);
    }
  }

  /** With a symmetric f, walking the sequence backwards visits the same
      pairs and gives the same sum. */
  lemma {:induction false} PairSumReverse<T(!new)>(f: (T, T) -> real, s: seq<T>)
    requires Symmetric(f)
    ensures PairSum(f, Reverse(s)) == PairSum(f, s)
  {
    if |s| >= 2 {
      var r := Reverse(s);
      assert r[..|r| - 1] == Reverse(s[1..]);
      PairSumReverse(f, s[1..]);
      PairSumSplit(f, s[..1], s[1..]);
      assert s[..1] + s[1..] == s;
    }
  }
}
