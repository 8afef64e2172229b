/** Order-preserving filtering of a sequence: the list comprehension
    `[x for x in xs if p(x)]` that several helpers of the core are built on. */
module Seqs {

  function Keep<T>(xs: seq<T>, p: T -> bool): (r: seq<T>)
    ensures |r| <= |xs|
    ensures forall i :: 0 <= i < |r| ==> p(r[i])
  {
    if xs == [] then []
    else (if p(xs[0]) then [xs[0]] else []) + Keep(xs[1..], p)
  }

  /** An element survives exactly when it was in the input and satisfies `p`. */
  lemma {:induction false} KeepMembers<T>(xs: seq<T>, p: T -> bool)
    ensures forall x :: x in Keep(xs, p) <==> x in xs && p(x)
  {
    if xs != [] {
      KeepMembers(xs[1..], p);
      assert xs == [xs[0]] + xs[1..];
    }
  }

  /** Filtering distributes over concatenation, so the relative order of the
      kept elements is that of the input. */
  lemma {:induction false} KeepAppend<T>(a: seq<T>, b: seq<T>, p: T -> bool)
    ensures Keep(a + b, p) == Keep(a, p) + Keep(b, p)
  {
    if a == [] {
      assert a + b == b;
    } else {
      assert (a + b)[1..] == a[1..] + b;
      KeepAppend(a[1..], b, p);
    }
  }

  /** Nothing is removed exactly when every element satisfies `p`, and then the
      result is the input itself. */
  lemma {:induction false} KeepNothingRemoved<T>(xs: seq<T>, p: T -> bool)
    ensures (forall i :: 0 <= i < |xs| ==> p(xs[i])) <==> |Keep(xs, p)| == |xs|
    ensures (forall i :: 0 <= i < |xs| ==> p(xs[i])) ==> Keep(xs, p) == xs
  {
    if xs != [] {
      KeepNothingRemoved(xs[1..], p);
      assert forall i :: 1 <= i < |xs| ==> xs[1..][i - 1] == xs[i];
      if !p(xs[0]) {
        assert |Keep(xs, p)| == |Keep(xs[1..], p)| <= |xs| - 1;
      } else {
        assert (forall i :: 0 <= i < |xs| ==> p(xs[i])) <==> (forall i :: 0 <= i < |xs[1..]| ==> p(xs[1..][i]));
      }
    }
  }

  /** Filtering twice is filtering once. */
  lemma KeepIdempotent<T>(xs: seq<T>, p: T -> bool)
    ensures Keep(Keep(xs, p), p) == Keep(xs, p)
  {
    KeepNothingRemoved(Keep(xs, p), p);
  }
}
