/** Searching a sequence from the front, as `findIndex` and early-exit loops do. */
module Seqs {

  /** Concatenation is associative (stated once, so that callers need not prove it on large terms). */
  lemma AppendAssoc<T>(a: seq<T>, b: seq<T>, c: seq<T>)
    ensures (a + b) + c == a + (b + c)
  {
  }

  /** The index of the first element of `s` that satisfies `p`, or the length of `s` when there is none. */
  function FirstIndex<T>(s: seq<T>, p: T -> bool): (n: nat)
    ensures n <= |s|
  {
    if s == [] || p(s[0]) then 0 else 1 + FirstIndex(s[1..], p)
  }

  /** No element before the first index satisfies `p`, and the element at it (if any) does. */
  lemma {:induction false} FirstIndexSpec<T>(s: seq<T>, p: T -> bool)
    ensures var n := FirstIndex(s, p);
            && (forall i :: 0 <= i < n ==> !p(s[i]))
            && (n < |s| ==> p(s[n]))
  {
    if s != [] && !p(s[0]) {
      FirstIndexSpec(s[1..], p);
      var n := FirstIndex(s[1..], p);
      forall i | 0 <= i < n + 1
        ensures !p(s[i])
      {
        if i > 0 {
          assert s[i] == s[1..][i - 1];
        }
      }
    }
  }

  /** An index before which nothing satisfies `p`, and at which the element does (or the end), is the first index. */
  lemma {:induction false} FirstIndexAt<T>(s: seq<T>, p: T -> bool, n: nat)
    requires n <= |s|
    requires forall i :: 0 <= i < n ==> !p(s[i])
    requires n < |s| ==> p(s[n])
    ensures FirstIndex(s, p) == n
  {
    if n > 0 {
      assert !p(s[0]);
      assert forall i :: 0 <= i < n - 1 ==> s[1..][i] == s[i + 1];
      FirstIndexAt(s[1..], p, n - 1);
    }
  }

  /** Walking `s` from the front: an element that fails `p` before the first index lets the walk go on. */
  lemma FirstIndexPast<T>(s: seq<T>, p: T -> bool, i: nat)
    requires i < |s| && i <= FirstIndex(s, p) && !p(s[i])
    ensures i < FirstIndex(s, p)
  {
    FirstIndexSpec(s, p);
  }

  /** Walking `s` from the front: the first element met that satisfies `p` is at the first index. */
  lemma FirstIndexHit<T>(s: seq<T>, p: T -> bool, i: nat)
    requires i < |s| && i <= FirstIndex(s, p) && p(s[i])
    ensures i == FirstIndex(s, p)
  {
    FirstIndexSpec(s, p);
  }

  /** The index of the first occurrence of `x` in `xs`. */
  function Position<T(==)>(xs: seq<T>, x: T): (i: nat)
    requires x in xs
    ensures i < |xs| && xs[i] == x
    ensures forall j :: 0 <= j < i ==> xs[j] != x
  {
    if xs[0] == x then 0 else 1 + Position(xs[1..], x)
  }

  /** Appending to a sequence does not move the first occurrence of anything already in it. */
  lemma PositionSnoc<T>(xs: seq<T>, y: T, x: T)
    requires x in xs
    ensures Position(xs + [y], x) == Position(xs, x)
  {
    var a, b := Position(xs + [y], x), Position(xs, x);
    assert (xs + [y])[b] == x;
  }
}
