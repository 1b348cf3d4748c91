/** Generic facts about sequences used by the catalog queries: duplicate-free
    sequences, first occurrences, order-preserving subsequences, and the
    insertion-ordered de-duplication that a JavaScript `Set` performs. */
module Seqs {

  /** No element occurs twice. */
  predicate NoDups<T(==)>(xs: seq<T>) {
    forall i, j :: 0 <= i < j < |xs| ==> xs[i] != xs[j]
  }

  /** The position of the first occurrence of `x` in `xs`. */
  function FirstIndex<T(==)>(xs: seq<T>, x: T): (k: nat)
    requires x in xs
    ensures k < |xs| && xs[k] == x
    ensures x !in xs[..k]
  {
    if xs[0] == x then 0
    else
      var k := 1 + FirstIndex(xs[1..], x);
      assert xs[..k] == [xs[0]] + xs[1..][..k - 1];
      k
  }

  /** Any index that holds `x` and has no earlier `x` is the first index. */
  lemma FirstIndexUnique<T>(xs: seq<T>, x: T, k: nat)
    requires k < |xs| && xs[k] == x && x !in xs[..k]
    ensures FirstIndex(xs, x) == k
  {
  }

  /** Appending an element does not move the first occurrence of anything
      already present. */
  lemma FirstIndexAppend<T>(xs: seq<T>, y: T, x: T)
    requires x in xs
    ensures FirstIndex(xs + [y], x) == FirstIndex(xs, x)
  {
    var k := FirstIndex(xs, x);
    assert (xs + [y])[..k] == xs[..k];
    FirstIndexUnique(xs + [y], x, k);
  }

  /** The elements of `xs` with repeats dropped, each kept at its first
      occurrence: what `Array.from(new Set(xs))` yields, since a `Set`
      iterates in insertion order and ignores re-insertion. */
  function Distinct<T(==)>(xs: seq<T>): (r: seq<T>)
    ensures NoDups(r)
    ensures forall i :: 0 <= i < |r| ==> r[i] in xs
    ensures forall i :: 0 <= i < |xs| ==> xs[i] in r
    ensures forall i, j :: 0 <= i < j < |r| ==> FirstIndex(xs, r[i]) < FirstIndex(xs, r[j])
  {
    if |xs| == 0 then []
    else
      var init := xs[..|xs| - 1];
      var x := xs[|xs| - 1];
      assert xs == init + [x];
      var d := Distinct(init);
      DistinctStep(init, x, d);
      if x in d then d else d + [x]
  }

  /** The inductive step of `Distinct`: adding the next element of the input
      keeps the first-occurrence order. */
  lemma DistinctStep<T>(init: seq<T>, x: T, d: seq<T>)
    requires NoDups(d)
    requires forall i :: 0 <= i < |d| ==> d[i] in init
    requires forall i :: 0 <= i < |init| ==> init[i] in d
    requires forall i, j :: 0 <= i < j < |d| ==> FirstIndex(init, d[i]) < FirstIndex(init, d[j])
    ensures x in d ==> forall i, j :: 0 <= i < j < |d| ==> FirstIndex(init + [x], d[i]) < FirstIndex(init + [x], d[j])
    ensures x !in d ==> NoDups(d + [x])
    ensures x !in d ==> forall i, j :: 0 <= i < j < |d + [x]| ==> FirstIndex(init + [x], (d + [x])[i]) < FirstIndex(init + [x], (d + [x])[j])
  {
    var xs := init + [x];
    forall y | y in init
      ensures FirstIndex(xs, y) == FirstIndex(init, y)
    {
      FirstIndexAppend(init, x, y);
    }
    if x !in d {
      var r := d + [x];
      assert x !in init;
      assert xs[..|init|] == init;
      FirstIndexUnique(xs, x, |init|);
      forall i, j | 0 <= i < j < |r|
        ensures FirstIndex(xs, r[i]) < FirstIndex(xs, r[j])
      {
        if j == |d| {
          assert r[i] == d[i] && d[i] in init;
        } else {
          assert r[i] == d[i] && r[j] == d[j];
        }
      }
    }
  }

  /** Strictly increasing first-occurrence order over `xs`. */
  predicate FirstOccurrenceOrdered<T(==)>(xs: seq<T>, a: seq<T>) {
    && (forall i :: 0 <= i < |a| ==> a[i] in xs)
    && (forall i, j :: 0 <= i < j < |a| ==> FirstIndex(xs, a[i]) < FirstIndex(xs, a[j]))
  }

  /** Dropping the head keeps a sequence ordered. */
  lemma OrderedTail<T>(xs: seq<T>, a: seq<T>)
    requires |a| > 0 && FirstOccurrenceOrdered(xs, a)
    ensures FirstOccurrenceOrdered(xs, a[1..])
    ensures a[0] !in a[1..]
  {
    assert forall k :: 0 <= k < |a| - 1 ==> a[1..][k] == a[k + 1];
  }

  /** Two ordered sequences holding the same elements start alike. */
  lemma OrderedHeads<T>(xs: seq<T>, a: seq<T>, b: seq<T>)
    requires |a| > 0 && |b| > 0
    requires FirstOccurrenceOrdered(xs, a) && FirstOccurrenceOrdered(xs, b)
    requires forall x :: x in a <==> x in b
    ensures a[0] == b[0]
  {
    assert a[0] in b;
    var j :| 0 <= j < |b| && b[j] == a[0];
    assert b[0] in a;
    var i :| 0 <= i < |a| && a[i] == b[0];
  }

  /** Two sequences of elements of `xs` that hold the same elements, each in
      strictly increasing order of first occurrence in `xs`, are equal. */
  lemma {:induction false} FirstOccurrenceOrderUnique<T>(xs: seq<T>, a: seq<T>, b: seq<T>)
    requires FirstOccurrenceOrdered(xs, a) && FirstOccurrenceOrdered(xs, b)
    requires forall x :: x in a <==> x in b
    ensures a == b
    decreases |a|
  {
    assert |a| > 0 ==> a[0] in b;
    assert |b| > 0 ==> b[0] in a;
    if |a| > 0 && |b| > 0 {
      OrderedHeads(xs, a, b);
      OrderedTail(xs, a);
      OrderedTail(xs, b);
      var a', b' := a[1..], b[1..];
      forall x
        ensures x in a' <==> x in b'
      {
        assert x in a <==> x in a' || x == a[0];
        assert x in b <==> x in b' || x == b[0];
      }
      FirstOccurrenceOrderUnique(xs, a', b');
      assert a == [a[0]] + a' && b == [b[0]] + b';
    }
  }

  /** `Distinct` is the only duplicate-free listing of the elements of `xs`
      in first-occurrence order. */
  lemma DistinctUnique<T>(xs: seq<T>, r: seq<T>)
    requires forall i :: 0 <= i < |xs| ==> xs[i] in r
    requires FirstOccurrenceOrdered(xs, r)
    ensures Distinct(xs) == r
  {
    var d := Distinct(xs);
    forall x
      ensures x in d <==> x in r
    {
      if x in d {
        var k :| 0 <= k < |d| && d[k] == x;
        assert d[k] in xs;
        var m :| 0 <= m < |xs| && xs[m] == x;
        assert xs[m] in r;
      }
      if x in r {
        var k :| 0 <= k < |r| && r[k] == x;
        var m :| 0 <= m < |xs| && xs[m] == x;
        assert xs[m] in d;
      }
    }
    assert FirstOccurrenceOrdered(xs, d);
    FirstOccurrenceOrderUnique(xs, d, r);
  }

  /** `a` can be obtained from `b` by deleting elements, keeping the order of
      the rest. */
  predicate IsSubseq<T(==)>(a: seq<T>, b: seq<T>)
    decreases |b|
  {
    if |a| == 0 then true
    else if |b| == 0 then false
    else (a[0] == b[0] && IsSubseq(a[1..], b[1..])) || IsSubseq(a, b[1..])
  }

  /** Every element of a subsequence is an element of the whole. */
  lemma {:induction false} SubseqMembers<T>(a: seq<T>, b: seq<T>, x: T)
    requires IsSubseq(a, b)
    requires x in a
    ensures x in b
    decreases |b|
  {
    if a[0] == b[0] && IsSubseq(a[1..], b[1..]) {
      if x != a[0] {
        assert x in a[1..];
        SubseqMembers(a[1..], b[1..], x);
      }
    } else {
      SubseqMembers(a, b[1..], x);
    }
  }
}
