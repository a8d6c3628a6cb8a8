/**
  Deduplication in first-appearance order: what `Array.from(new Set(xs))`
  yields, since a JavaScript `Set` iterates in insertion order and ignores a
  value it already holds.
*/
module Distinct {

  ghost predicate NoDuplicates<T>(s: seq<T>) {
    forall i, j :: 0 <= i < j < |s| ==> s[i] != s[j]
  }

  /** Keeps the first occurrence of each value, in order. */
  function Dedup<T(==)>(xs: seq<T>): seq<T>
    decreases |xs|
  {
    if xs == [] then []
    else
      var d := Dedup(xs[..|xs| - 1]);
      var x := xs[|xs| - 1];
      if x in d then d else d + [x]
  }

  /** The index of the first occurrence of `x` in `xs`. */
  function FirstIndex<T(==)>(xs: seq<T>, x: T): (k: nat)
    requires x in xs
    ensures k < |xs| && xs[k] == x
    ensures forall j :: 0 <= j < k ==> xs[j] != x
  {
    if xs[0] == x then 0 else 1 + FirstIndex(xs[1..], x)
  }

  lemma FirstIndexOfPrefix<T>(xs: seq<T>, n: nat, x: T)
    requires n <= |xs| && x in xs[..n]
    ensures x in xs && FirstIndex(xs, x) == FirstIndex(xs[..n], x)
  {
    var k := FirstIndex(xs[..n], x);
    var k' := FirstIndex(xs, x);
    assert xs[..n][k] == xs[k];
    assert k' <= k;
    assert xs[..n][k'] == xs[k'];
  }

  /**
    The deduplicated sequence has no repeats, holds exactly the values of
    `xs`, starts with `xs[0]`, and lists values in the order of their first
    appearance in `xs`.
  */
  lemma DedupSpec<T>(xs: seq<T>)
    ensures NoDuplicates(Dedup(xs))
    ensures forall x :: x in Dedup(xs) <==> x in xs
    ensures xs != [] ==> |Dedup(xs)| > 0 && Dedup(xs)[0] == xs[0]
    ensures forall i, j :: 0 <= i < j < |Dedup(xs)| ==>
              FirstIndex(xs, Dedup(xs)[i]) < FirstIndex(xs, Dedup(xs)[j])
  {
    DedupElements(xs);
    if xs != [] {
      DedupHead(xs);
    }
    DedupOrder(xs);
  }

  lemma {:induction false} DedupElements<T>(xs: seq<T>)
    ensures NoDuplicates(Dedup(xs))
    ensures forall x :: x in Dedup(xs) <==> x in xs
    decreases |xs|
  {
    if xs != [] {
      var p := xs[..|xs| - 1];
      DedupElements(p);
      assert xs == p + [xs[|xs| - 1]];
    }
  }

  lemma {:induction false} DedupHead<T>(xs: seq<T>)
    requires xs != []
    ensures |Dedup(xs)| > 0 && Dedup(xs)[0] == xs[0]
    decreases |xs|
  {
    var p := xs[..|xs| - 1];
    if p == [] {
      assert Dedup(xs) == [xs[0]];
    } else {
      DedupHead(p);
    }
  }

  lemma {:induction false} DedupOrder<T>(xs: seq<T>)
    ensures forall i, j :: 0 <= i < j < |Dedup(xs)| ==>
              Dedup(xs)[i] in xs && Dedup(xs)[j] in xs &&
              FirstIndex(xs, Dedup(xs)[i]) < FirstIndex(xs, Dedup(xs)[j])
    decreases |xs|
  {
    DedupElements(xs);
    if xs != [] {
      var n := |xs| - 1;
      var p := xs[..n];
      var x := xs[n];
      DedupOrder(p);
      DedupElements(p);
      assert xs == p + [x];
      var d := Dedup(p);
      forall y | y in p ensures FirstIndex(xs, y) == FirstIndex(p, y) {
        FirstIndexOfPrefix(xs, n, y);
      }
      if x !in d {
        assert x !in p;
        assert FirstIndex(xs, x) == n;
        forall i | 0 <= i < |d| ensures FirstIndex(xs, d[i]) < n {
          assert d[i] in d;
        }
      }
    }
  }

  /** Deduplicating `xs + [x]` is one step of the insertion-ordered set. */
  lemma DedupSnoc<T>(xs: seq<T>, x: T)
    ensures Dedup(xs + [x]) == if x in Dedup(xs) then Dedup(xs) else Dedup(xs) + [x]
  {
    assert (xs + [x])[..|xs|] == xs;
  }
}
