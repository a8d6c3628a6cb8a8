/**
  Ordering of student records by name.  The store's `orderBy("name")` and the
  client's `localeCompare` are both engine- or locale-defined; both are
  modelled by one total preorder on names, lexicographic on character codes,
  and an insertion sort on it.
*/
module NameOrder {
  import opened Values

  /** `a` sorts no later than `b`. */
  predicate NameLe(a: string, b: string)
    decreases |a|
  {
    if a == [] then true
    else if b == [] then false
    else if a[0] != b[0] then a[0] < b[0]
    else NameLe(a[1..], b[1..])
  }

  lemma {:induction false} NameLeReflexive(a: string)
    ensures NameLe(a, a)
    decreases |a|
  {
    if a != [] { NameLeReflexive(a[1..]); }
  }

  lemma {:induction false} NameLeTotal(a: string, b: string)
    ensures NameLe(a, b) || NameLe(b, a)
    decreases |a|
  {
    if a != [] && b != [] && a[0] == b[0] { NameLeTotal(a[1..], b[1..]); }
  }

  lemma {:induction false} NameLeTransitive(a: string, b: string, c: string)
    requires NameLe(a, b) && NameLe(b, c)
    ensures NameLe(a, c)
    decreases |a|
  {
    if a != [] && b != [] && c != [] && a[0] == b[0] && b[0] == c[0] {
      NameLeTransitive(a[1..], b[1..], c[1..]);
    }
  }

  /** The sort key of a record: its `name`, or "" when it has no string name. */
  function NameOf(d: Doc): string {
    Text(d, "name")
  }

  predicate SortedByName(s: seq<Doc>) {
    forall i, j :: 0 <= i < j < |s| ==> NameLe(NameOf(s[i]), NameOf(s[j]))
  }

  /** Every record of `s` sorts no earlier than the name `n`. */
  predicate AllFrom(n: string, s: seq<Doc>) {
    forall j :: 0 <= j < |s| ==> NameLe(n, NameOf(s[j]))
  }

  lemma AllFromPermutation(n: string, x: Doc, s: seq<Doc>, r: seq<Doc>)
    requires AllFrom(n, s) && NameLe(n, NameOf(x))
    requires multiset(r) == multiset(s) + multiset{x}
    ensures AllFrom(n, r)
  {
    forall j | 0 <= j < |r| ensures NameLe(n, NameOf(r[j])) {
      assert r[j] in multiset(r);
      if r[j] != x {
        assert r[j] in multiset(s);
        var k :| 0 <= k < |s| && s[k] == r[j];
      }
    }
  }

  /** Inserts `x` before the first element that does not sort before it. */
  function InsertByName(x: Doc, s: seq<Doc>): (r: seq<Doc>)
    requires SortedByName(s)
    ensures SortedByName(r)
    ensures multiset(r) == multiset(s) + multiset{x}
  {
    if s == [] then [x]
    else if NameLe(NameOf(x), NameOf(s[0])) then
      InsertFront(x, s);
      [x] + s
    else
      var rest := InsertByName(x, s[1..]);
      InsertBehind(x, s, rest);
      [s[0]] + rest
  }

  lemma InsertFront(x: Doc, s: seq<Doc>)
    requires SortedByName(s) && s != [] && NameLe(NameOf(x), NameOf(s[0]))
    ensures SortedByName([x] + s)
  {
    forall j | 0 < j < |s| ensures NameLe(NameOf(x), NameOf(s[j])) {
      NameLeTransitive(NameOf(x), NameOf(s[0]), NameOf(s[j]));
    }
  }

  lemma InsertBehind(x: Doc, s: seq<Doc>, rest: seq<Doc>)
    requires SortedByName(s) && s != [] && !NameLe(NameOf(x), NameOf(s[0]))
    requires SortedByName(rest) && multiset(rest) == multiset(s[1..]) + multiset{x}
    ensures SortedByName([s[0]] + rest)
    ensures multiset([s[0]] + rest) == multiset(s) + multiset{x}
  {
    NameLeTotal(NameOf(x), NameOf(s[0]));
    AllFromPermutation(NameOf(s[0]), x, s[1..], rest);
    assert s == [s[0]] + s[1..];
  }

  /** Insertion sort by name: a name-sorted permutation of the records. */
  function SortByName(s: seq<Doc>): (r: seq<Doc>)
    ensures SortedByName(r)
    ensures multiset(r) == multiset(s)
  {
    if s == [] then []
    else
      assert s == [s[0]] + s[1..];
      InsertByName(s[0], SortByName(s[1..]))
  }
}
