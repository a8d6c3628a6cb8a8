/**
  Order-preserving selection: `s` is a subsequence of `t` when it is `t`
  with some elements left out and the rest in their original order.  A
  filter's result is fixed by two facts: which elements it keeps, with how
  many copies (a multiset statement), and that it is a subsequence of its
  input.
*/
module Subsequences {

  /** `s` is `t` with some elements left out, the rest in order (matched greedily from the front). */
  predicate IsSubsequence<T(==)>(s: seq<T>, t: seq<T>)
    decreases |t|
  {
    if s == [] then true
    else if t == [] then false
    else if s[0] == t[0] then IsSubsequence(s[1..], t[1..])
    else IsSubsequence(s, t[1..])
  }

  /** Keeping an element in front of a subsequence keeps it a subsequence. */
  lemma KeepFront<T>(x: T, s: seq<T>, t: seq<T>)
    requires IsSubsequence(s, t)
    ensures IsSubsequence([x] + s, [x] + t)
  {
    assert ([x] + s)[1..] == s;
    assert ([x] + t)[1..] == t;
  }

  /**
    Leaving out a front element `x` keeps a subsequence, provided the
    subsequence does not start with `x` (as in a filter that rejected `x`).
  */
  lemma DropFront<T>(x: T, s: seq<T>, t: seq<T>)
    requires IsSubsequence(s, t)
    requires s != [] ==> s[0] != x
    ensures IsSubsequence(s, [x] + t)
  {
    assert ([x] + t)[1..] == t;
  }

  /** A subsequence stays one when the sequence grows at the end. */
  lemma {:induction false} ExtendBack<T>(s: seq<T>, t: seq<T>, x: T)
    requires IsSubsequence(s, t)
    ensures IsSubsequence(s, t + [x])
    decreases |t|
  {
    if s != [] {
      assert t != [];
      assert (t + [x])[0] == t[0] && (t + [x])[1..] == t[1..] + [x];
      if s[0] == t[0] {
        ExtendBack(s[1..], t[1..], x);
      } else {
        ExtendBack(s, t[1..], x);
      }
    }
  }

  /** Appending the same element to both keeps a subsequence. */
  lemma {:induction false} KeepBack<T>(s: seq<T>, t: seq<T>, x: T)
    requires IsSubsequence(s, t)
    ensures IsSubsequence(s + [x], t + [x])
    decreases |t|
  {
    if t == [] {
      assert s == [];
      assert IsSubsequence(([] + [x])[1..], ([] + [x])[1..]);
    } else {
      assert (t + [x])[0] == t[0] && (t + [x])[1..] == t[1..] + [x];
      if s == [] {
        if x != t[0] {
          KeepBack(s, t[1..], x);
        } else {
          assert ([] + [x])[1..] == [];
        }
      } else {
        assert (s + [x])[0] == s[0] && (s + [x])[1..] == s[1..] + [x];
        if s[0] == t[0] {
          KeepBack(s[1..], t[1..], x);
        } else {
          KeepBack(s, t[1..], x);
        }
      }
    }
  }
}
