/** Sequence combinators standing for the JavaScript array methods the todo
    component uses (`Array.prototype.filter` and `Array.prototype.map`), with
    the facts about them that every transition of the component relies on. */
module Seqs {

  /** `a` is `b` with some elements left out: the elements of `a` occur in
      `b` in the same relative order. */
  ghost predicate IsSubsequence<T>(a: seq<T>, b: seq<T>)
    decreases |b|
  {
    || a == []
    || (&& b != []
        && (|| (a[0] == b[0] && IsSubsequence(a[1..], b[1..]))
            || IsSubsequence(a, b[1..])))
  }

  /** `s.filter(p)`: the elements of `s` satisfying `p`, in their order. */
  function Filter<T(!new)>(p: T -> bool, s: seq<T>): (r: seq<T>)
    ensures |r| <= |s|
    ensures IsSubsequence(r, s)
    ensures forall x :: x in r <==> x in s && p(x)
    ensures (forall i :: 0 <= i < |s| ==> p(s[i])) ==> r == s
    decreases |s|
  {
    if s == [] then []
    else
      assert s == [s[0]] + s[1..];
      var rest := Filter(p, s[1..]);
      if p(s[0]) then [s[0]] + rest else rest
  }

  /** Filtering keeps every element satisfying `p` as often as it occurs,
      and no other element. */
  lemma {:induction false} FilterMultiplicity<T(!new)>(p: T -> bool, s: seq<T>)
    ensures forall x :: multiset(Filter(p, s))[x] == if p(x) then multiset(s)[x] else 0
    decreases |s|
  {
    if s != [] {
      FilterMultiplicity(p, s[1..]);
      assert s == [s[0]] + s[1..];
    }
  }

  /** `s.map(f)`: `f` applied to every element of `s`, in place. */
  function Map<A, B>(f: A -> B, s: seq<A>): (r: seq<B>)
    ensures |r| == |s|
    ensures forall i :: 0 <= i < |s| ==> r[i] == f(s[i])
    decreases |s|
  {
    if s == [] then [] else [f(s[0])] + Map(f, s[1..])
  }

  /** Interleaves `a` and `b` along `pattern`: a `false` takes the next
      element of `a`, a `true` the next element of `b`. Used to say that two
      filtered views put back together give the original sequence. */
  function Weave<T>(pattern: seq<bool>, a: seq<T>, b: seq<T>): (r: seq<T>)
    decreases |pattern|
  {
    if pattern == [] then []
    else if !pattern[0] && a != [] then [a[0]] + Weave(pattern[1..], a[1..], b)
    else if pattern[0] && b != [] then [b[0]] + Weave(pattern[1..], a, b[1..])
    else []
  }

  /** Every element of a subsequence is an element of the whole. */
  lemma {:induction false} SubsequenceMembers<T>(a: seq<T>, b: seq<T>)
    requires IsSubsequence(a, b)
    ensures forall x :: x in a ==> x in b
    decreases |b|
  {
    if a != [] {
      if a[0] == b[0] && IsSubsequence(a[1..], b[1..]) {
        SubsequenceMembers(a[1..], b[1..]);
        forall x | x in a ensures x in b {
          if x != a[0] {
            assert x in a[1..];
          }
        }
      } else {
        SubsequenceMembers(a, b[1..]);
      }
    }
  }

  /** A subsequence is never longer than the whole. */
  lemma {:induction false} SubsequenceNoLonger<T>(a: seq<T>, b: seq<T>)
    requires IsSubsequence(a, b)
    ensures |a| <= |b|
    decreases |b|
  {
    if a != [] {
      if a[0] == b[0] && IsSubsequence(a[1..], b[1..]) {
        SubsequenceNoLonger(a[1..], b[1..]);
      } else {
        SubsequenceNoLonger(a, b[1..]);
      }
    }
  }

  /** A subsequence as long as the whole is the whole. */
  lemma {:induction false} SubsequenceOfSameLength<T>(a: seq<T>, b: seq<T>)
    requires IsSubsequence(a, b)
    ensures |a| == |b| <==> a == b
    decreases |b|
  {
    if a != [] {
      if a[0] == b[0] && IsSubsequence(a[1..], b[1..]) {
        SubsequenceOfSameLength(a[1..], b[1..]);
        if |a| == |b| {
          assert a == [a[0]] + a[1..] && b == [b[0]] + b[1..];
        }
      } else {
        SubsequenceNoLonger(a, b[1..]);
      }
    }
  }

  /** Every sequence is a subsequence of itself. */
  lemma {:induction false} SubsequenceReflexive<T>(s: seq<T>)
    ensures IsSubsequence(s, s)
    decreases |s|
  {
    if s != [] {
      SubsequenceReflexive(s[1..]);
    }
  }

  /** Splitting `s` with `p` and its negation `q`, and weaving the two
      parts back along the values of `p`, gives `s` again. */
  lemma {:induction false} FilterWeave<T(!new)>(p: T -> bool, q: T -> bool, s: seq<T>)
    requires forall x :: q(x) == !p(x)
    ensures Weave(Map(p, s), Filter(q, s), Filter(p, s)) == s
    decreases |s|
  {
    if s != [] {
      var x, rest := s[0], s[1..];
      FilterWeave(p, q, rest);
      assert Map(p, s) == [p(x)] + Map(p, rest);
      if p(x) {
        assert Filter(q, s) == Filter(q, rest);
        assert Filter(p, s) == [x] + Filter(p, rest);
      } else {
        assert Filter(q, s) == [x] + Filter(q, rest);
        assert Filter(p, s) == Filter(p, rest);
      }
      assert s == [x] + rest;
    }
  }
}
