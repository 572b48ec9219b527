/** Sequence helpers: the model of `Array.prototype.filter`. */
module Seqs {

  /** `r` is an order-preserving subsequence of `s`. */
  ghost predicate IsSubsequence<T>(r: seq<T>, s: seq<T>)
    decreases |s|
  {
    if r == [] then true
    else if s == [] then false
    else (r[0] == s[0] && IsSubsequence(r[1..], s[1..])) || IsSubsequence(r, s[1..])
  }

  /** `r` is `s.filter(p)`: exactly the elements of `s` that satisfy `p`, each as often as in
      `s`, in their original order; a list whose every element satisfies `p` is kept whole. */
  ghost predicate Filtered<T(!new)>(r: seq<T>, s: seq<T>, p: T -> bool) {
    && |r| <= |s|
    && IsSubsequence(r, s)
    && (forall x :: multiset(r)[x] == if p(x) then multiset(s)[x] else 0)
    && (forall x :: x in r <==> x in s && p(x))
    && ((forall x :: x in s ==> p(x)) ==> r == s)
  }

  /** `s.filter(p)`. */
  function Filter<T(!new)>(s: seq<T>, p: T -> bool): (r: seq<T>)
    ensures Filtered(r, s, p)
    decreases |s|
  {
    if s == [] then []
    else
      var rest := Filter(s[1..], p);
      FilterStep(s, rest, p);
      if p(s[0]) then [s[0]] + rest else rest
  }

  /** The inductive step of `Filter`: keeping the head of `s` when it satisfies `p`, and
      dropping it otherwise, extends a filtering of the tail to one of `s`. */
  lemma FilterStep<T(!new)>(s: seq<T>, rest: seq<T>, p: T -> bool)
    requires s != [] && Filtered(rest, s[1..], p)
    ensures Filtered(if p(s[0]) then [s[0]] + rest else rest, s, p)
  {
    FilterStepCounts(s, rest, p);
    FilterStepMembers(s, rest, p);
    FilterStepOrder(s, rest, p);
  }

  /** The multiplicities part of `FilterStep`. */
  lemma FilterStepCounts<T>(s: seq<T>, rest: seq<T>, p: T -> bool)
    requires s != []
    requires forall y :: multiset(rest)[y] == if p(y) then multiset(s[1..])[y] else 0
    ensures var r := if p(s[0]) then [s[0]] + rest else rest;
      forall y :: multiset(r)[y] == if p(y) then multiset(s)[y] else 0
  {
    assert s == [s[0]] + s[1..];
    assert multiset(s) == multiset{s[0]} + multiset(s[1..]);
    assert multiset([s[0]] + rest) == multiset{s[0]} + multiset(rest);
  }

  /** The membership part of `FilterStep`. */
  lemma FilterStepMembers<T>(s: seq<T>, rest: seq<T>, p: T -> bool)
    requires s != []
    requires forall y :: y in rest <==> y in s[1..] && p(y)
    ensures forall y :: y in (if p(s[0]) then [s[0]] + rest else rest) <==> y in s && p(y)
  {
    assert s == [s[0]] + s[1..];
  }

  /** The order, length and identity part of `FilterStep`. */
  lemma FilterStepOrder<T>(s: seq<T>, rest: seq<T>, p: T -> bool)
    requires s != []
    requires |rest| <= |s[1..]| && IsSubsequence(rest, s[1..])
    requires (forall y :: y in s[1..] ==> p(y)) ==> rest == s[1..]
    ensures var r := if p(s[0]) then [s[0]] + rest else rest;
      && |r| <= |s|
      && IsSubsequence(r, s)
      && ((forall y :: y in s ==> p(y)) ==> r == s)
  {
    if p(s[0]) {
      assert ([s[0]] + rest)[0] == s[0] && ([s[0]] + rest)[1..] == rest;
    }
    if forall y :: y in s ==> p(y) {
      assert forall y :: y in s[1..] ==> y in s;
      assert s == [s[0]] + s[1..];
    }
  }

  /** Every element of a filtered list satisfies the predicate. */
  lemma FilterSatisfies<T(!new)>(s: seq<T>, p: T -> bool)
    ensures forall j :: 0 <= j < |Filter(s, p)| ==> p(Filter(s, p)[j])
  {
    var r := Filter(s, p);
    forall j | 0 <= j < |r| ensures p(r[j]) {
      assert r[j] in r;
    }
  }

  /** A property of every element of each part holds of the concatenation, part by part. */
  lemma ConcatSatisfies<T>(a: seq<T>, b: seq<T>, p: T -> bool, q: T -> bool)
    requires forall j :: 0 <= j < |a| ==> p(a[j])
    requires forall j :: 0 <= j < |b| ==> q(b[j])
    ensures forall j :: 0 <= j < |a| ==> p((a + b)[j])
    ensures forall j :: |a| <= j < |a + b| ==> q((a + b)[j])
  {
    forall j | |a| <= j < |a + b| ensures q((a + b)[j]) {
      assert (a + b)[j] == b[j - |a|];
    }
  }

  /** Dropping the first part of a concatenation leaves the second. */
  lemma ConcatDrop<T>(a: seq<T>, b: seq<T>)
    ensures (a + b)[|a|..] == b
  {
  }

  /** Every element of a subsequence occurs in the sequence. */
  lemma {:induction false} SubsequenceMembers<T>(r: seq<T>, s: seq<T>)
    requires IsSubsequence(r, s)
    ensures forall x :: x in r ==> x in s
    decreases |s|
  {
    if r != [] {
      assert s != [];
      if r[0] == s[0] && IsSubsequence(r[1..], s[1..]) {
        SubsequenceMembers(r[1..], s[1..]);
        assert forall x :: x in r ==> x == r[0] || x in r[1..];
      } else {
        SubsequenceMembers(r, s[1..]);
      }
    }
  }

  /** Filtering with two predicates that agree everywhere gives the same result. */
  lemma {:induction false} FilterCongruent<T(!new)>(s: seq<T>, p: T -> bool, q: T -> bool)
    requires forall x :: p(x) == q(x)
    ensures Filter(s, p) == Filter(s, q)
    decreases |s|
  {
    if s != [] {
      FilterCongruent(s[1..], p, q);
    }
  }

  /** No two elements of `s` have the same key. */
  ghost predicate DistinctBy<T, K>(s: seq<T>, key: T -> K) {
    forall i, j :: 0 <= i < j < |s| ==> key(s[i]) != key(s[j])
  }

  /** A subsequence of a list with distinct keys has distinct keys. */
  lemma {:induction false} SubsequenceKeepsDistinct<T, K>(r: seq<T>, s: seq<T>, key: T -> K)
    requires IsSubsequence(r, s)
    requires DistinctBy(s, key)
    ensures DistinctBy(r, key)
    decreases |s|
  {
    if r != [] {
      assert s != [];
      assert DistinctBy(s[1..], key) by {
        forall i, j | 0 <= i < j < |s[1..]| ensures key(s[1..][i]) != key(s[1..][j]) {
          assert s[1..][i] == s[i + 1] && s[1..][j] == s[j + 1];
        }
      }
      if r[0] == s[0] && IsSubsequence(r[1..], s[1..]) {
        SubsequenceKeepsDistinct(r[1..], s[1..], key);
        SubsequenceMembers(r[1..], s[1..]);
        forall i, j | 0 <= i < j < |r| ensures key(r[i]) != key(r[j]) {
          if i == 0 {
            assert r[j] == r[1..][j - 1] && r[1..][j - 1] in r[1..];
            var m :| 0 <= m < |s[1..]| && s[1..][m] == r[j];
            assert s[m + 1] == r[j];
          } else {
            assert r[i] == r[1..][i - 1] && r[j] == r[1..][j - 1];
          }
        }
      } else {
        SubsequenceKeepsDistinct(r, s[1..], key);
      }
    }
  }

  /** Two lists with distinct keys and no key in common concatenate to one with distinct keys. */
  lemma ConcatKeepsDistinct<T, K>(a: seq<T>, b: seq<T>, key: T -> K)
    requires DistinctBy(a, key) && DistinctBy(b, key)
    requires forall x, y :: x in a && y in b ==> key(x) != key(y)
    ensures DistinctBy(a + b, key)
  {
    forall i, j | 0 <= i < j < |a + b| ensures key((a + b)[i]) != key((a + b)[j]) {
      if j < |a| {
      } else if i >= |a| {
        assert (a + b)[i] == b[i - |a|] && (a + b)[j] == b[j - |a|];
      } else {
        assert (a + b)[i] in a && (a + b)[j] == b[j - |a|] && b[j - |a|] in b;
      }
    }
  }
}
