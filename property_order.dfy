/** The order in which `Object.values` lists the properties of a plain object: first the
    properties whose key is an array index, in ascending numeric order, then the others in
    the order they were created (section 10.1.11.1 of ECMA-262, OrdinaryOwnPropertyKeys). */
module PropertyOrder {
  import opened Seqs
  import opened Grouping

  predicate IsDigit(c: char) {
    '0' <= c <= '9'
  }

  /** The value of a string of decimal digits. */
  function DecimalValue(s: string): nat
    decreases |s|
  {
    if s == [] then 0
    else DecimalValue(s[..|s| - 1]) * 10 + (s[|s| - 1] as int - '0' as int) % 10
  }

  /** Every character is a decimal digit. */
  predicate AllDigits(s: string)
    decreases |s|
  {
    s == [] || (IsDigit(s[0]) && AllDigits(s[1..]))
  }

  /** An array index: the canonical decimal form (no sign, no leading zero) of an integer
      from 0 to 2^32 - 2. */
  predicate IsArrayIndex(s: string) {
    && |s| > 0
    && AllDigits(s)
    && (s[0] != '0' || |s| == 1)
    && DecimalValue(s) < 0xFFFF_FFFF
  }

  /** A property whose key is an array index. */
  predicate IsIndexGroup(g: Group) {
    IsArrayIndex(g.key)
  }

  /** A property whose key is not an array index. */
  predicate IsNamedGroup(g: Group) {
    IsNamedKey(g.key)
  }

  /** A key that is not an array index. */
  predicate IsNamedKey(k: string) {
    !IsArrayIndex(k)
  }

  /** The numeric value of a group's key. */
  function IndexOf(g: Group): nat {
    DecimalValue(g.key)
  }

  ghost predicate SortedByIndex(gs: seq<Group>) {
    forall i, j :: 0 <= i < j < |gs| ==> IndexOf(gs[i]) <= IndexOf(gs[j])
  }

  /** Insertion of one group into a list sorted by index. */
  function InsertByIndex(x: Group, s: seq<Group>): (r: seq<Group>)
    ensures |r| == |s| + 1
    ensures multiset(r) == multiset(s) + multiset{x}
    ensures Total(r) == Total(s) + x.jumlah
    decreases |s|
  {
    if s == [] then [x]
    else if IndexOf(x) <= IndexOf(s[0]) then [x] + s
    else
      assert s == [s[0]] + s[1..];
      [s[0]] + InsertByIndex(x, s[1..])
  }

  /** A group no larger than every element of a sorted list can be put in front of it. */
  lemma ConsKeepsSorted(h: Group, s: seq<Group>)
    requires SortedByIndex(s)
    requires forall g :: g in s ==> IndexOf(h) <= IndexOf(g)
    ensures SortedByIndex([h] + s)
  {
    var r := [h] + s;
    forall i, j | 0 <= i < j < |r| ensures IndexOf(r[i]) <= IndexOf(r[j]) {
      if i == 0 {
        assert r[j] == s[j - 1] && s[j - 1] in s;
      } else {
        assert r[i] == s[i - 1] && r[j] == s[j - 1];
      }
    }
  }

  /** Insertion keeps a list sorted. */
  lemma {:induction false} InsertKeepsSorted(x: Group, s: seq<Group>)
    requires SortedByIndex(s)
    ensures SortedByIndex(InsertByIndex(x, s))
    decreases |s|
  {
    if s == [] {
    } else if IndexOf(x) <= IndexOf(s[0]) {
      assert forall g :: g in s ==> IndexOf(x) <= IndexOf(g) by {
        forall g | g in s ensures IndexOf(x) <= IndexOf(g) {
          var m :| 0 <= m < |s| && s[m] == g;
          assert m == 0 || IndexOf(s[0]) <= IndexOf(s[m]);
        }
      }
      ConsKeepsSorted(x, s);
    } else {
      var rest := InsertByIndex(x, s[1..]);
      assert SortedByIndex(rest) by {
        assert SortedByIndex(s[1..]) by {
          forall i, j | 0 <= i < j < |s[1..]| ensures IndexOf(s[1..][i]) <= IndexOf(s[1..][j]) {
            assert s[1..][i] == s[i + 1] && s[1..][j] == s[j + 1];
          }
        }
        InsertKeepsSorted(x, s[1..]);
      }
      assert forall g :: g in rest ==> IndexOf(s[0]) <= IndexOf(g) by {
        forall g | g in rest ensures IndexOf(s[0]) <= IndexOf(g) {
          assert g in multiset(rest);
          if g != x {
            assert g in s[1..];
            var m :| 0 <= m < |s[1..]| && s[1..][m] == g;
            assert s[m + 1] == g;
          }
        }
      }
      ConsKeepsSorted(s[0], rest);
    }
  }

  /** Insertion sort by index. */
  function SortByIndex(s: seq<Group>): (r: seq<Group>)
    ensures |r| == |s|
    ensures multiset(r) == multiset(s)
    ensures SortedByIndex(r)
    ensures Total(r) == Total(s)
    decreases |s|
  {
    if s == [] then []
    else
      assert s == [s[0]] + s[1..];
      var rest := SortByIndex(s[1..]);
      InsertKeepsSorted(s[0], rest);
      InsertByIndex(s[0], rest)
  }

  /** `Object.values(acc)` for an accumulator whose properties were created in the order of
      `acc`. It lists every property exactly once, so it keeps the total and the distinctness
      of the keys. */
  function ObjectValues(acc: seq<Group>): (r: seq<Group>)
    ensures multiset(r) == multiset(acc)
    ensures Total(r) == Total(acc)
    ensures DistinctBy(acc, GroupKey) ==> DistinctBy(r, GroupKey)
  {
    var r := SortByIndex(Filter(acc, IsIndexGroup)) + Filter(acc, IsNamedGroup);
    SplitPermutes(acc);
    PermutationKeepsDistinct(r, acc);
    r
  }

  /** The two filters split the totals. */
  lemma {:induction false} TotalSplit(acc: seq<Group>)
    ensures Total(Filter(acc, IsIndexGroup)) + Total(Filter(acc, IsNamedGroup)) == Total(acc)
    decreases |acc|
  {
    if acc != [] {
      TotalSplit(acc[1..]);
    }
  }

  /** In a list with distinct keys every element occurs once. */
  lemma DistinctOccursOnce(s: seq<Group>, a: int)
    requires DistinctBy(s, GroupKey)
    requires 0 <= a < |s|
    ensures multiset(s)[s[a]] == 1
  {
    assert s == s[..a] + [s[a]] + s[a + 1..];
    forall m | 0 <= m < |s| && m != a ensures s[m] != s[a] {
      assert GroupKey(s[m]) != GroupKey(s[a]) by {
        if m < a { } else { }
      }
    }
    assert forall k :: 0 <= k < a ==> s[..a][k] == s[k];
    var tail := s[a + 1..];
    assert forall k :: 0 <= k < |tail| ==> tail[k] == s[a + 1 + k];
  }

  /** An element at two positions occurs at least twice. */
  lemma TwiceOccurs(r: seq<Group>, i: int, j: int)
    requires 0 <= i < j < |r| && r[i] == r[j]
    ensures multiset(r)[r[i]] >= 2
  {
    assert r == r[..i] + [r[i]] + r[i + 1..j] + [r[j]] + r[j + 1..];
  }

  /** A permutation of a list with distinct keys has distinct keys. */
  lemma PermutationKeepsDistinct(r: seq<Group>, s: seq<Group>)
    requires multiset(r) == multiset(s)
    ensures DistinctBy(s, GroupKey) ==> DistinctBy(r, GroupKey)
  {
    if DistinctBy(s, GroupKey) {
      forall i, j | 0 <= i < j < |r| ensures GroupKey(r[i]) != GroupKey(r[j]) {
        if GroupKey(r[i]) == GroupKey(r[j]) {
          assert r[i] in multiset(s) && r[j] in multiset(s);
          var a :| 0 <= a < |s| && s[a] == r[i];
          var b :| 0 <= b < |s| && s[b] == r[j];
          assert a == b;
          TwiceOccurs(r, i, j);
          DistinctOccursOnce(s, a);
          assert false;
        }
      }
    }
  }

  /** The index groups and the named groups of the accumulator together are all of it. */
  lemma SplitMultiset(acc: seq<Group>)
    ensures multiset(Filter(acc, IsIndexGroup)) + multiset(Filter(acc, IsNamedGroup)) == multiset(acc)
  {
    forall g ensures multiset(Filter(acc, IsIndexGroup))[g] + multiset(Filter(acc, IsNamedGroup))[g] == multiset(acc)[g] {
    }
  }

  /** The sorted index groups followed by the named groups are a permutation of the
      accumulator with the same total. */
  lemma SplitPermutes(acc: seq<Group>)
    ensures multiset(SortByIndex(Filter(acc, IsIndexGroup)) + Filter(acc, IsNamedGroup)) == multiset(acc)
    ensures Total(SortByIndex(Filter(acc, IsIndexGroup)) + Filter(acc, IsNamedGroup)) == Total(acc)
  {
    var ix := Filter(acc, IsIndexGroup);
    var named := Filter(acc, IsNamedGroup);
    var sorted := SortByIndex(ix);
    SplitMultiset(acc);
    assert multiset(sorted + named) == multiset(sorted) + multiset(named);
    TotalConcat(sorted, named);
    TotalSplit(acc);
  }

  /** `r` lists, before position `m`, groups with array-index keys in ascending order and,
      from `m` on, groups with other keys in their order in `acc`. */
  ghost predicate IndexKeysThenNamed(r: seq<Group>, acc: seq<Group>, m: int) {
    && 0 <= m <= |r|
    && (forall j :: 0 <= j < m ==> IsIndexGroup(r[j]))
    && (forall j :: m <= j < |r| ==> IsNamedGroup(r[j]))
    && SortedByIndex(r[..m])
    && IsSubsequence(r[m..], acc)
  }

  /** Sorting keeps the predicate that holds of every element. */
  lemma SortKeepsIndexKeys(ix: seq<Group>)
    requires forall j :: 0 <= j < |ix| ==> IsIndexGroup(ix[j])
    ensures forall j :: 0 <= j < |SortByIndex(ix)| ==> IsIndexGroup(SortByIndex(ix)[j])
  {
    var sorted := SortByIndex(ix);
    forall j | 0 <= j < |sorted| ensures IsIndexGroup(sorted[j]) {
      assert sorted[j] in multiset(ix);
      var k :| 0 <= k < |ix| && ix[k] == sorted[j];
    }
  }

  /** `Object.values` lists the array-index keys first, in ascending order, then the other
      keys in the order their properties were created; the split comes after as many groups
      as there are array-index keys. */
  lemma ObjectValuesOrder(acc: seq<Group>)
    ensures IndexKeysThenNamed(ObjectValues(acc), acc, |Filter(acc, IsIndexGroup)|)
  {
    var ix := Filter(acc, IsIndexGroup);
    var named := Filter(acc, IsNamedGroup);
    var sorted := SortByIndex(ix);
    FilterSatisfies(acc, IsIndexGroup);
    FilterSatisfies(acc, IsNamedGroup);
    SortKeepsIndexKeys(ix);
    var r := ObjectValues(acc);
    var m := |sorted|;
    assert r == sorted + named;
    ConcatSatisfies(sorted, named, IsIndexGroup, IsNamedGroup);
    assert r[..m] == sorted && r[m..] == named;
    assert IndexKeysThenNamed(r, acc, m);
  }

  /** The part after the array-index keys is the named groups of the accumulator. */
  lemma ObjectValuesNamedPart(acc: seq<Group>)
    ensures ObjectValues(acc)[|Filter(acc, IsIndexGroup)|..] == Filter(acc, IsNamedGroup)
  {
    var sorted := SortByIndex(Filter(acc, IsIndexGroup));
    assert ObjectValues(acc) == sorted + Filter(acc, IsNamedGroup);
    ConcatDrop(sorted, Filter(acc, IsNamedGroup));
  }

  /** The keys of the named groups are the named keys, in the same order. */
  lemma {:induction false} KeysOfNamed(acc: seq<Group>)
    ensures Keys(Filter(acc, IsNamedGroup)) == Filter(Keys(acc), IsNamedKey)
    decreases |acc|
  {
    if acc != [] {
      KeysOfNamed(acc[1..]);
      var ks := Keys(acc);
      assert ks == [acc[0].key] + Keys(acc[1..]);
      assert IsNamedGroup(acc[0]) == IsNamedKey(ks[0]);
      assert ks[1..] == Keys(acc[1..]);
      if IsNamedGroup(acc[0]) {
        assert Keys([acc[0]] + Filter(acc[1..], IsNamedGroup)) == [acc[0].key] + Keys(Filter(acc[1..], IsNamedGroup));
      }
    }
  }

  /** When no key is an array index, `Object.values` is the creation order. */
  lemma ObjectValuesNoIndexKeys(acc: seq<Group>)
    requires forall g :: g in acc ==> !IsArrayIndex(g.key)
    ensures ObjectValues(acc) == acc
  {
    var ix := Filter(acc, IsIndexGroup);
    assert multiset(ix) == multiset{} by {
      forall g ensures multiset(ix)[g] == 0 {
        if g in acc { assert !IsIndexGroup(g); }
      }
    }
  }
}
