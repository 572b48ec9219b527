/** `grafikKategori` and `grafikLokasi`: the total `jumlah` per category and per location,
    built by a `reduce` into a plain object and read back with `Object.values`. */
module Grouping {
  import opened Records
  import opened Seqs

  /** Which field a chart groups on. */
  datatype GroupField = ByKategori | ByLokasi

  /** The grouping key of a record. */
  function KeyOf(i: Item, f: GroupField): string {
    match f
    case ByKategori => i.kategori
    case ByLokasi => i.lokasi
  }

  /** One bar of a chart: `{ kategori, jumlah }` or `{ lokasi, jumlah }`. */
  datatype Group = Group(key: string, jumlah: int)

  /** The key of a group, as a key for DistinctBy. */
  function GroupKey(g: Group): string {
    g.key
  }

  // ---- The reduce: the accumulator object as its own properties in insertion order ----

  /** `a[k]`: the position of the property `k` in the accumulator, or -1 when it is absent. */
  function FindKey(acc: seq<Group>, k: string): (j: int)
    ensures -1 <= j < |acc|
    ensures 0 <= j ==> acc[j].key == k
    ensures j < 0 ==> forall g :: g in acc ==> g.key != k
    decreases |acc|
  {
    if acc == [] then -1
    else if acc[0].key == k then 0
    else
      var j := FindKey(acc[1..], k);
      assert forall g :: g in acc ==> g == acc[0] || g in acc[1..];
      if j < 0 then -1 else j + 1
  }

  /** The keys of a list of groups, in order. */
  function Keys(gs: seq<Group>): (r: seq<string>)
    ensures |r| == |gs|
    ensures forall k :: 0 <= k < |gs| ==> r[k] == gs[k].key
    decreases |gs|
  {
    if gs == [] then [] else [gs[0].key] + Keys(gs[1..])
  }

  /** A key list after meeting key `k`: a non-empty key not met before goes at the end. */
  function AddKey(ks: seq<string>, k: string): seq<string> {
    if k == "" || k in ks then ks else ks + [k]
  }

  /** One step of the reducer: a record with an empty key is skipped; otherwise its `jumlah`
      is added to the existing property, or a new property is created at the end. */
  function Step(acc: seq<Group>, i: Item, f: GroupField): seq<Group> {
    var k := KeyOf(i, f);
    if k == "" then acc
    else
      var j := FindKey(acc, k);
      if 0 <= j then acc[j := Group(k, acc[j].jumlah + i.jumlah)]
      else acc + [Group(k, i.jumlah)]
  }

  /** A step adds the record's `jumlah` to the total when its key is non-empty, and its key to
      the end of the keys when the key is non-empty and new; an empty key changes nothing. */
  lemma StepSpec(acc: seq<Group>, i: Item, f: GroupField)
    ensures KeyOf(i, f) == "" ==> Step(acc, i, f) == acc
    ensures Total(Step(acc, i, f)) == Total(acc) + (if KeyOf(i, f) != "" then i.jumlah else 0)
    ensures Keys(Step(acc, i, f)) == AddKey(Keys(acc), KeyOf(i, f))
  {
    var k := KeyOf(i, f);
    if k != "" {
      var j := FindKey(acc, k);
      FindKeyInKeys(acc, k);
      if 0 <= j {
        var g := Group(k, acc[j].jumlah + i.jumlah);
        assert Step(acc, i, f) == acc[j := g];
        TotalUpdate(acc, j, g);
        assert Keys(acc[j := g]) == Keys(acc);
      } else {
        var g := Group(k, i.jumlah);
        assert Step(acc, i, f) == acc + [g];
        TotalAppend(acc, g);
        assert Keys(acc + [g]) == Keys(acc) + [k];
      }
    }
  }

  /** `items.reduce(step, {})`: the reducer applied to the records from first to last. It
      builds a correct summary of the records, whose keys come in the order of their first
      record. */
  function Accumulate(items: seq<Item>, f: GroupField): (r: seq<Group>)
    ensures Summarizes(r, items, f)
    ensures Keys(r) == FirstKeys(items, f)
    decreases |items|
  {
    if items == [] then []
    else
      var p := items[..|items| - 1];
      var x := items[|items| - 1];
      var acc := Accumulate(p, f);
      assert items == p + [x];
      StepSummarizes(acc, p, x, f);
      StepSpec(acc, x, f);
      FirstKeysAppend(p, x, f, []);
      Step(acc, x, f)
  }

  /** The non-empty keys of the records in the order of their first record, scanning the
      records from the front and keeping the keys met so far in `seen`. */
  function FirstKeysFrom(items: seq<Item>, f: GroupField, seen: seq<string>): seq<string>
    decreases |items|
  {
    if items == [] then seen
    else FirstKeysFrom(items[1..], f, AddKey(seen, KeyOf(items[0], f)))
  }

  /** The non-empty keys of the records in the order of their first record. */
  function FirstKeys(items: seq<Item>, f: GroupField): seq<string> {
    FirstKeysFrom(items, f, [])
  }

  // ---- Reference definitions ----

  /** The sum of `jumlah` over the records whose key is `k`. */
  function SumFor(items: seq<Item>, f: GroupField, k: string): int
    decreases |items|
  {
    if items == [] then 0
    else
      var last := items[|items| - 1];
      SumFor(items[..|items| - 1], f, k) + (if KeyOf(last, f) == k then last.jumlah else 0)
  }

  /** The sum of `jumlah` over the records whose key is non-empty. */
  function SumKeyed(items: seq<Item>, f: GroupField): int
    decreases |items|
  {
    if items == [] then 0
    else
      var last := items[|items| - 1];
      SumKeyed(items[..|items| - 1], f) + (if KeyOf(last, f) != "" then last.jumlah else 0)
  }

  /** The sum of the totals of a chart. */
  function Total(gs: seq<Group>): int
    decreases |gs|
  {
    if gs == [] then 0 else gs[0].jumlah + Total(gs[1..])
  }

  /** The keys that occur in a chart. */
  ghost function KeySet(gs: seq<Group>): set<string> {
    set g | g in gs :: g.key
  }

  /** The distinct non-empty keys of the records. */
  ghost function KeysOf(items: seq<Item>, f: GroupField): set<string> {
    set i | i in items && KeyOf(i, f) != "" :: KeyOf(i, f)
  }

  // ---- Lemmas about totals ----

  lemma {:induction false} TotalAppend(gs: seq<Group>, g: Group)
    ensures Total(gs + [g]) == Total(gs) + g.jumlah
    decreases |gs|
  {
    if gs != [] {
      assert (gs + [g])[1..] == gs[1..] + [g];
      TotalAppend(gs[1..], g);
    }
  }

  lemma {:induction false} TotalConcat(a: seq<Group>, b: seq<Group>)
    ensures Total(a + b) == Total(a) + Total(b)
    decreases |a|
  {
    if a == [] {
      assert a + b == b;
    } else {
      assert (a + b)[0] == a[0];
      assert (a + b)[1..] == a[1..] + b;
      TotalConcat(a[1..], b);
    }
  }

  lemma {:induction false} TotalUpdate(gs: seq<Group>, j: int, g: Group)
    requires 0 <= j < |gs|
    ensures Total(gs[j := g]) == Total(gs) - gs[j].jumlah + g.jumlah
    decreases |gs|
  {
    if j > 0 {
      assert gs[j := g][1..] == gs[1..][j - 1 := g];
      TotalUpdate(gs[1..], j - 1, g);
    }
  }

  /** A key that no record carries sums to zero. */
  lemma {:induction false} SumForAbsent(items: seq<Item>, f: GroupField, k: string)
    requires forall i :: i in items ==> KeyOf(i, f) != k
    ensures SumFor(items, f, k) == 0
    decreases |items|
  {
    if items != [] {
      assert items[|items| - 1] in items;
      assert forall i :: i in items[..|items| - 1] ==> i in items;
      SumForAbsent(items[..|items| - 1], f, k);
    }
  }

  /** A list of distinct keys has as many keys as entries. */
  lemma {:induction false} DistinctKeyCount(gs: seq<Group>)
    requires DistinctBy(gs, GroupKey)
    ensures |KeySet(gs)| == |gs|
    decreases |gs|
  {
    if gs != [] {
      DistinctTail(gs);
      DistinctKeyCount(gs[1..]);
      KeySetCons(gs);
    }
  }

  /** The tail of a list of distinct keys has distinct keys. */
  lemma DistinctTail(gs: seq<Group>)
    requires gs != [] && DistinctBy(gs, GroupKey)
    ensures DistinctBy(gs[1..], GroupKey)
  {
    var rest := gs[1..];
    forall i, j | 0 <= i < j < |rest| ensures GroupKey(rest[i]) != GroupKey(rest[j]) {
      assert rest[i] == gs[i + 1] && rest[j] == gs[j + 1];
    }
  }

  /** The keys of a list of distinct keys are its head's key, which is not among the tail's
      keys, and the tail's keys. */
  lemma KeySetCons(gs: seq<Group>)
    requires gs != [] && DistinctBy(gs, GroupKey)
    ensures KeySet(gs) == {gs[0].key} + KeySet(gs[1..])
    ensures gs[0].key !in KeySet(gs[1..])
  {
    var rest := gs[1..];
    assert forall g :: g in gs <==> g == gs[0] || g in rest;
    forall g | g in rest ensures g.key != gs[0].key {
      var m :| 0 <= m < |rest| && rest[m] == g;
      assert gs[m + 1] == g;
    }
  }

  // ---- The reduce is correct ----

  /** `acc` is a correct summary of `items`: one entry per distinct non-empty key, and each
      entry's total is the sum of `jumlah` over the records with that key. */
  ghost predicate Summarizes(acc: seq<Group>, items: seq<Item>, f: GroupField) {
    && DistinctBy(acc, GroupKey)
    && KeySet(acc) == KeysOf(items, f)
    && (forall g :: g in acc ==> g.jumlah == SumFor(items, f, g.key))
    && Total(acc) == SumKeyed(items, f)
    && |acc| <= |items|
  }

  /** The sums over a list extended by one record. */
  lemma SumsAppend(p: seq<Item>, x: Item, f: GroupField)
    ensures forall k :: SumFor(p + [x], f, k) == SumFor(p, f, k) + (if KeyOf(x, f) == k then x.jumlah else 0)
    ensures SumKeyed(p + [x], f) == SumKeyed(p, f) + (if KeyOf(x, f) != "" then x.jumlah else 0)
    ensures KeysOf(p + [x], f) == KeysOf(p, f) + (if KeyOf(x, f) != "" then {KeyOf(x, f)} else {})
  {
    assert (p + [x])[..|p + [x]| - 1] == p;
    assert forall i :: i in p + [x] <==> i in p || i == x;
  }

  /** A record with an empty key leaves a correct summary correct. */
  lemma StepSkip(acc: seq<Group>, p: seq<Item>, x: Item, f: GroupField)
    requires Summarizes(acc, p, f)
    requires KeyOf(x, f) == ""
    ensures Summarizes(Step(acc, x, f), p + [x], f)
  {
    SumsAppend(p, x, f);
    assert forall g :: g in acc ==> g.key in KeySet(acc);
  }

  /** Overwriting a property with a group of the same key keeps the keys. */
  lemma UpdateKeepsKeys(acc: seq<Group>, j: int, g': Group)
    requires DistinctBy(acc, GroupKey)
    requires 0 <= j < |acc| && g'.key == acc[j].key
    ensures DistinctBy(acc[j := g'], GroupKey)
    ensures KeySet(acc[j := g']) == KeySet(acc)
    ensures forall g :: g in acc[j := g'] ==> g == g' || (g in acc && g.key != g'.key)
  {
    var r := acc[j := g'];
    forall m, n | 0 <= m < n < |r| ensures GroupKey(r[m]) != GroupKey(r[n]) {
      assert GroupKey(acc[m]) != GroupKey(acc[n]);
    }
    forall g | g in r ensures g == g' || (g in acc && g.key != g'.key) {
      var m :| 0 <= m < |r| && r[m] == g;
      if m != j {
        assert acc[m] in acc;
        assert GroupKey(acc[m]) != GroupKey(acc[j]) by {
          if m < j { } else { }
        }
      }
    }
    assert acc[j] in acc;
    forall g | g in acc ensures g.key in KeySet(r) {
      var m :| 0 <= m < |acc| && acc[m] == g;
      assert r[m] in r;
    }
  }

  /** Appending a group with a new key keeps the keys distinct. */
  lemma AppendNewKey(acc: seq<Group>, g': Group)
    requires DistinctBy(acc, GroupKey)
    requires g'.key !in KeySet(acc)
    ensures DistinctBy(acc + [g'], GroupKey)
    ensures KeySet(acc + [g']) == KeySet(acc) + {g'.key}
    ensures forall g :: g in acc + [g'] <==> g in acc || g == g'
  {
    var r := acc + [g'];
    forall m, n | 0 <= m < n < |r| ensures GroupKey(r[m]) != GroupKey(r[n]) {
      if n < |acc| {
        assert GroupKey(acc[m]) != GroupKey(acc[n]);
      } else {
        assert r[m] == acc[m] && acc[m] in acc;
      }
    }
    assert forall g :: g in r <==> g in acc || g == g';
  }

  /** A record whose key is already a property adds its `jumlah` to that property. */
  lemma StepUpdate(acc: seq<Group>, p: seq<Item>, x: Item, f: GroupField)
    requires Summarizes(acc, p, f)
    requires KeyOf(x, f) != "" && 0 <= FindKey(acc, KeyOf(x, f))
    ensures Summarizes(Step(acc, x, f), p + [x], f)
  {
    var k := KeyOf(x, f);
    var j := FindKey(acc, k);
    var g' := Group(k, acc[j].jumlah + x.jumlah);
    var r := acc[j := g'];
    assert Step(acc, x, f) == r;
    assert acc[j] in acc;
    assert DistinctBy(r, GroupKey) && KeySet(r) == KeySet(acc) by {
      UpdateKeepsKeys(acc, j, g');
    }
    assert KeySet(r) == KeysOf(p + [x], f) by {
      SumsAppend(p, x, f);
      assert k in KeySet(acc);
    }
    assert Total(r) == SumKeyed(p + [x], f) by {
      TotalUpdate(acc, j, g');
      SumsAppend(p, x, f);
    }
    assert forall g :: g in r ==> g.jumlah == SumFor(p + [x], f, g.key) by {
      UpdateKeepsKeys(acc, j, g');
      SumsAppend(p, x, f);
      forall g | g in r ensures g.jumlah == SumFor(p + [x], f, g.key) {
        if g == g' {
          assert SumFor(p + [x], f, k) == SumFor(p, f, k) + x.jumlah;
        } else {
          assert g in acc && g.key != k;
          assert SumFor(p + [x], f, g.key) == SumFor(p, f, g.key);
        }
      }
    }
    assert |r| <= |p + [x]|;
  }

  /** A record with a new non-empty key creates a property at the end. */
  lemma StepInsert(acc: seq<Group>, p: seq<Item>, x: Item, f: GroupField)
    requires Summarizes(acc, p, f)
    requires KeyOf(x, f) != "" && FindKey(acc, KeyOf(x, f)) < 0
    ensures Summarizes(Step(acc, x, f), p + [x], f)
  {
    SumsAppend(p, x, f);
    var k := KeyOf(x, f);
    var g' := Group(k, x.jumlah);
    var r := acc + [g'];
    assert Step(acc, x, f) == r;
    TotalAppend(acc, g');
    assert k !in KeysOf(p, f);
    SumForAbsent(p, f, k) by {
      forall i | i in p ensures KeyOf(i, f) != k {
        assert KeyOf(i, f) != "" ==> KeyOf(i, f) in KeysOf(p, f);
      }
    }
    AppendNewKey(acc, g');
  }

  /** One step of the reducer keeps a summary correct. */
  lemma StepSummarizes(acc: seq<Group>, p: seq<Item>, x: Item, f: GroupField)
    requires Summarizes(acc, p, f)
    ensures Summarizes(Step(acc, x, f), p + [x], f)
  {
    var k := KeyOf(x, f);
    if k == "" {
      StepSkip(acc, p, x, f);
    } else if 0 <= FindKey(acc, k) {
      StepUpdate(acc, p, x, f);
    } else {
      StepInsert(acc, p, x, f);
    }
  }

  /** Scanning one more record meets its key last. */
  lemma {:induction false} FirstKeysAppend(p: seq<Item>, x: Item, f: GroupField, seen: seq<string>)
    ensures FirstKeysFrom(p + [x], f, seen) == AddKey(FirstKeysFrom(p, f, seen), KeyOf(x, f))
    decreases |p|
  {
    if p == [] {
      assert [] + [x] == [x];
    } else {
      assert (p + [x])[0] == p[0];
      assert (p + [x])[1..] == p[1..] + [x];
      FirstKeysAppend(p[1..], x, f, AddKey(seen, KeyOf(p[0], f)));
    }
  }

  /** A key has a property exactly when it is among the keys. */
  lemma FindKeyInKeys(acc: seq<Group>, k: string)
    ensures 0 <= FindKey(acc, k) <==> k in Keys(acc)
  {
    var ks := Keys(acc);
    if k in ks {
      var m :| 0 <= m < |ks| && ks[m] == k;
      assert acc[m] in acc;
    }
  }

  /** Listing the entries of a summary in another order, keeping every entry once, gives a
      summary again. */
  lemma PermutedSummarizes(r: seq<Group>, acc: seq<Group>, items: seq<Item>, f: GroupField)
    requires Summarizes(acc, items, f)
    requires multiset(r) == multiset(acc)
    requires Total(r) == Total(acc)
    requires DistinctBy(r, GroupKey)
    ensures Summarizes(r, items, f)
  {
    assert forall g :: g in r <==> g in acc by {
      forall g ensures g in r <==> g in acc {
        assert g in r <==> g in multiset(r);
        assert g in acc <==> g in multiset(acc);
      }
    }
    assert KeySet(r) == KeySet(acc);
    assert |r| == |acc| by {
      assert |multiset(r)| == |multiset(acc)|;
    }
  }

  /** A summary has one entry per distinct non-empty key, and no entry for the empty key. */
  lemma SummaryShape(acc: seq<Group>, items: seq<Item>, f: GroupField)
    requires Summarizes(acc, items, f)
    ensures |acc| == |KeysOf(items, f)|
    ensures forall g :: g in acc ==> g.key != ""
  {
    DistinctKeyCount(acc);
    forall g | g in acc ensures g.key != "" {
      assert g.key in KeySet(acc);
    }
  }
}
