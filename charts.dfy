/** `grafikKategori` and `grafikLokasi`: `Object.values` of the reduce. */
module Charts {
  import opened Records
  import opened Seqs
  import opened Grouping
  import opened PropertyOrder

  /** The chart data for one grouping field: exactly one bar per distinct non-empty key;
      each bar's total is the sum of `jumlah` over the records with that key; the bars add up
      to the `jumlah` of all records with a non-empty key (records with an empty key are
      skipped). */
  function Grafik(items: seq<Item>, f: GroupField): (r: seq<Group>)
    ensures DistinctBy(r, GroupKey)
    ensures KeySet(r) == KeysOf(items, f)
    ensures |r| == |KeysOf(items, f)|
    ensures forall g :: g in r ==> g.key != "" && g.jumlah == SumFor(items, f, g.key)
    ensures Total(r) == SumKeyed(items, f)
  {
    var acc := Accumulate(items, f);
    var r := ObjectValues(acc);
    PermutedSummarizes(r, acc, items, f);
    SummaryShape(r, items, f);
    r
  }

  /** `grafikKategori`: one bar per distinct non-empty `kategori`, with the total `jumlah` of
      the records in that category. */
  function GrafikKategori(items: seq<Item>): (r: seq<Group>)
    ensures KeySet(r) == set i | i in items && i.kategori != "" :: i.kategori
    ensures forall g :: g in r ==> g.jumlah == SumFor(items, ByKategori, g.key)
  {
    var r := Grafik(items, ByKategori);
    assert KeysOf(items, ByKategori) == set i | i in items && i.kategori != "" :: i.kategori;
    r
  }

  /** `grafikLokasi`: one bar per distinct non-empty `lokasi`, with the total `jumlah` of the
      records at that location. */
  function GrafikLokasi(items: seq<Item>): (r: seq<Group>)
    ensures KeySet(r) == set i | i in items && i.lokasi != "" :: i.lokasi
    ensures forall g :: g in r ==> g.jumlah == SumFor(items, ByLokasi, g.key)
  {
    var r := Grafik(items, ByLokasi);
    assert KeysOf(items, ByLokasi) == set i | i in items && i.lokasi != "" :: i.lokasi;
    r
  }

  /** Bars `r` split at `m`: before it, bars with array-index keys in ascending order; from
      it on, the other keys in the order of their first record. */
  ghost predicate ChartOrder(r: seq<Group>, items: seq<Item>, f: GroupField, m: int) {
    && 0 <= m <= |r|
    && (forall j :: 0 <= j < m ==> IsIndexGroup(r[j]))
    && SortedByIndex(r[..m])
    && Keys(r[m..]) == Filter(FirstKeys(items, f), IsNamedKey)
  }

  /** The order of the bars: array-index keys first, ascending, then the other keys in the
      order of their first record. */
  lemma GrafikOrder(items: seq<Item>, f: GroupField)
    ensures exists m :: ChartOrder(Grafik(items, f), items, f, m)
  {
    var acc := Accumulate(items, f);
    var r := Grafik(items, f);
    var m := |Filter(acc, IsIndexGroup)|;
    assert r == ObjectValues(acc);
    ObjectValuesOrder(acc);
    ObjectValuesNamedPart(acc);
    KeysOfNamed(acc);
    assert ChartOrder(r, items, f, m);
  }

  /** Two records of one category with quantities 10 and 5 give a single bar of 15. */
  lemma GrafikKategoriTwoChairs(a: Item, b: Item)
    requires a.kategori == "Furniture" && a.jumlah == 10
    requires b.kategori == "Furniture" && b.jumlah == 5
    ensures GrafikKategori([a, b]) == [Group("Furniture", 15)]
  {
    var acc := Accumulate([a, b], ByKategori);
    assert [a, b][..1] == [a];
    assert Accumulate([a], ByKategori) == [Group("Furniture", 10)] by {
      assert [a][..0] == [];
    }
    assert acc == [Group("Furniture", 15)];
    assert !IsArrayIndex("Furniture") by {
      assert !IsDigit('F');
    }
    ObjectValuesNoIndexKeys(acc);
  }

  /** Records of the categories "Meja" and then "Kursi" give the bar of "Meja" first: named
      keys keep the order of their first record. */
  lemma GrafikKategoriFirstSeen(a: Item, b: Item)
    requires a.kategori == "Meja" && b.kategori == "Kursi"
    ensures GrafikKategori([a, b]) == [Group("Meja", a.jumlah), Group("Kursi", b.jumlah)]
  {
    var acc := Accumulate([a, b], ByKategori);
    assert [a, b][..1] == [a];
    assert Accumulate([a], ByKategori) == [Group("Meja", a.jumlah)] by {
      assert [a][..0] == [];
    }
    assert acc == [Group("Meja", a.jumlah), Group("Kursi", b.jumlah)];
    assert !IsArrayIndex("Meja") && !IsArrayIndex("Kursi") by {
      assert !IsDigit('M') && !IsDigit('K');
    }
    ObjectValuesNoIndexKeys(acc);
  }
}
