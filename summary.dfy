/** `rekap`: the number of records in each condition of `kondisiList`. */
module Summary {
  import opened Records
  import opened Seqs

  /** One slice of the condition chart (its colour `warna` is presentation only). */
  datatype RekapEntry = RekapEntry(kondisi: string, jumlah: nat)

  /** The filter predicate `i => i.kondisi === k`. */
  function KondisiIs(k: string): Item -> bool {
    (i: Item) => i.kondisi == k
  }

  /** `kondisiList.map(k => ({ kondisi: k, jumlah: items.filter(i => i.kondisi === k).length }))`:
      one entry per condition of `kondisiList`, in its order, each counting the records in
      that condition. */
  function Rekap(items: seq<Item>): (r: seq<RekapEntry>)
    ensures |r| == |KondisiList| == 3
    ensures forall j :: 0 <= j < 3 ==> r[j].kondisi == KondisiList[j] && r[j].jumlah == CountKondisi(items, KondisiList[j])
  {
    FilterKondisiCounts(items);
    seq(|KondisiList|, j requires 0 <= j < |KondisiList| =>
      RekapEntry(KondisiList[j], |Filter(items, KondisiIs(KondisiList[j]))|))
  }

  /** The number of records in condition `k`, counted one by one. */
  function CountKondisi(items: seq<Item>, k: string): nat
    decreases |items|
  {
    if items == [] then 0
    else (if items[0].kondisi == k then 1 else 0) + CountKondisi(items[1..], k)
  }

  /** The number of records whose condition is not in `kondisiList`. */
  function CountUnlisted(items: seq<Item>): nat
    decreases |items|
  {
    if items == [] then 0
    else (if items[0].kondisi in KondisiList then 0 else 1) + CountUnlisted(items[1..])
  }

  /** The sum of the counts of a summary. */
  function RekapSum(r: seq<RekapEntry>): nat
    decreases |r|
  {
    if r == [] then 0 else r[0].jumlah + RekapSum(r[1..])
  }

  /** The length of the filtered list is the number of records in that condition. */
  lemma {:induction false} FilterKondisiCount(items: seq<Item>, k: string)
    ensures |Filter(items, KondisiIs(k))| == CountKondisi(items, k)
    decreases |items|
  {
    if items != [] {
      FilterKondisiCount(items[1..], k);
    }
  }

  /** The same, for every condition at once. */
  lemma FilterKondisiCounts(items: seq<Item>)
    ensures forall k :: |Filter(items, KondisiIs(k))| == CountKondisi(items, k)
  {
    forall k ensures |Filter(items, KondisiIs(k))| == CountKondisi(items, k) {
      FilterKondisiCount(items, k);
    }
  }

  /** The three counts and the records in unlisted conditions make up the whole list. */
  lemma {:induction false} CountsPartition(items: seq<Item>)
    ensures CountKondisi(items, "Baik") + CountKondisi(items, "Rusak Ringan") +
            CountKondisi(items, "Rusak Berat") + CountUnlisted(items) == |items|
    decreases |items|
  {
    if items != [] {
      CountsPartition(items[1..]);
    }
  }

  /** CountUnlisted is zero exactly when every condition is in `kondisiList`. */
  lemma {:induction false} CountUnlistedZero(items: seq<Item>)
    ensures CountUnlisted(items) == 0 <==> forall i :: i in items ==> i.kondisi in KondisiList
    decreases |items|
  {
    if items != [] {
      CountUnlistedZero(items[1..]);
      assert forall i :: i in items <==> i == items[0] || i in items[1..];
    }
  }

  /** The counts add up to at most the number of records, and to exactly that number if and
      only if every record's condition is one of `kondisiList`. */
  lemma RekapTotal(items: seq<Item>)
    ensures RekapSum(Rekap(items)) + CountUnlisted(items) == |items|
    ensures RekapSum(Rekap(items)) <= |items|
    ensures RekapSum(Rekap(items)) == |items| <==> forall i :: i in items ==> i.kondisi in KondisiList
  {
    var r := Rekap(items);
    SumOfThree(r);
    CountsPartition(items);
    CountUnlistedZero(items);
  }

  /** The sum of a three-entry summary. */
  lemma SumOfThree(r: seq<RekapEntry>)
    requires |r| == 3
    ensures RekapSum(r) == r[0].jumlah + r[1].jumlah + r[2].jumlah
  {
    assert RekapSum(r[2..]) == r[2].jumlah + RekapSum(r[3..]);
    assert RekapSum(r[1..]) == r[1].jumlah + RekapSum(r[2..]);
  }

  /** With no records every condition still appears, with count 0. */
  lemma RekapEmpty()
    ensures Rekap([]) == [RekapEntry("Baik", 0), RekapEntry("Rusak Ringan", 0), RekapEntry("Rusak Berat", 0)]
  {
  }

  /** Counting over a list extended by one record. */
  lemma {:induction false} CountKondisiAppend(items: seq<Item>, d: Item, k: string)
    ensures CountKondisi(items + [d], k) == CountKondisi(items, k) + (if d.kondisi == k then 1 else 0)
    decreases |items|
  {
    if items == [] {
      assert [] + [d] == [d];
    } else {
      assert (items + [d])[1..] == items[1..] + [d];
      CountKondisiAppend(items[1..], d, k);
    }
  }

  /** Saving a new record raises the count of its condition by one and leaves the others. */
  lemma RekapAfterAppend(items: seq<Item>, d: Item)
    ensures forall j :: 0 <= j < 3 ==>
      Rekap(items + [d])[j].jumlah == Rekap(items)[j].jumlah + (if d.kondisi == KondisiList[j] then 1 else 0)
  {
    forall j | 0 <= j < 3 ensures
      CountKondisi(items + [d], KondisiList[j]) == CountKondisi(items, KondisiList[j]) + (if d.kondisi == KondisiList[j] then 1 else 0)
    {
      CountKondisiAppend(items, d, KondisiList[j]);
    }
  }
}
