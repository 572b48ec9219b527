/** The asset records of the inventory (`Item`, `ItemUI`), the entry form, and the pure list
    rebuilds performed by the component's mutations. */
module Records {
  import opened Wrappers
  import opened Seqs

  /** `kondisiList`: the fixed list of conditions, in display order. */
  const KondisiList: seq<string> := ["Baik", "Rusak Ringan", "Rusak Berat"]

  /** A canonical (persisted, exported) asset record. `kondisi` is free text: the form offers
      only the values of `KondisiList`, but an import can bring anything. */
  datatype Item = Item(
    id: int,
    kode: string,
    nama: string,
    jumlah: int,
    kondisi: string,
    lokasi: string,
    kategori: string,
    asal: string,
    tahun: string)

  /** `Item & { foto?: string }`: the displayed copy of a record with its optional photo. */
  datatype ItemUI = ItemUI(item: Item, foto: Option<string>)

  /** `Omit<ItemUI, "id">`: the contents of the entry form. */
  datatype Form = Form(
    kode: string,
    nama: string,
    jumlah: int,
    kondisi: string,
    lokasi: string,
    kategori: string,
    asal: string,
    tahun: string,
    foto: Option<string>)

  /** The form as it starts and as it is cleared after a save. */
  const EmptyForm: Form := Form("", "", 0, "Baik", "", "", "", "", Some(""))

  /** The guard of `simpanItem`: `nama` is non-empty and `jumlah` is non-zero. */
  predicate FormIsComplete(f: Form) {
    f.nama != "" && f.jumlah != 0
  }

  /** The record `simpanItem` builds from the form under the given id. */
  function RecordOf(f: Form, id: int): Item {
    Item(id, f.kode, f.nama, f.jumlah, f.kondisi, f.lokasi, f.kategori, f.asal, f.tahun)
  }

  /** `editItem`: the form filled with everything of a displayed record except its id. */
  function FormOf(u: ItemUI): (f: Form)
    ensures RecordOf(f, u.item.id) == u.item && f.foto == u.foto
  {
    Form(u.item.kode, u.item.nama, u.item.jumlah, u.item.kondisi, u.item.lokasi,
         u.item.kategori, u.item.asal, u.item.tahun, u.foto)
  }

  /** Building a record from a form and filling the form back from it gives the form again,
      and the record carries the id it was built under. */
  lemma RecordFormRoundTrip(f: Form, id: int)
    ensures RecordOf(f, id).id == id
    ensures FormOf(ItemUI(RecordOf(f, id), f.foto)) == f
  {
  }

  /** A record opened for editing can be saved again exactly when its `nama` is non-empty and
      its `jumlah` non-zero (an imported record may have neither). */
  lemma EditedFormIsComplete(u: ItemUI)
    ensures FormIsComplete(FormOf(u)) <==> u.item.nama != "" && u.item.jumlah != 0
  {
  }

  /** The cleared form starts at the first condition of `kondisiList` and cannot be saved, so
      saving twice in a row stores one record. */
  lemma EmptyFormIsIncomplete()
    ensures EmptyForm.kondisi == KondisiList[0]
    ensures !FormIsComplete(EmptyForm)
  {
  }

  /** The records of the display list with their photos dropped. */
  function Canonical(ui: seq<ItemUI>): (r: seq<Item>)
    ensures |r| == |ui|
    ensures forall k :: 0 <= k < |ui| ==> r[k] == ui[k].item
    decreases |ui|
  {
    if ui == [] then [] else [ui[0].item] + Canonical(ui[1..])
  }

  /** The display list installed next to a loaded or imported list: same records, no photo. */
  function Displayed(rows: seq<Item>): (r: seq<ItemUI>)
    ensures |r| == |rows|
    ensures forall k :: 0 <= k < |rows| ==> r[k].item == rows[k] && r[k].foto == None
    decreases |rows|
  {
    if rows == [] then [] else [ItemUI(rows[0], None)] + Displayed(rows[1..])
  }

  /** The ids of a record list, in order. */
  function Ids(s: seq<Item>): (r: seq<int>)
    ensures |r| == |s|
    ensures forall k :: 0 <= k < |s| ==> r[k] == s[k].id
    decreases |s|
  {
    if s == [] then [] else [s[0].id] + Ids(s[1..])
  }

  /** The id of a record, as a key for DistinctBy. */
  function IdOf(i: Item): int {
    i.id
  }

  /** No two records share an id. */
  ghost predicate UniqueIds(s: seq<Item>) {
    DistinctBy(s, IdOf)
  }

  /** `items.map(i => i.id === id ? d : i)`. */
  function ReplaceById(s: seq<Item>, id: int, d: Item): (r: seq<Item>)
    ensures |r| == |s|
    ensures forall k :: 0 <= k < |s| ==> r[k] == if s[k].id == id then d else s[k]
    decreases |s|
  {
    if s == [] then []
    else [if s[0].id == id then d else s[0]] + ReplaceById(s[1..], id, d)
  }

  /** `itemsUI.map(i => i.id === id ? { ...d, foto } : i)`. */
  function ReplaceByIdUI(ui: seq<ItemUI>, id: int, d: Item, foto: Option<string>): (r: seq<ItemUI>)
    ensures |r| == |ui|
    ensures forall k :: 0 <= k < |ui| ==>
      r[k] == if ui[k].item.id == id then ItemUI(d, foto) else ui[k]
    decreases |ui|
  {
    if ui == [] then []
    else [if ui[0].item.id == id then ItemUI(d, foto) else ui[0]] + ReplaceByIdUI(ui[1..], id, d, foto)
  }

  /** The filter predicate `i => i.id !== id` on records. */
  function IdIsNot(id: int): Item -> bool {
    (i: Item) => i.id != id
  }

  /** The filter predicate `i => i.id !== id` on displayed records. */
  function UIIdIsNot(id: int): ItemUI -> bool {
    (u: ItemUI) => u.item.id != id
  }

  /** `items.filter(i => i.id !== id)`: every record with the id leaves; all the others stay,
      with their multiplicity and in their order. */
  function RemoveById(s: seq<Item>, id: int): (r: seq<Item>)
    ensures IsSubsequence(r, s)
    ensures forall x :: x in r <==> x in s && x.id != id
    ensures forall x: Item :: x.id != id ==> multiset(r)[x] == multiset(s)[x]
  {
    Filter(s, IdIsNot(id))
  }

  /** `itemsUI.filter(i => i.id !== id)`: the same on the displayed list, photos included. */
  function RemoveByIdUI(ui: seq<ItemUI>, id: int): (r: seq<ItemUI>)
    ensures IsSubsequence(r, ui)
    ensures forall u :: u in r <==> u in ui && u.item.id != id
    ensures forall u: ItemUI :: u.item.id != id ==> multiset(r)[u] == multiset(ui)[u]
  {
    Filter(ui, UIIdIsNot(id))
  }

  // ---- Lockstep: the display list mirrors the canonical list ----

  /** Loading or importing a list and deriving its display list keeps them in lockstep. */
  lemma {:induction false} CanonicalOfDisplayed(rows: seq<Item>)
    ensures Canonical(Displayed(rows)) == rows
  {
    var d := Displayed(rows);
    assert forall k :: 0 <= k < |rows| ==> Canonical(d)[k] == rows[k];
  }

  /** Appending the same record to both lists keeps them in lockstep. */
  lemma {:induction false} CanonicalAppend(ui: seq<ItemUI>, u: ItemUI)
    ensures Canonical(ui + [u]) == Canonical(ui) + [u.item]
  {
    var l := Canonical(ui + [u]);
    var r := Canonical(ui) + [u.item];
    assert |l| == |r|;
    forall k | 0 <= k < |l| ensures l[k] == r[k] {
      if k < |ui| { assert (ui + [u])[k] == ui[k]; }
    }
  }

  /** The two maps of `simpanItem`'s update keep the two lists in lockstep. */
  lemma {:induction false} CanonicalReplace(ui: seq<ItemUI>, id: int, d: Item, foto: Option<string>)
    ensures Canonical(ReplaceByIdUI(ui, id, d, foto)) == ReplaceById(Canonical(ui), id, d)
  {
    var l := Canonical(ReplaceByIdUI(ui, id, d, foto));
    var r := ReplaceById(Canonical(ui), id, d);
    assert |l| == |r|;
    forall k | 0 <= k < |l| ensures l[k] == r[k] {
    }
  }

  /** The two filters of `hapusItem` keep the two lists in lockstep. */
  lemma {:induction false} CanonicalRemove(ui: seq<ItemUI>, id: int)
    ensures Canonical(RemoveByIdUI(ui, id)) == RemoveById(Canonical(ui), id)
    decreases |ui|
  {
    if ui != [] {
      CanonicalRemove(ui[1..], id);
      assert Canonical(ui)[1..] == Canonical(ui[1..]);
      assert UIIdIsNot(id)(ui[0]) == IdIsNot(id)(Canonical(ui)[0]);
    }
  }

  /** Lists in lockstep hold the same ids in the same order. */
  lemma LockstepIds(items: seq<Item>, ui: seq<ItemUI>)
    requires items == Canonical(ui)
    ensures |items| == |ui|
    ensures forall k :: 0 <= k < |ui| ==> items[k].id == ui[k].item.id
  {
  }

  // ---- Id uniqueness under the mutations ----

  /** An update that writes a record under the id it replaces keeps the id list. */
  lemma {:induction false} ReplaceKeepsIds(s: seq<Item>, id: int, d: Item)
    requires d.id == id
    ensures Ids(ReplaceById(s, id, d)) == Ids(s)
  {
    var l := Ids(ReplaceById(s, id, d));
    assert forall k :: 0 <= k < |s| ==> l[k] == Ids(s)[k];
  }

  /** Replacing a record by one with the same id keeps the ids unique. */
  lemma ReplaceKeepsUnique(s: seq<Item>, id: int, d: Item)
    requires UniqueIds(s)
    requires d.id == id
    ensures UniqueIds(ReplaceById(s, id, d))
  {
    var r := ReplaceById(s, id, d);
    forall i, j | 0 <= i < j < |r| ensures r[i].id != r[j].id {
      assert r[i].id == s[i].id && r[j].id == s[j].id;
    }
  }

  /** Appending a record whose id is new keeps the ids unique. */
  lemma AppendFreshKeepsUnique(s: seq<Item>, x: Item)
    requires UniqueIds(s)
    requires forall i :: i in s ==> i.id != x.id
    ensures UniqueIds(s + [x])
  {
    forall i, j | 0 <= i < j < |s| + 1 ensures (s + [x])[i].id != (s + [x])[j].id {
      if j == |s| { assert (s + [x])[i] in s; }
    }
  }

  /** Deleting keeps the ids unique. */
  lemma RemoveKeepsUnique(s: seq<Item>, id: int)
    requires UniqueIds(s)
    ensures UniqueIds(RemoveById(s, id))
  {
    SubsequenceKeepsDistinct(RemoveById(s, id), s, IdOf);
  }

  /** Saving a record's unchanged edit form writes the record back: with unique ids the
      update then changes nothing. */
  lemma ReplaceWithOwnRecord(s: seq<Item>, k: int)
    requires UniqueIds(s)
    requires 0 <= k < |s|
    ensures ReplaceById(s, s[k].id, s[k]) == s
  {
    var r := ReplaceById(s, s[k].id, s[k]);
    forall j | 0 <= j < |s| ensures r[j] == s[j] {
      if j != k {
        assert s[j].id != s[k].id by {
          if j < k { assert s[j].id != s[k].id; } else { assert s[k].id != s[j].id; }
        }
      }
    }
  }

  /** An update whose id no record carries changes nothing. */
  lemma ReplaceAbsentIsNoop(s: seq<Item>, id: int, d: Item)
    requires forall i :: i in s ==> i.id != id
    ensures ReplaceById(s, id, d) == s
  {
    var r := ReplaceById(s, id, d);
    forall k | 0 <= k < |s| ensures r[k] == s[k] {
      assert s[k] in s;
    }
  }
}
