/** The state of the `AplikasiSarprasSekolah` component and the handlers that change it. */
module Inventory {
  import opened Wrappers
  import opened Seqs
  import opened Records
  import opened Session

  /** The component's state hooks: the canonical list `items`, the displayed list `itemsUI`
      (the same records, some with a photo), the entry form, the id under edit and the
      logged-in user. */
  class Sarpras {
    var items: seq<Item>
    var itemsUI: seq<ItemUI>
    var form: Form
    var editId: Option<int>
    var user: Option<User>

    /** The two lists hold the same records in the same order; they differ only in the photos
        that `itemsUI` carries. */
    ghost predicate Valid()
      reads this
    {
      items == Canonical(itemsUI)
    }

    /** The initial state: no records, an empty form, nothing under edit, nobody logged in. */
    constructor ()
      ensures Valid()
      ensures items == [] && itemsUI == [] && form == EmptyForm && editId == None && user == None
    {
      items := [];
      itemsUI := [];
      form := EmptyForm;
      editId := None;
      user := None;
    }

    /** The mount effect: a stored user is restored, and a stored list becomes both lists
        (without photos). */
    method Load(storedUser: Option<User>, storedItems: Option<seq<Item>>)
      requires Valid()
      modifies this
      ensures Valid()
      ensures user == if storedUser.Some? then storedUser else old(user)
      ensures storedItems.Some? ==> items == storedItems.value && itemsUI == Displayed(storedItems.value)
      ensures storedItems.None? ==> items == old(items) && itemsUI == old(itemsUI)
      ensures form == old(form) && editId == old(editId)
    {
      if storedUser.Some? {
        user := storedUser;
      }
      if storedItems.Some? {
        items := storedItems.value;
        itemsUI := Displayed(storedItems.value);
        CanonicalOfDisplayed(storedItems.value);
      }
    }

    /** `handleLogin`: the first default account with exactly these credentials logs in; with
        no such account the state is left as it was. */
    method HandleLogin(username: string, password: string) returns (ok: bool)
      modifies this
      ensures ok <==> Login(username, password).Some?
      ensures user == if ok then Login(username, password) else old(user)
      ensures items == old(items) && itemsUI == old(itemsUI)
      ensures form == old(form) && editId == old(editId)
    {
      var found := Login(username, password);
      ok := found.Some?;
      if ok {
        user := found;
      }
    }

    /** `logout`: nobody is logged in; the records stay. */
    method Logout()
      modifies this
      ensures user == None
      ensures items == old(items) && itemsUI == old(itemsUI)
      ensures form == old(form) && editId == old(editId)
    {
      user := None;
    }

    /** `simpanItem`. An incomplete form changes nothing. Otherwise the form's record replaces
        every record with the id under edit, or is appended under `freshId` (the value of
        `Date.now()`) when nothing is under edit; the form is cleared and the edit ends. */
    method SimpanItem(freshId: int) returns (saved: bool)
      requires Valid()
      modifies this
      ensures Valid()
      ensures saved <==> FormIsComplete(old(form))
      ensures !saved ==> items == old(items) && itemsUI == old(itemsUI) && form == old(form) && editId == old(editId)
      ensures saved && old(editId).Some? ==>
        items == ReplaceById(old(items), old(editId).value, RecordOf(old(form), old(editId).value))
      ensures saved && old(editId).Some? ==>
        itemsUI == ReplaceByIdUI(old(itemsUI), old(editId).value, RecordOf(old(form), old(editId).value), old(form).foto)
      ensures saved && old(editId).None? ==>
        var d := RecordOf(old(form), freshId);
        items == old(items) + [d] && itemsUI == old(itemsUI) + [ItemUI(d, old(form).foto)]
      ensures saved ==> form == EmptyForm && editId == None
      ensures user == old(user)
      ensures old(UniqueIds(items)) && (old(editId).None? ==> forall i :: i in old(items) ==> i.id != freshId)
        ==> UniqueIds(items)
    {
      if !FormIsComplete(form) {
        return false;
      }
      saved := true;
      var newItems, newUI;
      if editId.Some? {
        var id := editId.value;
        var d := RecordOf(form, id);
        CanonicalReplace(itemsUI, id, d, form.foto);
        if UniqueIds(items) {
          ReplaceKeepsUnique(items, id, d);
        }
        newItems, newUI := ReplaceById(items, id, d), ReplaceByIdUI(itemsUI, id, d, form.foto);
      } else {
        var d := RecordOf(form, freshId);
        CanonicalAppend(itemsUI, ItemUI(d, form.foto));
        if UniqueIds(items) && forall i :: i in items ==> i.id != freshId {
          AppendFreshKeepsUnique(items, d);
        }
        newItems, newUI := items + [d], itemsUI + [ItemUI(d, form.foto)];
      }
      items, itemsUI, form, editId := newItems, newUI, EmptyForm, None;
    }

    /** `editItem`: the form is filled with the record (and its photo) and its id is put under
        edit; the lists do not change. */
    method EditItem(u: ItemUI)
      modifies this
      ensures form == FormOf(u) && editId == Some(u.item.id)
      ensures RecordOf(form, editId.value) == u.item && form.foto == u.foto
      ensures items == old(items) && itemsUI == old(itemsUI) && user == old(user)
    {
      form := FormOf(u);
      editId := Some(u.item.id);
    }

    /** `hapusItem`: only an administrator who confirms deletes, and then every record with the
        id leaves both lists. With nobody logged in the handler fails before any change. */
    method HapusItem(id: int, confirmed: bool) returns (deleted: bool)
      requires Valid()
      modifies this
      ensures Valid()
      ensures deleted <==> MayDelete(old(user)) && confirmed
      ensures deleted ==> items == RemoveById(old(items), id)
      ensures deleted ==> itemsUI == RemoveByIdUI(old(itemsUI), id)
      ensures !deleted ==> items == old(items) && itemsUI == old(itemsUI)
      ensures form == old(form) && editId == old(editId) && user == old(user)
      ensures old(UniqueIds(items)) ==> UniqueIds(items)
    {
      if !MayDelete(user) || !confirmed {
        return false;
      }
      CanonicalRemove(itemsUI, id);
      if UniqueIds(items) {
        RemoveKeepsUnique(items, id);
      }
      items, itemsUI := RemoveById(items, id), RemoveByIdUI(itemsUI, id);
      deleted := true;
    }

    /** `importExcel`: the rows of the sheet replace both lists (without photos); the form and
        the edit are kept. */
    method ImportExcel(rows: seq<Item>)
      modifies this
      ensures Valid()
      ensures items == rows && itemsUI == Displayed(rows)
      ensures form == old(form) && editId == old(editId) && user == old(user)
    {
      items := rows;
      itemsUI := Displayed(rows);
      CanonicalOfDisplayed(rows);
    }
  }
}
