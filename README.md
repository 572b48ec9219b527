# Sarpras inventory — a verified model

`aplikasi_sarpras_sekolah.jsx` is a React component that keeps the inventory of a school's
facilities (*sarana dan prasarana*). The logic under the JSX is modelled here:

- the state hooks: the canonical record list `items`, the displayed list `itemsUI` with the
  optional photo `foto`, the entry `form`, the id under edit `editId` and the logged-in
  `user`;
- the handlers that change that state: the mount effect, `handleLogin`, `logout`,
  `simpanItem`, `editItem`, `hapusItem` and `importExcel`;
- the views computed on each render: `dataFilter`, `rekap`, `grafikKategori` and
  `grafikLokasi`;
- the rows built by `exportExcel` and `exportPDF`.

The handlers live in one class, `Inventory.Sarpras`. Its invariant `Valid()` is the lockstep
of the two lists: `items == Canonical(itemsUI)`, so the lists hold the same records in the same
order and differ only in the photos. Every handler keeps the invariant. `simpanItem` and
`hapusItem` also keep unique ids. The views are pure functions, and each has lemmas that say
what it computes:

- the search returns an order-preserving sublist with exactly the matching records;
- `rekap` has three counts that, together with the records whose condition is not in
  `kondisiList`, make up the list;
- each chart has one bar per distinct non-empty key, with the per-key sum, listed in the
  order `Object.values` gives;
- the exports refuse an empty list, and installing the exported rows as an import gives back
  the same records.

Modules, by file:

| file | module | models |
|---|---|---|
| wrappers.dfy | Wrappers | `Option`, `Result` |
| seqs.dfy | Seqs | `Array.prototype.filter`, subsequences, distinct keys |
| records.dfy | Records | `Item`, `ItemUI`, the form and the list rebuilds of the handlers |
| session.dfy | Session | `usersDefault`, the login lookup, the role checks |
| search.dfy | Search | `dataFilter` |
| summary.dfy | Summary | `rekap` |
| grouping.dfy | Grouping | the `reduce` of the two charts |
| property_order.dfy | PropertyOrder | the key order of `Object.values` |
| charts.dfy | Charts | `grafikKategori`, `grafikLokasi` |
| export.dfy | Export | the rows of `exportExcel` and `exportPDF` |
| inventory.dfy | Inventory | the component state and its handlers |

Three behaviours of the code that the model follows:

- `exportExcel` removes only `foto` from each record (`({ foto, ...rest }) => rest`). The
  sheet therefore also has the `id` column. Only the PDF table has the eight columns `Kode` …
  `Tahun`.
- `hapusItem` reads `user.role` before anything else. With nobody logged in it throws before
  any state changes, so `HapusItem` leaves the state unchanged then.
- `simpanItem` itself does not demand a fresh `Date.now()` value. So `SimpanItem` has no
  freshness precondition. Instead, it promises unique ids after the save when the ids were
  unique and `freshId` is new.

## Model

| member | source | states |
|---|---|---|
| Seqs.Filter | aplikasi_sarpras_sekolah.jsx:170-171 | `filter` keeps an order-preserving sublist: every kept element satisfies the predicate, every satisfying element is kept with its multiplicity, and a predicate true everywhere keeps the whole list |
| Records.RecordFormRoundTrip | aplikasi_sarpras_sekolah.jsx:127-137 | the record built from a form carries the id it is built under, and filling the form back from it gives the same form |
| Records.EditedFormIsComplete | aplikasi_sarpras_sekolah.jsx:126 | a record opened for editing passes the save guard exactly when its `nama` is non-empty and its `jumlah` non-zero |
| Records.EmptyFormIsIncomplete | aplikasi_sarpras_sekolah.jsx:148-158 | the cleared form has the condition `Baik`, the first of `kondisiList`, and fails the save guard |
| Records.FormOf | aplikasi_sarpras_sekolah.jsx:161-163 | the form filled from a displayed record rebuilds exactly that record under its id, and carries its photo |
| Records.Canonical | aplikasi_sarpras_sekolah.jsx:29 | dropping the photos keeps the length and each record at its position |
| Records.Displayed | aplikasi_sarpras_sekolah.jsx:56-57 | a loaded or imported list is displayed as the same records, in order, with no photo |
| Records.ReplaceById | aplikasi_sarpras_sekolah.jsx:140 | the update keeps the length and replaces exactly the records carrying the id |
| Records.ReplaceByIdUI | aplikasi_sarpras_sekolah.jsx:141 | the same on the displayed list, where the new copy carries the form's photo |
| Records.RemoveById | aplikasi_sarpras_sekolah.jsx:170 | deletion keeps an order-preserving sublist holding exactly the records of other ids, each with its multiplicity |
| Records.RemoveByIdUI | aplikasi_sarpras_sekolah.jsx:171 | the same on the displayed list, photos included |
| Records.CanonicalOfDisplayed | aplikasi_sarpras_sekolah.jsx:101-102 | a list installed into both hooks is in lockstep |
| Records.CanonicalAppend | aplikasi_sarpras_sekolah.jsx:144-145 | appending to both lists keeps the lockstep |
| Records.CanonicalReplace | aplikasi_sarpras_sekolah.jsx:140-141 | replacing by id in both lists keeps the lockstep |
| Records.CanonicalRemove | aplikasi_sarpras_sekolah.jsx:170-171 | deleting by id from both lists keeps the lockstep |
| Records.LockstepIds | aplikasi_sarpras_sekolah.jsx:32-33 | lists in lockstep have the same length and the same id at every position |
| Records.ReplaceKeepsIds | aplikasi_sarpras_sekolah.jsx:127-128 | an update under the edited id leaves the list of ids as it was |
| Records.ReplaceKeepsUnique | aplikasi_sarpras_sekolah.jsx:140 | an update keeps the ids unique |
| Records.AppendFreshKeepsUnique | aplikasi_sarpras_sekolah.jsx:144 | appending a record with a new id keeps the ids unique |
| Records.RemoveKeepsUnique | aplikasi_sarpras_sekolah.jsx:170 | deleting keeps the ids unique |
| Records.ReplaceWithOwnRecord | aplikasi_sarpras_sekolah.jsx:139-140 | with unique ids, saving an edited record unchanged leaves the list as it was |
| Records.ReplaceAbsentIsNoop | aplikasi_sarpras_sekolah.jsx:140 | an update whose id no record has leaves the list as it was |
| Session.FindUser | aplikasi_sarpras_sekolah.jsx:66-68 | `find` gives a user exactly when some entry matches both fields, and then the first such entry |
| Session.Login | aplikasi_sarpras_sekolah.jsx:65-68 | a login succeeds exactly when a default account has both credentials, and its user is such an account |
| Session.LoginTable | aplikasi_sarpras_sekolah.jsx:11-15 | the three accepted credential pairs and their roles; every other pair is refused |
| Session.MayDeleteByLogin | aplikasi_sarpras_sekolah.jsx:168 | the role check of `hapusItem` passes exactly after the login `admin`/`admin` |
| Session.FormVisibleByLogin | aplikasi_sarpras_sekolah.jsx:223 | the entry form is shown exactly after the logins `admin`/`admin` and `sarpras`/`sarpras`, and whoever may delete also sees the form |
| Search.Lower | aplikasi_sarpras_sekolah.jsx:175-176 | lower-casing keeps the length and maps each character |
| Search.IncludesEmpty | aplikasi_sarpras_sekolah.jsx:175-176 | every string includes the empty string |
| Search.IncludesBounds | aplikasi_sarpras_sekolah.jsx:175-176 | a string includes only strings no longer than itself, and includes itself |
| Search.MatchesTerm | aplikasi_sarpras_sekolah.jsx:175-176 | a record matches only a term that fits in its `nama` or its `kategori`, and matches every term equal to one of them up to case |
| Search.DataFilter | aplikasi_sarpras_sekolah.jsx:174-177 | the search result is an order-preserving sublist holding exactly the records whose lower-cased `nama` or `kategori` includes the lower-cased term, each matching record as often as in the list |
| Search.DataFilterEmptyTerm | aplikasi_sarpras_sekolah.jsx:174-177 | the empty term shows every record |
| Search.LowerIdempotent | aplikasi_sarpras_sekolah.jsx:175 | lower-casing twice is lower-casing once |
| Search.DataFilterIgnoresTermCase | aplikasi_sarpras_sekolah.jsx:175-176 | a term and its lower-cased form find the same records |
| Summary.Rekap | aplikasi_sarpras_sekolah.jsx:179-183 | three entries, in the order of `kondisiList`, each counting the records in its condition |
| Summary.FilterKondisiCount | aplikasi_sarpras_sekolah.jsx:181 | the filtered length is the number of records in that condition |
| Summary.FilterKondisiCounts | aplikasi_sarpras_sekolah.jsx:181 | the same for every condition at once |
| Summary.CountsPartition | aplikasi_sarpras_sekolah.jsx:9 | the three counts and the records in other conditions make up the list |
| Summary.CountUnlistedZero | aplikasi_sarpras_sekolah.jsx:9 | no record is outside `kondisiList` exactly when every condition is listed |
| Summary.RekapTotal | aplikasi_sarpras_sekolah.jsx:179-183 | the counts add up to at most the number of records, with equality exactly when every condition is in `kondisiList` |
| Summary.RekapEmpty | aplikasi_sarpras_sekolah.jsx:179-183 | with no records all three counts are zero |
| Summary.CountKondisiAppend | aplikasi_sarpras_sekolah.jsx:181 | appending a record raises only its own condition's count, by one |
| Summary.RekapAfterAppend | aplikasi_sarpras_sekolah.jsx:144 | after a new record is saved, the summary entry of its condition goes up by one and the others stay |
| Grouping.FindKey | aplikasi_sarpras_sekolah.jsx:187 | the lookup `a[key]` finds a property with that key, or reports that none exists |
| Grouping.FindKeyInKeys | aplikasi_sarpras_sekolah.jsx:187 | the lookup finds a property exactly when the key is among the keys created so far |
| Grouping.StepSpec | aplikasi_sarpras_sekolah.jsx:186-189 | one reducer step: an empty key returns the accumulator as it was; otherwise the total grows by the record's `jumlah`, and a new key is created after all existing ones |
| Grouping.StepSkip | aplikasi_sarpras_sekolah.jsx:186 | a record with an empty key leaves a correct summary correct |
| Grouping.StepUpdate | aplikasi_sarpras_sekolah.jsx:187-188 | adding a record to an existing key's total keeps the summary correct |
| Grouping.StepInsert | aplikasi_sarpras_sekolah.jsx:189 | creating the property of a new key keeps the summary correct |
| Grouping.StepSummarizes | aplikasi_sarpras_sekolah.jsx:186-190 | every reducer step keeps the summary correct |
| Grouping.FirstKeysAppend | aplikasi_sarpras_sekolah.jsx:185-191 | scanning one more record from the front meets its key last: the key is added at the end when non-empty and new |
| Grouping.Accumulate | aplikasi_sarpras_sekolah.jsx:185-191 | the reduce builds one property per distinct non-empty key, whose `jumlah` is the sum over the records with that key; the properties add up to the sum over all records with a non-empty key; the keys are created in the order of their first record |
| Grouping.PermutedSummarizes | aplikasi_sarpras_sekolah.jsx:185 | listing the entries of a summary in another order, each once, still gives a summary |
| Grouping.SummaryShape | aplikasi_sarpras_sekolah.jsx:186 | a summary has as many entries as distinct non-empty keys and no entry for the empty key |
| PropertyOrder.InsertByIndex | aplikasi_sarpras_sekolah.jsx:185 | insertion adds exactly the one element and its `jumlah` |
| PropertyOrder.SortByIndex | aplikasi_sarpras_sekolah.jsx:185 | the index keys come out sorted by numeric value, a permutation that keeps the total |
| PropertyOrder.ObjectValues | aplikasi_sarpras_sekolah.jsx:185 | `Object.values` lists every property once: a permutation that keeps the total and distinct keys |
| PropertyOrder.ObjectValuesOrder | aplikasi_sarpras_sekolah.jsx:185 | exactly the array-index keys come first, in ascending numeric order, then the other keys as a sublist in creation order |
| PropertyOrder.ObjectValuesNamedPart | aplikasi_sarpras_sekolah.jsx:185 | after the array-index keys come exactly the other properties, in creation order |
| PropertyOrder.KeysOfNamed | aplikasi_sarpras_sekolah.jsx:185 | the keys of the properties that are not array indices are the non-index keys, in the same order |
| PropertyOrder.ObjectValuesNoIndexKeys | aplikasi_sarpras_sekolah.jsx:193 | with no array-index key, the values come in creation order |
| Charts.Grafik | aplikasi_sarpras_sekolah.jsx:185-199 | one bar per distinct non-empty key, each with the sum of `jumlah` of its records; the bars add up to the `jumlah` of all records with a non-empty key |
| Charts.GrafikKategori | aplikasi_sarpras_sekolah.jsx:185-191 | one bar per distinct non-empty `kategori`, with the sum of `jumlah` over the records of that category |
| Charts.GrafikLokasi | aplikasi_sarpras_sekolah.jsx:193-199 | one bar per distinct non-empty `lokasi`, with the sum of `jumlah` over the records at that location |
| Charts.GrafikOrder | aplikasi_sarpras_sekolah.jsx:185-199 | the bars are the array-index keys ascending, then the other keys in the order of their first record, defined by a scan of the records from the front |
| Charts.GrafikKategoriTwoChairs | aplikasi_sarpras_sekolah.jsx:185-191 | two "Furniture" records of 10 and 5 give the single bar `Furniture: 15` |
| Charts.GrafikKategoriFirstSeen | aplikasi_sarpras_sekolah.jsx:185-191 | a "Meja" record followed by a "Kursi" record gives the "Meja" bar first |
| Export.SheetRows | aplikasi_sarpras_sekolah.jsx:80-82 | the sheet export fails exactly on an empty list; otherwise one row per record, in order, the record without its photo |
| Export.PdfRow | aplikasi_sarpras_sekolah.jsx:113-114 | eight cells, each the field that its header names |
| Export.PdfBody | aplikasi_sarpras_sekolah.jsx:106-114 | the PDF export fails exactly on an empty list; otherwise one row per record, in order, each cell the field under its header |
| Export.PdfRowDropsOnlyId | aplikasi_sarpras_sekolah.jsx:114 | a PDF row determines every field of its record except the id |
| Export.PdfFollowsSheet | aplikasi_sarpras_sekolah.jsx:80-82 | both exports refuse the same lists, and the PDF rows are the sheet rows in the same order |
| Export.SheetRoundTrip | aplikasi_sarpras_sekolah.jsx:95-102 | installing the exported rows as an import gives back the same records, in order and with their ids, only without photos |
| Export.ExportAfterImport | aplikasi_sarpras_sekolah.jsx:101-102 | exporting a freshly imported list gives back exactly the imported rows |
| Export.ExportOfSearch | aplikasi_sarpras_sekolah.jsx:252-253 | exporting the search result fails exactly when no record matches; with the empty term it fails only with no records |
| Inventory.Sarpras.constructor | aplikasi_sarpras_sekolah.jsx:32-47 | the initial state: empty lists, the empty form, no edit, nobody logged in |
| Inventory.Sarpras.Load | aplikasi_sarpras_sekolah.jsx:50-59 | a stored user is restored; a stored list fills both lists without photos; everything else stays |
| Inventory.Sarpras.HandleLogin | aplikasi_sarpras_sekolah.jsx:65-72 | success exactly for a default account's credentials, which becomes the user; a failure changes nothing |
| Inventory.Sarpras.Logout | aplikasi_sarpras_sekolah.jsx:74-77 | nobody is logged in; records, form and edit stay |
| Inventory.Sarpras.SimpanItem | aplikasi_sarpras_sekolah.jsx:125-159 | an incomplete form changes nothing; otherwise the edited id's records are replaced in both lists, or one record under `freshId` is appended to both; the form is cleared and the edit ends; lockstep and unique ids are kept |
| Inventory.Sarpras.EditItem | aplikasi_sarpras_sekolah.jsx:161-165 | the form holds the record and its photo and its id is under edit; the lists stay |
| Inventory.Sarpras.HapusItem | aplikasi_sarpras_sekolah.jsx:167-172 | deletes exactly when an administrator confirms, then removes every record with the id from both lists; otherwise nothing changes; lockstep and unique ids are kept |
| Inventory.Sarpras.ImportExcel | aplikasi_sarpras_sekolah.jsx:95-103 | the rows replace both lists, without photos; form, edit and user stay |

## Left out

- Rendering: the JSX markup, the pie and bar charts, their colours (`warna`, the bar fills) and
  the QR codes are presentation only.
- Persistence: `localStorage` is browser I/O. The mount effect takes the stored user and the
  stored list as parameters. The effect that writes `items` back on every change is not
  modelled.
- File formats: the XLSX and PDF encoding, `Blob`, the download links and `FileReader` belong
  to browser APIs and foreign libraries. An import is given its parsed rows, and an export ends
  at its rows. A photo is an opaque string.
- Dialogs and the clock: `alert` is UI. The answer of `confirm` is a parameter of `HapusItem`.
  `Date.now()` is the parameter `freshId` of `SimpanItem`. The dynamic `import` calls are not
  logic.
- Form field handlers (`setForm`, `setSearch`, `setLogin`) and the `Number(...)` coercions are
  UI plumbing. The search term is a parameter of `DataFilter`; the login fields are the
  parameters of `HandleLogin`.
- Numbers: `id` and `jumlah` are unbounded integers. The model has no floating point, `NaN`
  or string-valued `jumlah` from a sheet.
- Search.Lower: lower-cases only the ASCII letters `A`–`Z`, not the full Unicode case mapping
  of `toLowerCase`.
- Charts.Grafik: does not model keys that name a member of `Object.prototype`
  (`constructor`, `__proto__`, …). For such keys the lookup `a[key]` sees the inherited
  member.
- Form visibility: hiding the form and the Edit buttons for the role `kepala`, and the Hapus
  buttons for every role but `admin`, happens only in the UI. `Session.FormVisible` and
  `Session.MayDelete` state the conditions and `Session.FormVisibleByLogin` ties them to the
  logins; `SimpanItem` itself checks no role.
- Inventory.Sarpras.ImportExcel: imported rows are assumed to carry an integer `id`. A sheet
  row without one (for which `sheet_to_json` leaves `id` undefined) is not modelled. So the
  model misses that `hapusItem` of such a row removes every record without an id, and that
  editing one sets `editId` to `undefined`, which is `!== null`. `simpanItem` then takes the
  update branch with `Date.now()` as the id, and overwrites every record without an id.
