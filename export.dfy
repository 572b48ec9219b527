/** `exportExcel` and `exportPDF`: the rows each report is built from, and the refusal of an
    empty list. The spreadsheet and PDF encodings themselves are not part of this model. */
module Export {
  import opened Wrappers
  import opened Records
  import opened Search

  /** The one way an export can fail: the list to export is empty ("Data kosong"). */
  datatype ExportError = DataKosong

  /** The rows of the spreadsheet: `data.map(({ foto, ...rest }) => rest)`, each displayed
      record without its photo but with its id. */
  function SheetRows(data: seq<ItemUI>): (r: Result<seq<Item>, ExportError>)
    ensures r.Err? <==> data == []
    ensures r.Ok? ==> |r.value| == |data|
    ensures r.Ok? ==> forall k :: 0 <= k < |data| ==> r.value[k] == data[k].item
  {
    if data == [] then Err(DataKosong) else Ok(Canonical(data))
  }

  /** A cell of the PDF table: text, or the number `jumlah`. */
  datatype Cell = Text(s: string) | Number(n: int)

  /** The header row of the PDF table. */
  const PdfHead: seq<string> := ["Kode", "Nama", "Jumlah", "Kondisi", "Lokasi", "Kategori", "Asal", "Tahun"]

  /** The field of a record shown under a column header, if the header names a column. */
  function ColumnValue(i: Item, column: string): Option<Cell> {
    match column
    case "Kode" => Some(Text(i.kode))
    case "Nama" => Some(Text(i.nama))
    case "Jumlah" => Some(Number(i.jumlah))
    case "Kondisi" => Some(Text(i.kondisi))
    case "Lokasi" => Some(Text(i.lokasi))
    case "Kategori" => Some(Text(i.kategori))
    case "Asal" => Some(Text(i.asal))
    case "Tahun" => Some(Text(i.tahun))
    case _ => None
  }

  /** One body row of the PDF table: the cell under each header is that column's field. */
  function PdfRow(i: Item): (row: seq<Cell>)
    ensures |row| == |PdfHead|
    ensures forall c :: 0 <= c < |PdfHead| ==> ColumnValue(i, PdfHead[c]) == Some(row[c])
  {
    [Text(i.kode), Text(i.nama), Number(i.jumlah), Text(i.kondisi),
     Text(i.lokasi), Text(i.kategori), Text(i.asal), Text(i.tahun)]
  }

  /** The body of the PDF table, one row per displayed record, in order. */
  function PdfBody(data: seq<ItemUI>): (r: Result<seq<seq<Cell>>, ExportError>)
    ensures r.Err? <==> data == []
    ensures r.Ok? ==> |r.value| == |data|
    ensures r.Ok? ==> forall k, c :: 0 <= k < |data| && 0 <= c < |PdfHead| ==>
      |r.value[k]| == |PdfHead| && ColumnValue(data[k].item, PdfHead[c]) == Some(r.value[k][c])
  {
    if data == [] then Err(DataKosong) else Ok(seq(|data|, k requires 0 <= k < |data| => PdfRow(data[k].item)))
  }

  /** A PDF row shows every field of the record except its id: two records with the same row
      differ at most in their ids. */
  lemma PdfRowDropsOnlyId(a: Item, b: Item)
    requires PdfRow(a) == PdfRow(b)
    ensures a.(id := b.id) == b
  {
  }

  /** Both reports refuse the same lists, and the PDF rows are the sheet rows, shown column by
      column, in the same order. */
  lemma PdfFollowsSheet(data: seq<ItemUI>)
    ensures PdfBody(data).Ok? <==> SheetRows(data).Ok?
    ensures SheetRows(data).Ok? ==> forall k :: 0 <= k < |data| ==>
      PdfBody(data).value[k] == PdfRow(SheetRows(data).value[k])
  {
  }

  /** Importing the sheet of a list gives back its records, in order, with their ids; only
      the photos are lost. */
  lemma {:induction false} SheetRoundTrip(data: seq<ItemUI>)
    requires data != []
    ensures SheetRows(data) == Ok(Canonical(data))
    ensures Canonical(Displayed(SheetRows(data).value)) == Canonical(data)
    ensures forall u :: u in Displayed(SheetRows(data).value) ==> u.foto == None
  {
    var rows := SheetRows(data).value;
    assert rows == Canonical(data);
    CanonicalOfDisplayed(rows);
  }

  /** Exporting a freshly imported list gives back exactly the imported rows. */
  lemma ExportAfterImport(rows: seq<Item>)
    requires rows != []
    ensures SheetRows(Displayed(rows)) == Ok(rows)
  {
    CanonicalOfDisplayed(rows);
  }

  /** The report buttons export the search result: with any search term an export fails
      exactly when nothing matches, and with the empty term it is the whole list. */
  lemma ExportOfSearch(ui: seq<ItemUI>, term: string)
    ensures SheetRows(DataFilter(ui, term)).Err? <==> forall u :: u in ui ==> !MatchesTerm(term)(u)
    ensures SheetRows(DataFilter(ui, "")).Ok? <==> ui != []
  {
    var r := DataFilter(ui, term);
    if r != [] {
      assert r[0] in r;
    }
    DataFilterEmptyTerm(ui);
  }
}
