// CSV export of the working set: a header row, then one row per shown record
// with the amount rendered to two decimals. Rows are kept as lists of fields;
// csv quoting and the file itself are not modelled.

module Export {
  import opened Wrappers
  import opened Amounts
  import opened Records

  const Header: seq<string> := ["Description", "Amount", "Category", "Date"]

  /** The row written for one record. */
  function ExportRow(d: Doc): (row: seq<string>)
    ensures |row| == |Header|
    ensures row[0] == d.rec.description && row[2] == d.rec.category && row[3] == d.rec.date
    ensures row[1] == FormatCents(d.rec.amount)
  {
    [d.rec.description, FormatCents(d.rec.amount), d.rec.category, d.rec.date]
  }

  /** Reading a data row back: four fields, the second a number. */
  function ReadRow(row: seq<string>): (r: Option<Expense>)
    ensures r.Some? <==> |row| == 4 && ParseAmount(row[1]).Some?
  {
    if |row| != 4 then None
    else match ParseAmount(row[1])
      case None => None
      case Some(amount) => Some(Expense(row[0], amount, row[2], row[3]))
  }

  /** Reading the data rows of a table back, failing on the first bad row. */
  function ReadRows(rows: seq<seq<string>>): (r: Option<seq<Expense>>)
    ensures r.Some? ==> |r.value| == |rows|
  {
    if rows == [] then Some([])
    else
      var init := ReadRows(rows[..|rows| - 1]);
      var last := ReadRow(rows[|rows| - 1]);
      if init.Some? && last.Some? then Some(init.value + [last.value]) else None
  }

  /** The records carried by a working set, in its order. */
  function RecordsOf(ws: seq<Doc>): (es: seq<Expense>)
    ensures |es| == |ws|
    ensures forall i :: 0 <= i < |ws| ==> es[i] == ws[i].rec
  {
    if ws == [] then [] else RecordsOf(ws[..|ws| - 1]) + [ws[|ws| - 1].rec]
  }

  /** `rows` is the header followed by exactly the rows of `ws`, in order. */
  predicate IsExportOf(ws: seq<Doc>, rows: seq<seq<string>>) {
    && |rows| == |ws| + 1
    && rows[0] == Header
    && forall i :: 0 <= i < |ws| ==> rows[i + 1] == ExportRow(ws[i])
  }

  /** A row written for a record reads back as that record. */
  lemma ReadRowExport(d: Doc)
    ensures ReadRow(ExportRow(d)) == Some(d.rec)
  {
    AmountRoundTrip(d.rec.amount);
  }

  lemma ReadRowsSnoc(init: seq<seq<string>>, row: seq<string>, e: seq<Expense>, last: Expense)
    requires ReadRows(init) == Some(e) && ReadRow(row) == Some(last)
    ensures ReadRows(init + [row]) == Some(e + [last])
  {
    assert (init + [row])[..|init|] == init;
  }

  /** Reading rows produced by `ExportRow` yields their records, in order. */
  lemma {:induction false} ReadExportRows(ws: seq<Doc>, data: seq<seq<string>>)
    requires |data| == |ws|
    requires forall i :: 0 <= i < |ws| ==> data[i] == ExportRow(ws[i])
    ensures ReadRows(data) == Some(RecordsOf(ws))
  {
    if ws != [] {
      var n := |ws|;
      var init, last := data[..n - 1], ExportRow(ws[n - 1]);
      assert data == init + [last];
      assert ReadRows(init) == Some(RecordsOf(ws[..n - 1])) by {
        ReadExportRows(ws[..n - 1], init);
      }
      assert ReadRow(last) == Some(ws[n - 1].rec) by {
        ReadRowExport(ws[n - 1]);
      }
      ReadRowsSnoc(init, last, RecordsOf(ws[..n - 1]), ws[n - 1].rec);
    }
  }

  /** Reading an exported table back, below its header, yields the exported
      records in working-set order. */
  lemma ReadExported(ws: seq<Doc>, rows: seq<seq<string>>)
    requires IsExportOf(ws, rows)
    ensures rows[0] == Header
    ensures ReadRows(rows[1..]) == Some(RecordsOf(ws))
  {
    ReadExportRows(ws, rows[1..]);
  }

  /** What the export button ends in. `WriteFailed` stands for any error raised
      while opening or writing the file. */
  datatype ExportOutcome = NothingToExport | Cancelled | WriteFailed | Written(rows: seq<seq<string>>)

  /** `export_data`: nothing when the working set is empty, nothing when the
      save dialog returns no path, otherwise the header and one row per record. */
  method ExportData(ws: seq<Doc>, path: string, writeFails: bool) returns (outcome: ExportOutcome)
    ensures outcome == NothingToExport <==> ws == []
    ensures outcome == Cancelled <==> ws != [] && path == ""
    ensures outcome == WriteFailed <==> ws != [] && path != "" && writeFails
    ensures outcome.Written? ==> IsExportOf(ws, outcome.rows)
  {
    if ws == [] {
      return NothingToExport;
    }
    if path == "" {
      return Cancelled;
    }
    if writeFails {
      return WriteFailed;
    }
    var rows := [Header];
    for i := 0 to |ws|
      invariant |rows| == i + 1 && rows[0] == Header
      invariant forall j :: 0 <= j < i ==> rows[j + 1] == ExportRow(ws[j])
    {
      rows := rows + [ExportRow(ws[i])];
    }
    return Written(rows);
  }
}
