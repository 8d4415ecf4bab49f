/**
 * The standalone exporter: each push clears the first worksheet and writes the
 * header row and one row per lead from cell A1.
 */
module SheetRewrite {
  import opened Values
  import opened Worksheets
  import opened LeadRows

  /** `push_to_sheets(leads, sheet_name)` on the first worksheet. */
  method PushToSheets(ws: Worksheet, leads: seq<Record>)
    modifies ws
    ensures ws.cells == [Headers] + FillAll(Rows(leads))
  {
    ws.Clear();
    var rows := DataBlock(leads);
    ws.Update(1, rows);
    OverlayAppends([], rows);
    FillHeader(Headers, Rows(leads));
    assert [] + FillAll(rows) == FillAll(rows);
  }

  /** After a push the sheet holds the header row and then one row per lead, in
      order, `None` cells shown empty, every row as wide as the header, whatever it
      held before. */
  lemma {:induction false} RewriteLayout(leads: seq<Record>, cells: Grid)
    requires cells == [Headers] + FillAll(Rows(leads))
    ensures |cells| == |leads| + 1 && cells[0] == Headers
    ensures forall i :: 0 <= i < |leads| ==> cells[i + 1] == Fill(FormatLeadForSheet(leads[i]))
    ensures forall i :: 0 <= i < |cells| ==> |cells[i]| == |Headers|
  {
    FilledRows(leads);
    forall i | 0 <= i < |leads| ensures cells[i + 1] == Fill(FormatLeadForSheet(leads[i])) {
      assert cells[i + 1] == FillAll(Rows(leads))[i];
    }
    forall i | 0 <= i < |cells| ensures |cells[i]| == |Headers| {
      if i > 0 {
        assert cells[i] == Fill(FormatLeadForSheet(leads[i - 1]));
      }
    }
  }

  /** The column under the `Email` header shows each lead's email cell, and every
      other column under header `j` shows lead field `RowFields[j]`, a `None` as an
      empty cell. */
  lemma {:induction false} RewriteColumns(leads: seq<Record>, cells: Grid)
    requires cells == [Headers] + FillAll(Rows(leads))
    ensures Headers[2] == Str("Email")
    ensures forall i :: 0 <= i < |leads| ==> |cells[i + 1]| == 8 && cells[i + 1][2] == Shown(EmailCell(leads[i]))
    ensures forall i, j :: 0 <= i < |leads| && 0 <= j < 8 && j != 2 ==>
      |cells[i + 1]| == 8 && cells[i + 1][j] == Shown(Get(leads[i], RowFields[j], Str("")))
  {
    RewriteLayout(leads, cells);
    forall i | 0 <= i < |leads|
      ensures |cells[i + 1]| == 8 && cells[i + 1][2] == Shown(EmailCell(leads[i]))
      ensures forall j :: 0 <= j < 8 && j != 2 ==> cells[i + 1][j] == Shown(Get(leads[i], RowFields[j], Str("")))
    {
      FormatColumns(leads[i]);
    }
  }
}
