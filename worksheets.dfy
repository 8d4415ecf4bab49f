/**
 * A worksheet as the two sheet exporters see it through gspread: a grid of cell
 * values that `get_all_values` reads, `clear` empties and `update` overwrites
 * from an anchor cell in column A.
 */
module Worksheets {
  import opened Values

  type Grid = seq<seq<Value>>

  /** Row `i` of `grid`, or an empty row past its end. */
  function RowAt(grid: Grid, i: nat): seq<Value>
  {
    if i < |grid| then grid[i] else []
  }

  /** An empty cell: the empty text, or a `None` that nothing has overwritten. */
  predicate Blank(v: Value)
  {
    v == Str("") || v == Null
  }

  predicate BlankRow(row: seq<Value>)
  {
    forall j :: 0 <= j < |row| ==> Blank(row[j])
  }

  /** The rows `get_all_values` returns: the Sheets API leaves out the trailing rows
      that hold only empty cells. */
  function Trimmed(grid: Grid): (r: Grid)
    ensures r <= grid
    ensures r == [] || !BlankRow(r[|r| - 1])
    ensures forall i :: |r| <= i < |grid| ==> BlankRow(grid[i])
  {
    if grid != [] && BlankRow(grid[|grid| - 1]) then Trimmed(grid[..|grid| - 1]) else grid
  }

  /** A grid whose last row has a non-empty cell is returned whole. */
  lemma TrimmedKeeps(grid: Grid)
    requires grid == [] || !BlankRow(grid[|grid| - 1])
    ensures Trimmed(grid) == grid
  {
  }

  /** Cell `j` of `row`, or an empty cell past its end. */
  function CellAt(row: seq<Value>, j: nat): Value
  {
    if j < |row| then row[j] else Str("")
  }

  /** The cell a write leaves: a written `None` goes out as JSON `null`, which the
      Sheets API skips, so the cell keeps what it held. */
  function Written(w: Value, before: Value): Value
  {
    if w.Null? then before else w
  }

  /** A row written over an old one: the new cells, then the old cells to their right. */
  function WriteRow(written: seq<Value>, before: seq<Value>): (r: seq<Value>)
    ensures |r| == Max(|before|, |written|)
    ensures forall j :: 0 <= j < |written| ==> r[j] == Written(written[j], CellAt(before, j))
    ensures forall j :: |written| <= j < |r| ==> r[j] == before[j]
  {
    seq(Max(|before|, |written|), j requires 0 <= j < Max(|before|, |written|) =>
      if j < |written| then Written(written[j], CellAt(before, j)) else before[j])
  }

  /** What a cell shows when `v` is written into an empty one. */
  function Shown(v: Value): Value
  {
    if v.Null? then Str("") else v
  }

  /** A row written into empty cells. */
  function Fill(row: seq<Value>): (r: seq<Value>)
    ensures |r| == |row|
    ensures forall j :: 0 <= j < |row| ==> r[j] == Shown(row[j])
  {
    seq(|row|, j requires 0 <= j < |row| => Shown(row[j]))
  }

  function FillAll(rows: Grid): (r: Grid)
    ensures |r| == |rows|
    ensures forall i :: 0 <= i < |rows| ==> r[i] == Fill(rows[i])
  {
    seq(|rows|, i requires 0 <= i < |rows| => Fill(rows[i]))
  }

  predicate NoNull(row: seq<Value>)
  {
    forall j :: 0 <= j < |row| ==> !row[j].Null?
  }

  /** A row without `None` is written as it is. */
  lemma FillPlain(row: seq<Value>)
    requires NoNull(row)
    ensures Fill(row) == row
  {
  }

  /** Rows without `None` are written as they are. */
  lemma FillAllPlain(rows: Grid)
    requires forall i :: 0 <= i < |rows| ==> NoNull(rows[i])
    ensures FillAll(rows) == rows
  {
    forall i | 0 <= i < |rows| ensures FillAll(rows)[i] == rows[i] {
      FillPlain(rows[i]);
    }
  }

  /** A header row without `None` above data rows: only the data rows change. */
  lemma FillHeader(header: seq<Value>, data: Grid)
    requires NoNull(header)
    ensures FillAll([header] + data) == [header] + FillAll(data)
  {
    var block := [header] + data;
    FillPlain(header);
    forall i | 0 <= i < |block| ensures FillAll(block)[i] == ([header] + FillAll(data))[i] {
      if i > 0 {
        assert block[i] == data[i - 1];
      }
    }
  }

  function Max(a: nat, b: nat): nat { if a < b then b else a }

  /** `grid` after `block` is written with its top-left cell at row `at` (from 0), column A. */
  function Overlay(grid: Grid, at: nat, block: Grid): (r: Grid)
    ensures |r| == Max(|grid|, at + |block|)
    ensures forall i :: 0 <= i < |r| && !(at <= i < at + |block|) ==> r[i] == RowAt(grid, i)
    ensures forall i :: 0 <= i < |block| ==> r[at + i] == WriteRow(block[i], RowAt(grid, at + i))
  {
    RowsFrom(grid, at, block, 0)
  }

  /** Row `i` of `grid` after the write of `block` at row `at`. */
  function RowAfter(grid: Grid, at: nat, block: Grid, i: nat): seq<Value>
  {
    if at <= i < at + |block| then WriteRow(block[i - at], RowAt(grid, i)) else RowAt(grid, i)
  }

  /** Rows `i` onwards of `grid` after the write of `block` at row `at`. */
  function RowsFrom(grid: Grid, at: nat, block: Grid, i: nat): (r: Grid)
    requires i <= Max(|grid|, at + |block|)
    ensures |r| == Max(|grid|, at + |block|) - i
    ensures forall j :: 0 <= j < |r| ==> r[j] == RowAfter(grid, at, block, i + j)
    decreases Max(|grid|, at + |block|) - i
  {
    if i == Max(|grid|, at + |block|) then []
    else [RowAfter(grid, at, block, i)] + RowsFrom(grid, at, block, i + 1)
  }

  /** A block row written over a row starts with the block row, `None` cells aside:
      the written cells that are not `None` are there in place. */
  lemma WrittenPrefix(written: seq<Value>, before: seq<Value>)
    requires NoNull(written)
    ensures written <= WriteRow(written, before)
  {
  }

  /** `row` shows `written` from column A: each written cell in place, a `None` as an
      empty cell, and only empty cells to the right of them. */
  predicate Shows(row: seq<Value>, written: seq<Value>)
  {
    && |written| <= |row|
    && (forall j :: 0 <= j < |written| ==> if written[j].Null? then Blank(row[j]) else row[j] == written[j])
    && (forall j :: |written| <= j < |row| ==> Blank(row[j]))
  }

  /** A row written over an empty row shows exactly what was written. */
  lemma WriteShows(written: seq<Value>, before: seq<Value>)
    requires BlankRow(before)
    ensures Shows(WriteRow(written, before), written)
  {
    var r := WriteRow(written, before);
    forall j | 0 <= j < |written| && written[j].Null? ensures Blank(r[j]) {
      assert r[j] == CellAt(before, j);
    }
  }

  /** Writing just below the last row appends the block, `None` cells shown empty,
      and changes nothing above it. */
  lemma OverlayAppends(grid: Grid, block: Grid)
    ensures Overlay(grid, |grid|, block) == grid + FillAll(block)
  {
    var r := Overlay(grid, |grid|, block);
    forall i | 0 <= i < |r| ensures r[i] == (grid + FillAll(block))[i] {
      if i >= |grid| {
        var w := block[i - |grid|];
        assert r[i] == WriteRow(w, []);
        assert WriteRow(w, []) == Fill(w);
      }
    }
  }

  /** A row without `None` written just below the last row is appended as it is. */
  lemma AppendPlainRow(grid: Grid, row: seq<Value>)
    requires NoNull(row)
    ensures Overlay(grid, |grid|, [row]) == grid + [row]
  {
    OverlayAppends(grid, [row]);
    FillPlain(row);
    assert FillAll([row]) == [row];
  }

  /** `cells` is `grid` with `rows` written from row `n` on: the rows above `n` are
      kept, each written row shows what was written and nothing else, and the rows
      below the written ones are those of `grid`, all empty. */
  predicate LaidOut(cells: Grid, grid: Grid, n: nat, rows: Grid)
  {
    && n <= |grid|
    && |cells| == Max(|grid|, n + |rows|)
    && cells[..n] == grid[..n]
    && (forall i :: 0 <= i < |rows| ==> Shows(cells[n + i], rows[i]))
    && (forall i :: n + |rows| <= i < |cells| ==> cells[i] == grid[i] && BlankRow(cells[i]))
  }

  /** A row written at row `n`, then a block written just below it, on a grid whose rows
      from `n` on are empty, lays the row and the block out from row `n`. */
  lemma TwoWrites(grid: Grid, n: nat, row: seq<Value>, block: Grid, cells: Grid)
    requires n <= |grid|
    requires forall i :: n <= i < |grid| ==> BlankRow(grid[i])
    requires cells == Overlay(Overlay(grid, n, [row]), n + 1, block)
    ensures LaidOut(cells, grid, n, [row] + block)
  {
    TwoWritesAbove(grid, n, row, block, cells);
    TwoWritesRow(grid, n, row, block, cells);
    TwoWritesBlock(grid, n, row, block, cells);
    TwoWritesBelow(grid, n, row, block, cells);
    Assemble(cells, grid, n, row, block);
  }

  lemma TwoWritesAbove(grid: Grid, n: nat, row: seq<Value>, block: Grid, cells: Grid)
    requires n <= |grid|
    requires cells == Overlay(Overlay(grid, n, [row]), n + 1, block)
    ensures |cells| == Max(|grid|, n + 1 + |block|) && cells[..n] == grid[..n]
  {
    var g1 := Overlay(grid, n, [row]);
    forall i | 0 <= i < n ensures cells[i] == grid[i] {
      assert cells[i] == RowAt(g1, i);
      assert g1[i] == RowAt(grid, i);
    }
  }

  lemma TwoWritesRow(grid: Grid, n: nat, row: seq<Value>, block: Grid, cells: Grid)
    requires n <= |grid|
    requires forall i :: n <= i < |grid| ==> BlankRow(grid[i])
    requires cells == Overlay(Overlay(grid, n, [row]), n + 1, block)
    ensures n < |cells| && Shows(cells[n], row)
  {
    var g1 := Overlay(grid, n, [row]);
    assert cells[n] == RowAt(g1, n);
    assert g1[n] == WriteRow(row, RowAt(grid, n));
    WriteShows(row, RowAt(grid, n));
  }

  lemma TwoWritesBlock(grid: Grid, n: nat, row: seq<Value>, block: Grid, cells: Grid)
    requires n <= |grid|
    requires forall i :: n <= i < |grid| ==> BlankRow(grid[i])
    requires cells == Overlay(Overlay(grid, n, [row]), n + 1, block)
    ensures n + 1 + |block| <= |cells|
    ensures forall i :: 0 <= i < |block| ==> Shows(cells[n + 1 + i], block[i])
  {
    var g1 := Overlay(grid, n, [row]);
    forall i | 0 <= i < |block| ensures Shows(cells[n + 1 + i], block[i]) {
      assert RowAt(g1, n + 1 + i) == RowAt(grid, n + 1 + i);
      WriteShows(block[i], RowAt(grid, n + 1 + i));
    }
  }

  lemma TwoWritesBelow(grid: Grid, n: nat, row: seq<Value>, block: Grid, cells: Grid)
    requires n <= |grid|
    requires forall i :: n <= i < |grid| ==> BlankRow(grid[i])
    requires cells == Overlay(Overlay(grid, n, [row]), n + 1, block)
    ensures forall i :: n + 1 + |block| <= i < |cells| ==> cells[i] == grid[i] && BlankRow(cells[i])
  {
    var g1 := Overlay(grid, n, [row]);
    forall i | n + 1 + |block| <= i < |cells| ensures cells[i] == grid[i] && BlankRow(cells[i]) {
      assert cells[i] == RowAt(g1, i);
      assert g1[i] == RowAt(grid, i);
    }
  }

  /** The four parts of a two-write layout make `LaidOut`. */
  lemma Assemble(cells: Grid, grid: Grid, n: nat, row: seq<Value>, block: Grid)
    requires n <= |grid|
    requires |cells| == Max(|grid|, n + 1 + |block|) && cells[..n] == grid[..n]
    requires Shows(cells[n], row)
    requires forall i :: 0 <= i < |block| ==> Shows(cells[n + 1 + i], block[i])
    requires forall i :: n + 1 + |block| <= i < |cells| ==> cells[i] == grid[i] && BlankRow(cells[i])
    ensures LaidOut(cells, grid, n, [row] + block)
  {
    var rows := [row] + block;
    forall i | 0 <= i < |rows| ensures Shows(cells[n + i], rows[i]) {
      if i > 0 {
        assert rows[i] == block[i - 1];
        assert n + i == n + 1 + (i - 1);
      }
    }
  }

  /** Where a row, a header row and data rows laid out from row `n` sit. */
  lemma LaidOutParts(cells: Grid, grid: Grid, n: nat, row: seq<Value>, header: seq<Value>, data: Grid)
    requires LaidOut(cells, grid, n, [row] + ([header] + data))
    ensures |cells| == Max(|grid|, n + |data| + 2)
    ensures Shows(cells[n], row) && Shows(cells[n + 1], header)
    ensures forall i :: 0 <= i < |data| ==> Shows(cells[n + 2 + i], data[i])
    ensures forall i :: n + |data| + 2 <= i < |cells| ==> cells[i] == grid[i] && BlankRow(cells[i])
  {
    var rows := [row] + ([header] + data);
    assert rows[0] == row && rows[1] == header;
    forall i | 0 <= i < |data| ensures Shows(cells[n + 2 + i], data[i]) {
      assert rows[2 + i] == data[i];
    }
  }

  /** A row and then a header-and-data block, both written just below the last row,
      are appended; the row and the header hold no `None`. */
  lemma AppendTwo(grid: Grid, row: seq<Value>, header: seq<Value>, data: Grid)
    requires NoNull(row) && NoNull(header)
    ensures Overlay(Overlay(grid, |grid|, [row]), |grid| + 1, [header] + data) == grid + [row] + [header] + FillAll(data)
  {
    AppendPlainRow(grid, row);
    var top := grid + [row];
    OverlayAppends(top, [header] + data);
    FillHeader(header, data);
    assert top + ([header] + FillAll(data)) == grid + [row] + [header] + FillAll(data);
  }

  /** The first worksheet of a spreadsheet. */
  class Worksheet {
    var cells: Grid

    constructor (initial: Grid)
      ensures cells == initial
    {
      cells := initial;
    }

    /** `get_all_values()`: the rows up to the last one with a non-empty cell. */
    method GetAllValues() returns (v: Grid)
      ensures v == Trimmed(cells)
    {
      v := Trimmed(cells);
    }

    /** `clear()`. */
    method Clear()
      modifies this
      ensures cells == []
    {
      cells := [];
    }

    /** `update(values, 'A<row>')`, rows counted from 1. */
    method Update(row: nat, block: Grid)
      requires row >= 1
      modifies this
      ensures cells == Overlay(old(cells), row - 1, block)
    {
      cells := Overlay(cells, row - 1, block);
    }
  }
}

/**
 * The row layout both exporters share: the eight header labels and
 * `format_lead_for_sheet`, which the two exporters define identically.
 */
module LeadRows {
  import opened Values
  import opened Worksheets

  /** The lead field behind each column; the email column reads three fields. */
  const RowFields: seq<string> := ["name", "website", "email", "phone", "address", "rating", "review_count", "email_status"]

  /** The header row. */
  const Headers: seq<Value> :=
    [Str("Name"), Str("Website"), Str("Email"), Str("Phone"), Str("Address"), Str("Rating"), Str("Reviews"), Str("Email Status")]

  /** The email cell: `email`, else `verified_email`, else `primary_email`, each taken
      only when truthy, and the last one's value (or `''`) when none is. */
  function EmailCell(lead: Record): (v: Value)
    ensures Truthy(v) <==>
      Truthy(Get(lead, "email", Str(""))) || Truthy(Get(lead, "verified_email", Str(""))) || Truthy(Get(lead, "primary_email", Str("")))
    ensures Truthy(Get(lead, "email", Str(""))) ==> v == lead["email"]
    ensures !Truthy(Get(lead, "email", Str(""))) && Truthy(Get(lead, "verified_email", Str(""))) ==> v == lead["verified_email"]
    ensures !Truthy(Get(lead, "email", Str(""))) && !Truthy(Get(lead, "verified_email", Str(""))) ==>
      v == Get(lead, "primary_email", Str(""))
  {
    Or(Or(Get(lead, "email", Str("")), Get(lead, "verified_email", Str(""))), Get(lead, "primary_email", Str("")))
  }

  /** `format_lead_for_sheet(lead)`. */
  function FormatLeadForSheet(lead: Record): (row: seq<Value>)
    ensures |row| == 8
  {
    [Get(lead, "name", Str("")), Get(lead, "website", Str("")), EmailCell(lead), Get(lead, "phone", Str("")),
     Get(lead, "address", Str("")), Get(lead, "rating", Str("")), Get(lead, "review_count", Str("")),
     Get(lead, "email_status", Str(""))]
  }

  /** The row has one cell per header, in header order: each column is its lead field,
      `''` when missing, except the email column, which is `EmailCell`. */
  lemma FormatColumns(lead: Record)
    ensures |FormatLeadForSheet(lead)| == |RowFields| == |Headers|
    ensures forall j :: 0 <= j < |RowFields| && j != 2 ==> FormatLeadForSheet(lead)[j] == Get(lead, RowFields[j], Str(""))
    ensures FormatLeadForSheet(lead)[2] == EmailCell(lead)
  {
  }

  /** One formatted row per lead, in order. */
  function Rows(leads: seq<Record>): (r: Grid)
    ensures |r| == |leads|
    ensures forall i :: 0 <= i < |leads| ==> r[i] == FormatLeadForSheet(leads[i])
  {
    if leads == [] then [] else Rows(leads[..|leads| - 1]) + [FormatLeadForSheet(leads[|leads| - 1])]
  }

  /** Lead `i`'s row, as a push onto an empty stretch shows it. */
  lemma FilledRows(leads: seq<Record>)
    ensures |FillAll(Rows(leads))| == |leads|
    ensures forall i :: 0 <= i < |leads| ==> FillAll(Rows(leads))[i] == Fill(FormatLeadForSheet(leads[i]))
  {
  }

  /** The loop `rows = [headers]; for lead in leads: rows.append(format_lead_for_sheet(lead))`. */
  method DataBlock(leads: seq<Record>) returns (rows: Grid)
    ensures rows == [Headers] + Rows(leads)
  {
    rows := [Headers];
    for k := 0 to |leads|
      invariant rows == [Headers] + Rows(leads[..k])
    {
      rows := rows + [FormatLeadForSheet(leads[k])];
      assert leads[..k + 1][..k] == leads[..k];
    }
    assert leads[..|leads|] == leads;
  }

  /** The data block is as long as the leads plus the header, and every row of it is
      as wide as the header. */
  lemma {:induction false} BlockShape(leads: seq<Record>)
    ensures |[Headers] + Rows(leads)| == |leads| + 1
    ensures ([Headers] + Rows(leads))[0] == Headers
    ensures forall i :: 0 <= i < |leads| + 1 ==> |([Headers] + Rows(leads))[i]| == 8
  {
    var block := [Headers] + Rows(leads);
    forall i | 0 <= i < |leads| + 1 ensures |block[i]| == 8 {
      if i > 0 {
        assert block[i] == Rows(leads)[i - 1] == FormatLeadForSheet(leads[i - 1]);
      }
    }
  }
}
