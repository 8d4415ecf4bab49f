/**
 * The backend exporter: each push appends a title row, the header row and one row
 * per lead below whatever the worksheet already holds.
 */
module SheetAppend {
  import opened Values
  import opened Text
  import opened Worksheets
  import opened LeadRows

  /** A command-line text argument that may be missing; Python's truthiness on it. */
  predicate Given(arg: Option<string>)
  {
    arg.Some? && arg.value != ""
  }

  /** The `Found <n> leads` ending of every title. */
  function FoundText(n: nat): string
  {
    "Found " + NatText(n) + " leads"
  }

  /** The title text of a push of `n` leads at `timestamp`. */
  function TitleText(industry: Option<string>, location: Option<string>, timestamp: string, n: nat): (t: string)
    ensures "SEARCH: " <= t
    ensures |FoundText(n)| <= |t| && t[|t| - |FoundText(n)|..] == FoundText(n)
    ensures Given(industry) && Given(location) ==>
      t == "SEARCH: " + industry.value + " in " + location.value + " | " + timestamp + " | " + FoundText(n)
    ensures !(Given(industry) && Given(location)) ==> t == "SEARCH: " + timestamp + " - " + FoundText(n)
  {
    var prefix := if Given(industry) && Given(location)
      then "SEARCH: " + industry.value + " in " + location.value + " | " + timestamp + " | "
      else "SEARCH: " + timestamp + " - ";
    assert "SEARCH: " <= prefix;
    var t := prefix + FoundText(n);
    assert t[|t| - |FoundText(n)|..] == FoundText(n);
    t
  }

  /** The title text followed by seven empty cells. */
  function TitleRow(title: string): (row: seq<Value>)
    ensures |row| == |Headers| && row[0] == Str(title)
    ensures forall j :: 1 <= j < |row| ==> row[j] == Str("")
  {
    [Str(title), Str(""), Str(""), Str(""), Str(""), Str(""), Str(""), Str("")]
  }

  /** The title `push_to_sheets` writes: the search when both parts were given, and
      the time and the number of leads. */
  method TitleOf(industry: Option<string>, location: Option<string>, timestamp: string, n: nat) returns (titleText: string)
    ensures titleText == TitleText(industry, location, timestamp, n)
  {
    if Given(industry) && Given(location) {
      titleText := "SEARCH: " + industry.value + " in " + location.value + " | " + timestamp + " | Found " + NatText(n) + " leads";
    } else {
      titleText := "SEARCH: " + timestamp + " - Found " + NatText(n) + " leads";
    }
  }

  /** The grid after a push onto `grid`: the title row written at the first row after
      the rows `get_all_values` returns, and the data block written below it. */
  function Pushed(grid: Grid, titleRow: seq<Value>, leads: seq<Record>): Grid
  {
    var n := |Trimmed(grid)|;
    Overlay(Overlay(grid, n, [titleRow]), n + 1, [Headers] + Rows(leads))
  }

  /** `push_to_sheets(leads, sheet_name, industry, location)` on the first worksheet;
      `timestamp` is the clock reading `datetime.now()` gives. */
  method PushToSheets(ws: Worksheet, leads: seq<Record>, industry: Option<string>, location: Option<string>, timestamp: string)
    modifies ws
    ensures ws.cells == Pushed(old(ws.cells), TitleRow(TitleText(industry, location, timestamp, |leads|)), leads)
  {
    ghost var start := ws.cells;
    var existing := ws.GetAllValues();
    var nextRow := |existing| + 1;
    var titleText := TitleOf(industry, location, timestamp, |leads|);
    var titleRow := [Str(titleText), Str(""), Str(""), Str(""), Str(""), Str(""), Str(""), Str("")];
    assert titleRow == TitleRow(TitleText(industry, location, timestamp, |leads|));
    ws.Update(nextRow, [titleRow]);
    ghost var titled := ws.cells;
    assert titled == Overlay(start, |existing|, [titleRow]);
    nextRow := nextRow + 1;
    var rows := DataBlock(leads);
    ws.Update(nextRow, rows);
    PushedIs(start, titleRow, leads, existing, rows);
  }

  lemma PushedIs(grid: Grid, titleRow: seq<Value>, leads: seq<Record>, existing: Grid, rows: Grid)
    requires existing == Trimmed(grid) && rows == [Headers] + Rows(leads)
    ensures Pushed(grid, titleRow, leads) == Overlay(Overlay(grid, |existing|, [titleRow]), |existing| + 1, rows)
  {
  }

  /** After a push, the rows `get_all_values` returned are untouched, and the title
      row, the header row and one row per lead are laid out from the first row after
      them (`LaidOut`: each row showing what was written and nothing else, the empty
      rows below the written block kept as they were). */
  lemma PushedLayout(grid: Grid, titleRow: seq<Value>, leads: seq<Record>)
    ensures Pushed(grid, titleRow, leads)[..|Trimmed(grid)|] == Trimmed(grid)
    ensures LaidOut(Pushed(grid, titleRow, leads), grid, |Trimmed(grid)|, [titleRow] + ([Headers] + Rows(leads)))
  {
    var n := |Trimmed(grid)|;
    TwoWrites(grid, n, titleRow, [Headers] + Rows(leads), Pushed(grid, titleRow, leads));
    assert grid[..n] == Trimmed(grid);
  }

  /** On a sheet whose last row is not empty (or an empty sheet), a push appends the
      title row, the header row and the lead rows, `None` cells shown empty, below
      the old rows. */
  lemma AppendOnTrimmed(grid: Grid, leads: seq<Record>, title: string)
    requires grid == [] || !BlankRow(grid[|grid| - 1])
    ensures Pushed(grid, TitleRow(title), leads) == grid + [TitleRow(title)] + [Headers] + FillAll(Rows(leads))
  {
    TrimmedKeeps(grid);
    AppendTwo(grid, TitleRow(title), Headers, Rows(leads));
  }

  /** In an appended grid the header row is just below the title row, and lead `i`'s
      row, as a push onto an empty stretch shows it, is `i + 2` rows below it. */
  lemma AppendRows(existing: Grid, titleRow: seq<Value>, header: seq<Value>, leads: seq<Record>, cells: Grid)
    requires cells == existing + [titleRow] + [header] + FillAll(Rows(leads))
    ensures cells[|existing|] == titleRow && cells[|existing| + 1] == header
    ensures forall i :: 0 <= i < |leads| ==> cells[|existing| + 2 + i] == Fill(FormatLeadForSheet(leads[i]))
  {
    Rows4(existing, titleRow, header, FillAll(Rows(leads)), cells);
    FilledRows(leads);
  }

  /** Every row an appending push adds is eight cells wide, as wide as the header. */
  lemma AppendWidth(existing: Grid, leads: seq<Record>, title: string, cells: Grid)
    requires cells == existing + [TitleRow(title)] + [Headers] + FillAll(Rows(leads))
    ensures forall i :: |existing| <= i < |cells| ==> |cells[i]| == 8
  {
    Rows4(existing, TitleRow(title), Headers, FillAll(Rows(leads)), cells);
    SuffixWidth(cells, existing, TitleRow(title), FillAll(Rows(leads)));
  }

  /** Where the rows of `existing + [titleRow] + [header] + data` sit. */
  lemma Rows4(existing: Grid, titleRow: seq<Value>, header: seq<Value>, data: Grid, cells: Grid)
    requires cells == existing + [titleRow] + [header] + data
    ensures |cells| == |existing| + 2 + |data|
    ensures cells[|existing|] == titleRow && cells[|existing| + 1] == header
    ensures forall i :: 0 <= i < |data| ==> cells[|existing| + 2 + i] == data[i]
  {
  }

  lemma SuffixWidth(cells: Grid, existing: Grid, titleRow: seq<Value>, data: Grid)
    requires |cells| == |existing| + 2 + |data| && |cells[|existing|]| == 8 && |cells[|existing| + 1]| == 8
    requires forall i :: 0 <= i < |data| ==> cells[|existing| + 2 + i] == data[i]
    requires forall j :: 0 <= j < |data| ==> |data[j]| == 8
    ensures forall i :: |existing| <= i < |cells| ==> |cells[i]| == 8
  {
    forall i | |existing| + 2 <= i < |cells| ensures |cells[i]| == 8 {
      assert cells[|existing| + 2 + (i - |existing| - 2)] == data[i - |existing| - 2];
    }
  }
}
