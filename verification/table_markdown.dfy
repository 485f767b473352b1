/**
 The event machine of TableParser, and table_markdown as a whole: what it prints for a table with merged
 cells, and that its own output comes back from it unchanged.
 */
module TableMarkdown {
  import opened Outcomes
  import opened TableLayout
  import opened TablePipes
  import opened TableText

  // ---------- Parsing ----------

  /** What html.parser reports.  An attribute is None when its value is not an integer. */
  datatype Event =
    | StartTag(tag: string, attributes: map<string, Option<int>>)
    | Data(text: string)
    | EndTag(tag: string)

  datatype ParserState = ParserState(
    rows: seq<seq<Cell>>,
    row: Option<seq<Cell>>,
    cell: Option<string>,
    span: (nat, nat))

  const START := ParserState([], None, None, (1, 1))

  predicate IsCellTag(tag: string) {
    tag == "td" || tag == "th"
  }

  function SpanOf(attributes: map<string, Option<int>>, key: string): Option<nat> {
    var value := if key in attributes then attributes[key] else Some(1);
    if value.Some? && 1 <= value.value <= 100 then Some(value.value) else None
  }

  function Step(st: ParserState, e: Event): Result<ParserState, TableError> {
    match e
    case StartTag(tag, attributes) =>
      if tag == "tr" then Success(st.(row := Some([])))
      else if IsCellTag(tag) then
        match (SpanOf(attributes, "rowspan"), SpanOf(attributes, "colspan"))
        case (Some(high), Some(wide)) => Success(st.(cell := Some(""), span := (high, wide)))
        case (_, _) => Failure(InvalidSpan)
      else if tag == "br" && st.cell.Some? then Success(st.(cell := Some(st.cell.value + "\n")))
      else Success(st)
    case Data(text) =>
      if st.cell.Some? then Success(st.(cell := Some(st.cell.value + text))) else Success(st)
    case EndTag(tag) =>
      if IsCellTag(tag) && st.cell.Some? && st.row.Some? then
        var cell := Cell(Strip(st.cell.value), st.span.0, st.span.1);
        Success(st.(row := Some(st.row.value + [cell]), cell := None))
      else if tag == "tr" && st.row.Some? then
        Success(st.(rows := st.rows + [st.row.value], row := None))
      else Success(st)
  }

  function Run(st: ParserState, events: seq<Event>): Result<ParserState, TableError>
    decreases |events|
  {
    if events == [] then Success(st)
    else
      match Step(st, events[0])
      case Success(next) => Run(next, events[1..])
      case Failure(error) => Failure(error)
  }

  function ParsedRows(events: seq<Event>): Result<seq<seq<Cell>>, TableError> {
    match Run(START, events)
    case Success(st) => Success(st.rows)
    case Failure(error) => Failure(error)
  }

  class TableParser {
    var rows: seq<seq<Cell>>
    var row: Option<seq<Cell>>
    var cell: Option<string>
    var span: (nat, nat)

    ghost function State(): ParserState
      reads this
    {
      ParserState(rows, row, cell, span)
    }

    constructor ()
      ensures State() == START
    {
      rows, row, cell, span := [], None, None, (1, 1);
    }

    method HandleStartTag(tag: string, attributes: map<string, Option<int>>) returns (valid: bool)
      modifies this
      ensures match Step(old(State()), StartTag(tag, attributes))
              case Success(next) => valid && State() == next
              case Failure(_) => !valid
    {
      valid := true;
      if tag == "tr" {
        row := Some([]);
      } else if IsCellTag(tag) {
        cell := Some("");
        var high, wide := SpanOf(attributes, "rowspan"), SpanOf(attributes, "colspan");
        if high.None? || wide.None? {
          return false;
        }
        span := (high.value, wide.value);
      } else if tag == "br" && cell.Some? {
        cell := Some(cell.value + "\n");
      }
    }

    method HandleData(data: string)
      modifies this
      ensures Step(old(State()), Data(data)) == Success(State())
    {
      if cell.Some? {
        cell := Some(cell.value + data);
      }
    }

    method HandleEndTag(tag: string)
      modifies this
      ensures Step(old(State()), EndTag(tag)) == Success(State())
    {
      if IsCellTag(tag) && cell.Some? && row.Some? {
        row := Some(row.value + [Cell(Strip(cell.value), span.0, span.1)]);
        cell := None;
      } else if tag == "tr" && row.Some? {
        rows := rows + [row.value];
        row := None;
      }
    }

    method Feed(events: seq<Event>) returns (valid: bool)
      modifies this
      ensures match Run(old(State()), events)
              case Success(last) => valid && State() == last
              case Failure(_) => !valid
    {
      for k := 0 to |events|
        invariant Run(old(State()), events) == Run(State(), events[k..])
      {
        assert events[k..][0] == events[k] && events[k..][1..] == events[k + 1..];
        match events[k] {
          case StartTag(tag, attributes) =>
            var fine := HandleStartTag(tag, attributes);
            if !fine {
              return false;
            }
          case Data(text) =>
            HandleData(text);
          case EndTag(tag) =>
            HandleEndTag(tag);
        }
      }
      valid := true;
    }
  }

  ghost predicate ValidState(st: ParserState) {
    && ValidRows(st.rows)
    && (st.row.Some? ==> ValidRows([st.row.value]))
    && ValidCell(Cell("", st.span.0, st.span.1))
  }

  /** Whatever the input, the recorded cells have spans between 1 and 100. */
  lemma {:induction false} RunIsValid(st: ParserState, events: seq<Event>)
    requires ValidState(st)
    ensures Run(st, events).Success? ==> ValidState(Run(st, events).value)
    decreases |events|
  {
    if events == [] {
    } else if Step(st, events[0]).Success? {
      RunIsValid(Step(st, events[0]).value, events[1..]);
    }
  }

  // ---------- Events of a given table ----------

  function CellEvents(cell: Cell): seq<Event> {
    [StartTag("td", map["rowspan" := Some(cell.rowspan as int), "colspan" := Some(cell.colspan as int)]),
     Data(cell.text), EndTag("td")]
  }

  function RowEvents(row: seq<Cell>): seq<Event> {
    if row == [] then [] else CellEvents(row[0]) + RowEvents(row[1..])
  }

  function TableEvents(rows: seq<seq<Cell>>): seq<Event> {
    if rows == [] then []
    else RowTags(rows[0]) + TableEvents(rows[1..])
  }

  function RowTags(row: seq<Cell>): seq<Event> {
    [StartTag("tr", map[])] + (RowEvents(row) + [EndTag("tr")])
  }

  lemma {:induction false} RunAppend(st: ParserState, first: seq<Event>, second: seq<Event>)
    requires Run(st, first).Success?
    ensures Run(st, first + second) == Run(Run(st, first).value, second)
    decreases |first|
  {
    if first == [] {
      assert first + second == second;
    } else {
      RunAppend(Step(st, first[0]).value, first[1..], second);
      assert (first + second)[1..] == first[1..] + second;
    }
  }

  lemma CellIsRecorded(st: ParserState, cell: Cell)
    requires st.row.Some? && ValidCell(cell) && Strip(cell.text) == cell.text
    ensures Run(st, CellEvents(cell))
            == Success(st.(row := Some(st.row.value + [cell]), cell := None, span := (cell.rowspan, cell.colspan)))
  {
    var events := CellEvents(cell);
    var inside := Step(st, events[0]).value;
    var filled := Step(inside, events[1]).value;
    assert filled.cell.value == cell.text;
    assert events[1..][1..] == [events[2]];
    assert Run(filled, [events[2]]) == Step(filled, events[2]);
  }

  lemma {:induction false} RowIsRecorded(st: ParserState, row: seq<Cell>)
    requires st.row.Some? && st.cell.None? && ValidRows([row])
    requires forall cell :: cell in row ==> Strip(cell.text) == cell.text
    ensures Run(st, RowEvents(row)).Success?
    ensures var after := Run(st, RowEvents(row)).value;
            after.rows == st.rows && after.row == Some(st.row.value + row) && after.cell.None?
    decreases |row|
  {
    if row == [] {
      assert st.row.value + row == st.row.value;
    } else {
      assert row in [row] && ValidCell(row[0]);
      CellIsRecorded(st, row[0]);
      var next := Run(st, CellEvents(row[0])).value;
      assert forall cell :: cell in row[1..] ==> cell in row;
      RowIsRecorded(next, row[1..]);
      RunAppend(st, CellEvents(row[0]), RowEvents(row[1..]));
      assert st.row.value + [row[0]] + row[1..] == st.row.value + row;
    }
  }

  lemma RowTagsAreRecorded(st: ParserState, row: seq<Cell>)
    requires st.row.None? && st.cell.None? && ValidRows([row])
    requires forall cell :: cell in row ==> Strip(cell.text) == cell.text
    ensures Run(st, RowTags(row)).Success?
    ensures var after := Run(st, RowTags(row)).value;
            after.rows == st.rows + [row] && after.row.None? && after.cell.None?
  {
    var open := st.(row := Some([]));
    RowIsRecorded(open, row);
    var full := Run(open, RowEvents(row)).value;
    assert [] + row == row;
    assert Run(full, [EndTag("tr")]) == Step(full, EndTag("tr"));
    RunAppend(open, RowEvents(row), [EndTag("tr")]);
    RunAppend(st, [StartTag("tr", map[])], RowEvents(row) + [EndTag("tr")]);
    assert Run(st, [StartTag("tr", map[])]) == Success(open);
  }

  lemma {:induction false} RowsAreRecorded(st: ParserState, rows: seq<seq<Cell>>)
    requires st.row.None? && st.cell.None? && ValidRows(rows)
    requires forall row, cell :: row in rows && cell in row ==> Strip(cell.text) == cell.text
    ensures Run(st, TableEvents(rows)).Success? && Run(st, TableEvents(rows)).value.rows == st.rows + rows
    decreases |rows|
  {
    if rows == [] {
    } else {
      assert rows[0] in rows;
      RowTagsAreRecorded(st, rows[0]);
      var next := Run(st, RowTags(rows[0])).value;
      assert forall r :: r in rows[1..] ==> r in rows;
      RowsAreRecorded(next, rows[1..]);
      RunAppend(st, RowTags(rows[0]), TableEvents(rows[1..]));
      assert st.rows + [rows[0]] + rows[1..] == st.rows + rows;
    }
  }

  /** A table written out as tags is read back cell for cell. */
  lemma ParserReadsTables(rows: seq<seq<Cell>>)
    requires ValidRows(rows)
    requires forall row, cell :: row in rows && cell in row ==> Strip(cell.text) == cell.text
    ensures ParsedRows(TableEvents(rows)) == Success(rows)
  {
    RowsAreRecorded(START, rows);
    assert [] + rows == rows;
  }

  // ---------- Printing ----------

  function Bottom(ps: seq<Placement>): (height: nat)
    ensures forall i :: 0 <= i < |ps| ==> ps[i].top + ps[i].cell.rowspan <= height
  {
    if ps == [] then 0
    else
      var rest := Bottom(ps[..|ps| - 1]);
      var last := ps[|ps| - 1].top + ps[|ps| - 1].cell.rowspan;
      if rest < last then last else rest
  }

  /** What the reader of the printed table sees at (y, x): the text of the cell there, or the unreadable mark. */
  function LabelAt(ps: seq<Placement>, y: nat, x: nat): string {
    if ps == [] then UNREADABLE
    else if ps[|ps| - 1].Covers(y, x) then ps[|ps| - 1].cell.text
    else LabelAt(ps[..|ps| - 1], y, x)
  }

  function RowCells(ps: seq<Placement>, y: nat, width: nat): (cells: seq<string>)
    ensures |cells| == width
  {
    if width == 0 then [] else RowCells(ps, y, width - 1) + [CellText(LabelAt(ps, y, width - 1))]
  }

  function RuleCells(width: nat): (cells: seq<string>)
    ensures |cells| == width && forall x :: 0 <= x < width ==> cells[x] == "---"
  {
    seq(width, x => "---")
  }

  function RowLines(ps: seq<Placement>, first: nat, last: nat, width: nat): (lines: seq<string>)
    requires first <= last
    ensures |lines| == last - first
    ensures forall i :: 0 <= i < |lines| ==> lines[i] == Line(RowCells(ps, first + i, width))
    decreases last - first
  {
    if first == last then [] else RowLines(ps, first, last - 1, width) + [Line(RowCells(ps, last - 1, width))]
  }

  /** The header row, the rule, the other rows. */
  function PrintedLines(ps: seq<Placement>): (lines: seq<string>)
    requires Bottom(ps) >= 1
  {
    var width := Extent(ps);
    RowLines(ps, 0, 1, width) + [Line(RuleCells(width))] + RowLines(ps, 1, Bottom(ps), width)
  }

  predicate RowTaken(grid: Grid, y: int) {
    exists q :: q in grid && q.0 == y
  }

  predicate ColumnTaken(grid: Grid, x: int) {
    exists q :: q in grid && q.1 == x
  }

  /** One more than the largest row index and column index of the dictionary. */
  ghost predicate Bounds(grid: Grid, height: nat, width: nat) {
    && (forall q :: q in grid ==> q.0 < height && q.1 < width)
    && RowTaken(grid, height - 1)
    && ColumnTaken(grid, width - 1)
  }

  /** The two maxima over the dictionary. */
  method GridBounds(grid: Grid) returns (height: nat, width: nat)
    requires |grid| > 0
    ensures Bounds(grid, height, width)
  {
    var rest: set<(nat, nat)> := grid.Keys;
    height, width := 0, 0;
    while rest != {}
      invariant rest <= grid.Keys
      invariant height == 0 ==> rest == grid.Keys
      invariant width == 0 ==> rest == grid.Keys
      invariant height > 0 ==> RowTaken(grid, height - 1)
      invariant width > 0 ==> ColumnTaken(grid, width - 1)
      invariant forall q :: q in grid && q !in rest ==> q.0 < height && q.1 < width
      decreases |rest|
    {
      var q :| q in rest;
      rest := rest - {q};
      if height <= q.0 {
        height := q.0 + 1;
      }
      if width <= q.1 {
        width := q.1 + 1;
      }
    }
  }

  ghost predicate RowOccupied(ps: seq<Placement>, y: int) {
    y >= 0 && exists x: nat :: Occupied(ps, y, x)
  }

  ghost predicate ColumnOccupied(ps: seq<Placement>, x: int) {
    x >= 0 && exists y: nat :: Occupied(ps, y, x)
  }

  lemma {:induction false} BottomIsReached(ps: seq<Placement>)
    requires ps != [] && forall i :: 0 <= i < |ps| ==> ValidCell(ps[i].cell)
    ensures RowOccupied(ps, Bottom(ps) - 1)
    decreases |ps|
  {
    var front, p := ps[..|ps| - 1], ps[|ps| - 1];
    assert ps == front + [p];
    var low := p.top + p.cell.rowspan - 1;
    if Bottom(ps) - 1 == low {
      assert p.Covers(low, p.left);
      OccupiedAppend(front, p, low, p.left);
    } else {
      assert forall i :: 0 <= i < |front| ==> front[i] == ps[i];
      BottomIsReached(front);
      var x: nat :| Occupied(front, Bottom(front) - 1, x);
      OccupiedAppend(front, p, Bottom(front) - 1, x);
    }
  }

  lemma {:induction false} ExtentIsReached(ps: seq<Placement>)
    requires ps != [] && forall i :: 0 <= i < |ps| ==> ValidCell(ps[i].cell)
    ensures ColumnOccupied(ps, Extent(ps) - 1)
    decreases |ps|
  {
    var front, p := ps[..|ps| - 1], ps[|ps| - 1];
    assert ps == front + [p];
    var right := p.Right() - 1;
    if Extent(ps) - 1 == right {
      assert p.Covers(p.top, right);
      OccupiedAppend(front, p, p.top, right);
    } else {
      assert forall i :: 0 <= i < |front| ==> front[i] == ps[i];
      ExtentIsReached(front);
      var y: nat :| Occupied(front, y, Extent(front) - 1);
      OccupiedAppend(front, p, y, Extent(front) - 1);
    }
  }

  lemma HeightIsBottom(grid: Grid, ps: seq<Placement>, height: nat, width: nat)
    requires Tiles(grid, ps) && Bounds(grid, height, width)
    requires ps != [] && forall i :: 0 <= i < |ps| ==> ValidCell(ps[i].cell)
    ensures height == Bottom(ps)
  {
    BottomIsReached(ps);
    var x: nat :| Occupied(ps, Bottom(ps) - 1, x);
    assert (Bottom(ps) - 1, x) in grid;
    var q :| q in grid && q.0 == height - 1;
    assert Occupied(ps, q.0, q.1);
  }

  lemma WidthIsExtent(grid: Grid, ps: seq<Placement>, height: nat, width: nat)
    requires Tiles(grid, ps) && Bounds(grid, height, width)
    requires ps != [] && forall i :: 0 <= i < |ps| ==> ValidCell(ps[i].cell)
    ensures width == Extent(ps)
  {
    ExtentIsReached(ps);
    var y: nat :| Occupied(ps, y, Extent(ps) - 1);
    assert (y, Extent(ps) - 1) in grid;
    var q :| q in grid && q.1 == width - 1;
    assert Occupied(ps, q.0, q.1);
  }

  lemma {:induction false} LabelsAreCells(grid: Grid, ps: seq<Placement>, y: nat, x: nat)
    requires Tiles(grid, ps)
    ensures LabelAt(ps, y, x) == GridLabel(grid, y, x)
  {
    LabelIsSomeCell(ps, y, x);
  }

  lemma {:induction false} LabelIsSomeCell(ps: seq<Placement>, y: nat, x: nat)
    ensures if Occupied(ps, y, x)
            then exists i :: 0 <= i < |ps| && ps[i].Covers(y, x) && LabelAt(ps, y, x) == ps[i].cell.text
            else LabelAt(ps, y, x) == UNREADABLE
  {
    if ps == [] {
    } else {
      var front, p := ps[..|ps| - 1], ps[|ps| - 1];
      assert ps == front + [p];
      OccupiedAppend(front, p, y, x);
      LabelIsSomeCell(front, y, x);
      if !p.Covers(y, x) && Occupied(front, y, x) {
        var i :| 0 <= i < |front| && front[i].Covers(y, x) && LabelAt(front, y, x) == front[i].cell.text;
        assert ps[i] == front[i];
      }
    }
  }

  function GridLabel(grid: Grid, y: nat, x: nat): string {
    if (y, x) in grid then grid[(y, x)] else UNREADABLE
  }

  method PrintRow(grid: Grid, ghost ps: seq<Placement>, y: nat, width: nat) returns (cells: seq<string>)
    requires Tiles(grid, ps)
    ensures cells == RowCells(ps, y, width)
  {
    cells := [];
    for x := 0 to width
      invariant cells == RowCells(ps, y, x)
    {
      LabelsAreCells(grid, ps, y, x);
      var text := GridLabel(grid, y, x);
      cells := cells + [CellText(text)];
    }
  }

  lemma RowLinesSplit(ps: seq<Placement>, last: nat, width: nat)
    requires last >= 1
    ensures RowLines(ps, 0, last, width) == RowLines(ps, 0, 1, width) + RowLines(ps, 1, last, width)
  {
  }

  /** The printing loops, with the rule inserted after the first line. */
  method PrintGrid(grid: Grid, ghost ps: seq<Placement>) returns (text: string)
    requires Tiles(grid, ps) && ps != []
    requires forall i :: 0 <= i < |ps| ==> ValidCell(ps[i].cell)
    ensures Bottom(ps) >= 1 && text == Join(PrintedLines(ps), "\n")
  {
    BottomIsReached(ps);
    assert |grid| > 0 by {
      assert ps[0].Covers(ps[0].top, ps[0].left);
      assert (ps[0].top, ps[0].left) in grid;
    }
    var height, width := GridBounds(grid);
    HeightIsBottom(grid, ps, height, width);
    WidthIsExtent(grid, ps, height, width);
    var lines: seq<string> := [];
    for y := 0 to height
      invariant lines == RowLines(ps, 0, y, width)
    {
      var cells := PrintRow(grid, ps, y, width);
      lines := lines + [Line(cells)];
    }
    RowLinesSplit(ps, height, width);
    lines := lines[..1] + [Line(RuleCells(width))] + lines[1..];
    text := Join(lines, "\n");
  }

  lemma DoneCellsAreValid(rows: seq<seq<Cell>>)
    requires ValidRows(rows) && LayoutOf(rows).Done?
    ensures var ps := LayoutOf(rows).placed; forall i :: 0 <= i < |ps| ==> ValidCell(ps[i].cell)
  {
    LayoutCharacterised(rows);
    FlattenIsValid(rows, 0);
  }

  lemma {:induction false} FlattenIsValid(rows: seq<seq<Cell>>, y: nat)
    requires ValidRows(rows)
    ensures forall i :: 0 <= i < |Flatten(rows, y)| ==> ValidCell(Flatten(rows, y)[i].1)
  {
    if rows == [] {
    } else {
      assert forall r :: r in rows[1..] ==> r in rows;
      FlattenIsValid(rows[1..], y + 1);
      assert rows[0] in rows;
    }
  }

  lemma EmptyTogether(grid: Grid, ps: seq<Placement>)
    requires Tiles(grid, ps) && forall i :: 0 <= i < |ps| ==> ValidCell(ps[i].cell)
    ensures |grid| == 0 <==> ps == []
  {
    if ps == [] {
      forall q: (nat, nat) ensures q !in grid {
        assert q == (q.0, q.1) && !Occupied(ps, q.0, q.1);
      }
      assert grid == map[];
    } else {
      assert ps[0].Covers(ps[0].top, ps[0].left);
      assert (ps[0].top, ps[0].left) in grid;
    }
  }

  /** The whole of table_markdown; `events` is what html.parser makes of `content`. */
  method Convert(content: string, events: seq<Event>) returns (result: Result<string, TableError>)
    ensures !HasTableTag(content) ==> result == Success(PipeTable(content))
    ensures HasTableTag(content) ==>
              match ParsedRows(events)
              case Failure(_) => result == Failure(InvalidSpan)
              case Success(rows) =>
                match LayoutOf(rows)
                case Overlap(_, _) => result == Failure(Overlapping)
                case Done(ps) =>
                  if ps == [] then result == Success("")
                  else Bottom(ps) >= 1 && result == Success(Join(PrintedLines(ps), "\n"))
  {
    if !HasTableTag(content) {
      return Success(PipeTable(content));
    }
    var parser := new TableParser();
    RunIsValid(START, events);
    var valid := parser.Feed(events);
    if !valid {
      return Failure(InvalidSpan);
    }
    var rows := parser.rows;
    var filled := FillGrid(rows);
    if filled.Failure? {
      return Failure(filled.error);
    }
    var grid := filled.value;
    ghost var ps := LayoutOf(rows).placed;
    DoneCellsAreValid(rows);
    EmptyTogether(grid, ps);
    if |grid| == 0 {
      return Success("");
    }
    var text := PrintGrid(grid, ps);
    result := Success(text);
  }
}
