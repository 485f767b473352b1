/**
 The merged-cell layout of services/ocr_vl/tables.py.

 `FillGrid` is the source's loop over a dictionary of grid positions.  It is proved against `Layout`,
 which knows nothing of the dictionary: a list of placed rectangles, each anchored at the leftmost free
 column of its row.  The lemmas then say what a layout is and exactly when there is none.
 */
module TableLayout {
  import opened Outcomes

  datatype Cell = Cell(text: string, rowspan: nat, colspan: nat)

  type Grid = map<(nat, nat), string>

  datatype TableError = InvalidSpan | Overlapping

  /** A cell together with the grid position of its top left corner. */
  datatype Placement = Placement(top: nat, left: nat, cell: Cell) {
    predicate Covers(y: nat, x: nat) {
      top <= y < top + cell.rowspan && left <= x < Right()
    }

    function Right(): nat {
      left + cell.colspan
    }
  }

  /** The parser rejects any other span before a cell is recorded. */
  predicate ValidCell(cell: Cell) {
    1 <= cell.rowspan <= 100 && 1 <= cell.colspan <= 100
  }

  predicate ValidRows(rows: seq<seq<Cell>>) {
    forall row, cell :: row in rows && cell in row ==> ValidCell(cell)
  }

  // ---------- The reference layout ----------

  predicate Occupied(ps: seq<Placement>, y: nat, x: nat) {
    exists i :: 0 <= i < |ps| && ps[i].Covers(y, x)
  }

  /** No position of `p` is taken. */
  ghost predicate Clear(ps: seq<Placement>, p: Placement) {
    forall y: nat, x: nat :: p.Covers(y, x) ==> !Occupied(ps, y, x)
  }

  /** No position of the top row of `p` is taken. */
  ghost predicate ClearInOwnRow(ps: seq<Placement>, p: Placement) {
    forall x: nat :: p.left <= x < p.Right() ==> !Occupied(ps, p.top, x)
  }

  function Extent(ps: seq<Placement>): (width: nat)
    ensures forall i :: 0 <= i < |ps| ==> ps[i].Right() <= width
  {
    if ps == [] then 0
    else
      var rest := Extent(ps[..|ps| - 1]);
      var last := ps[|ps| - 1].Right();
      if rest < last then last else rest
  }

  /** The leftmost free column of row `y` at or after `cursor`. */
  function Anchor(ps: seq<Placement>, y: nat, cursor: nat): (column: nat)
    ensures cursor <= column && !Occupied(ps, y, column)
    ensures forall x: nat :: cursor <= x < column ==> Occupied(ps, y, x)
    decreases Extent(ps) - cursor
  {
    if Occupied(ps, y, cursor) then Anchor(ps, y, cursor + 1) else cursor
  }

  /** Either everything is placed, or `blocked` met a position that was already taken. */
  datatype Layout = Done(placed: seq<Placement>) | Overlap(placed: seq<Placement>, blocked: Placement)

  ghost function PlaceRow(ps: seq<Placement>, y: nat, cursor: nat, cells: seq<Cell>): Layout
    decreases |cells|
  {
    if cells == [] then Done(ps)
    else
      var p := Placement(y, Anchor(ps, y, cursor), cells[0]);
      if Clear(ps, p) then PlaceRow(ps + [p], y, p.Right(), cells[1..]) else Overlap(ps, p)
  }

  ghost function PlaceRows(ps: seq<Placement>, y: nat, rows: seq<seq<Cell>>): Layout
    decreases |rows|
  {
    if rows == [] then Done(ps)
    else
      match PlaceRow(ps, y, 0, rows[0])
      case Done(placed) => PlaceRows(placed, y + 1, rows[1..])
      case Overlap(placed, blocked) => Overlap(placed, blocked)
  }

  ghost function LayoutOf(rows: seq<seq<Cell>>): Layout {
    PlaceRows([], 0, rows)
  }

  // ---------- The dictionary ----------

  /** `grid` holds exactly the covered positions, each with the text of the cell that covers it. */
  ghost predicate Tiles(grid: Grid, ps: seq<Placement>) {
    && (forall y: nat, x: nat :: (y, x) in grid <==> Occupied(ps, y, x))
    && (forall i, y: nat, x: nat :: 0 <= i < |ps| && ps[i].Covers(y, x) ==> grid[(y, x)] == ps[i].cell.text)
  }

  /** The nested loops of table_markdown. */
  method FillGrid(rows: seq<seq<Cell>>) returns (result: Result<Grid, TableError>)
    requires ValidRows(rows)
    ensures match LayoutOf(rows)
            case Done(ps) => result.Success? && Tiles(result.value, ps)
            case Overlap(_, _) => result == Failure(Overlapping)
  {
    var grid: Grid := map[];
    ghost var ps: seq<Placement> := [];
    for rowIndex := 0 to |rows|
      invariant Tiles(grid, ps)
      invariant LayoutOf(rows) == PlaceRows(ps, rowIndex, rows[rowIndex..])
    {
      var row := rows[rowIndex];
      assert rows[rowIndex..][0] == row && rows[rowIndex..][1..] == rows[rowIndex + 1..];
      var filled, placed := FillRow(grid, ps, rowIndex, row);
      if filled.Failure? {
        return filled;
      }
      grid, ps := filled.value, placed;
    }
    result := Success(grid);
  }

  /** One pass of the outer loop: the cells of row `y`, with `column` as the cursor. */
  method FillRow(start: Grid, ghost ps: seq<Placement>, y: nat, row: seq<Cell>)
    returns (result: Result<Grid, TableError>, ghost placed: seq<Placement>)
    requires Tiles(start, ps)
    ensures match PlaceRow(ps, y, 0, row)
            case Done(all) => result.Success? && placed == all && Tiles(result.value, all)
            case Overlap(_, _) => result == Failure(Overlapping)
  {
    var grid: Grid := start;
    var column: nat := 0;
    placed := ps;
    for k := 0 to |row|
      invariant Tiles(grid, placed)
      invariant PlaceRow(ps, y, 0, row) == PlaceRow(placed, y, column, row[k..])
    {
      assert row[k..][0] == row[k] && row[k..][1..] == row[k + 1..];
      ghost var cursor := column;
      column := FreeColumn(grid, placed, y, column);
      ghost var p := Placement(y, column, row[k]);
      assert p == Placement(y, Anchor(placed, y, cursor), row[k]);
      var filled := FillCell(grid, placed, y, column, row[k]);
      if filled.Failure? {
        return Failure(Overlapping), placed;
      }
      grid := filled.value;
      placed := placed + [p];
      column := column + row[k].colspan;
    }
    result := Success(grid);
  }

  /** The column search; it ends because nothing is taken to the right of the last rectangle. */
  method FreeColumn(grid: Grid, ghost ps: seq<Placement>, y: nat, cursor: nat) returns (column: nat)
    requires Tiles(grid, ps)
    ensures column == Anchor(ps, y, cursor)
  {
    column := cursor;
    while (y, column) in grid
      invariant Anchor(ps, y, column) == Anchor(ps, y, cursor)
      decreases Extent(ps) - column
    {
      column := column + 1;
    }
  }

  /** The two innermost loops: claim the rectangle position by position, or stop at the first one taken. */
  method FillCell(before: Grid, ghost ps: seq<Placement>, top: nat, column: nat, cell: Cell)
    returns (result: Result<Grid, TableError>)
    requires Tiles(before, ps)
    ensures var p := Placement(top, column, cell);
            if Clear(ps, p) then result.Success? && Tiles(result.value, ps + [p]) else result == Failure(Overlapping)
  {
    ghost var p := Placement(top, column, cell);
    var grid: Grid := before;
    for y := top to top + cell.rowspan
      invariant Filled(before, grid, p, y, column)
    {
      for x := column to column + cell.colspan
        invariant Filled(before, grid, p, y, x)
      {
        if (y, x) in grid {
          assert p.Covers(y, x) && Occupied(ps, y, x);
          return Failure(Overlapping);
        }
        grid := grid[(y, x) := cell.text];
      }
    }
    FilledIsTiled(before, grid, ps, p);
    result := Success(grid);
  }

  /** `grid` extends `before` by the positions of `p` that precede (y, x) in reading order, all new. */
  ghost predicate Filled(before: Grid, grid: Grid, p: Placement, y: nat, x: nat) {
    && (forall b: nat, a: nat :: (b, a) in grid <==> (b, a) in before || Reached(p, y, x, b, a))
    && (forall b: nat, a: nat :: (b, a) in before ==> (b, a) in grid && grid[(b, a)] == before[(b, a)])
    && (forall b: nat, a: nat :: Reached(p, y, x, b, a) ==> (b, a) !in before && grid[(b, a)] == p.cell.text)
  }

  predicate Reached(p: Placement, y: nat, x: nat, b: nat, a: nat) {
    p.Covers(b, a) && (b < y || (b == y && a < x))
  }

  lemma FilledIsTiled(before: Grid, grid: Grid, ps: seq<Placement>, p: Placement)
    requires Tiles(before, ps)
    requires Filled(before, grid, p, p.top + p.cell.rowspan, p.left)
    ensures Clear(ps, p) && Tiles(grid, ps + [p])
  {
    forall y: nat, x: nat
      ensures Reached(p, p.top + p.cell.rowspan, p.left, y, x) <==> p.Covers(y, x)
      ensures Occupied(ps + [p], y, x) <==> Occupied(ps, y, x) || p.Covers(y, x)
    {
      OccupiedAppend(ps, p, y, x);
    }
  }

  lemma OccupiedAppend(ps: seq<Placement>, p: Placement, y: nat, x: nat)
    ensures Occupied(ps + [p], y, x) <==> Occupied(ps, y, x) || p.Covers(y, x)
  {
    var all := ps + [p];
    if Occupied(ps, y, x) {
      var i :| 0 <= i < |ps| && ps[i].Covers(y, x);
      assert all[i] == ps[i];
    }
    if p.Covers(y, x) {
      assert all[|ps|] == p;
    }
  }

  // ---------- What a layout is ----------

  function Tag(y: nat, row: seq<Cell>): (tagged: seq<(nat, Cell)>)
    ensures |tagged| == |row| && forall i :: 0 <= i < |row| ==> tagged[i] == (y, row[i])
  {
    seq(|row|, i requires 0 <= i < |row| => (y, row[i]))
  }

  /** The cells of the table in source order, each with the index of its row. */
  function Flatten(rows: seq<seq<Cell>>, y: nat): seq<(nat, Cell)> {
    if rows == [] then [] else Tag(y, rows[0]) + Flatten(rows[1..], y + 1)
  }

  /** The placements are those of `cells`, one each and in their order. */
  ghost predicate InOrder(ps: seq<Placement>, cells: seq<(nat, Cell)>) {
    |ps| == |cells| && forall i :: 0 <= i < |ps| ==> (ps[i].top, ps[i].cell) == cells[i]
  }

  /** Where the next anchor of row `y` is searched from: after the last cell of that row, if there is one. */
  function Cursor(ps: seq<Placement>, y: nat): nat {
    if ps != [] && ps[|ps| - 1].top == y then ps[|ps| - 1].Right() else 0
  }

  ghost predicate StartedBy(ps: seq<Placement>, y: nat) {
    forall i :: 0 <= i < |ps| ==> ps[i].top <= y
  }

  /** Rows in order, every rectangle at the leftmost free column after its left neighbour, on free positions. */
  ghost predicate Greedy(ps: seq<Placement>) {
    ps == []
    || (var front, p := ps[..|ps| - 1], ps[|ps| - 1];
        Greedy(front) && StartedBy(front, p.top) && p.left == Anchor(front, p.top, Cursor(front, p.top))
        && Clear(front, p))
  }

  /** Rectangles only reach downwards, so what is taken below is taken in every row above it that is still open. */
  lemma TakenBelowIsTakenHere(ps: seq<Placement>, y: nat, below: nat, x: nat)
    requires forall i :: 0 <= i < |ps| ==> ps[i].top <= y
    requires y <= below && Occupied(ps, below, x)
    ensures Occupied(ps, y, x)
  {
    var i :| 0 <= i < |ps| && ps[i].Covers(below, x);
    assert ps[i].Covers(y, x);
  }

  lemma ClearIffClearInOwnRow(ps: seq<Placement>, p: Placement)
    requires forall i :: 0 <= i < |ps| ==> ps[i].top <= p.top
    requires p.cell.rowspan >= 1
    ensures Clear(ps, p) <==> ClearInOwnRow(ps, p)
  {
    if Clear(ps, p) {
      forall x: nat | p.left <= x < p.Right() ensures !Occupied(ps, p.top, x) {
        assert p.Covers(p.top, x);
      }
    }
    if ClearInOwnRow(ps, p) {
      forall y: nat, x: nat | p.Covers(y, x) ensures !Occupied(ps, y, x) {
        if Occupied(ps, y, x) {
          TakenBelowIsTakenHere(ps, p.top, y, x);
        }
      }
    }
  }

  /** Where and why the layout stopped: at an anchored cell that found a position taken. */
  ghost predicate Stopped(ps: seq<Placement>, p: Placement) {
    && Greedy(ps)
    && StartedBy(ps, p.top)
    && p.left == Anchor(ps, p.top, Cursor(ps, p.top))
    && !Clear(ps, p)
  }

  lemma {:induction false} PlaceRowIsGreedy(ps: seq<Placement>, y: nat, cursor: nat, cells: seq<Cell>)
    requires Greedy(ps) && StartedBy(ps, y) && cursor == Cursor(ps, y)
    ensures match PlaceRow(ps, y, cursor, cells)
            case Done(all) => Greedy(all) && StartedBy(all, y)
            case Overlap(all, p) => Stopped(all, p) && p.cell in cells
    decreases |cells|
  {
    if cells == [] {
    } else {
      var p := Placement(y, Anchor(ps, y, cursor), cells[0]);
      if Clear(ps, p) {
        assert (ps + [p])[..|ps|] == ps;
        PlaceRowIsGreedy(ps + [p], y, p.Right(), cells[1..]);
      }
    }
  }

  lemma {:induction false} PlaceRowKeepsOrder(
      ps: seq<Placement>, y: nat, cursor: nat, cells: seq<Cell>, earlier: seq<(nat, Cell)>)
    requires InOrder(ps, earlier)
    ensures match PlaceRow(ps, y, cursor, cells)
            case Done(all) => InOrder(all, earlier + Tag(y, cells))
            case Overlap(_, _) => true
    decreases |cells|
  {
    if cells == [] {
    } else {
      var p := Placement(y, Anchor(ps, y, cursor), cells[0]);
      if Clear(ps, p) {
        PlaceRowKeepsOrder(ps + [p], y, p.Right(), cells[1..], earlier + [(y, cells[0])]);
        assert earlier + Tag(y, cells) == earlier + [(y, cells[0])] + Tag(y, cells[1..]);
      }
    }
  }

  lemma {:induction false} PlaceRowsIsGreedy(ps: seq<Placement>, y: nat, rows: seq<seq<Cell>>)
    requires Greedy(ps) && StartedBy(ps, y) && Cursor(ps, y) == 0
    ensures match PlaceRows(ps, y, rows)
            case Done(all) => Greedy(all)
            case Overlap(all, p) => Stopped(all, p) && exists row :: row in rows && p.cell in row
    decreases |rows|
  {
    if rows == [] {
    } else {
      PlaceRowIsGreedy(ps, y, 0, rows[0]);
      match PlaceRow(ps, y, 0, rows[0])
      case Overlap(all, p) =>
        assert rows[0] in rows;
      case Done(all) =>
        PlaceRowsIsGreedy(all, y + 1, rows[1..]);
        assert forall row :: row in rows[1..] ==> row in rows;
    }
  }

  lemma {:induction false} PlaceRowsKeepsOrder(
      ps: seq<Placement>, y: nat, rows: seq<seq<Cell>>, earlier: seq<(nat, Cell)>)
    requires InOrder(ps, earlier)
    ensures match PlaceRows(ps, y, rows)
            case Done(all) => InOrder(all, earlier + Flatten(rows, y))
            case Overlap(_, _) => true
    decreases |rows|
  {
    if rows == [] {
      assert earlier + Flatten(rows, y) == earlier;
    } else {
      PlaceRowKeepsOrder(ps, y, 0, rows[0], earlier);
      match PlaceRow(ps, y, 0, rows[0])
      case Overlap(_, _) =>
      case Done(all) =>
        PlaceRowsKeepsOrder(all, y + 1, rows[1..], earlier + Tag(y, rows[0]));
        assert earlier + Tag(y, rows[0]) + Flatten(rows[1..], y + 1) == earlier + Flatten(rows, y);
    }
  }

  /**
   A completed layout places every cell once, in order, at the leftmost free column after its left neighbour,
   and no two rectangles meet.  A failed one stops at a cell anchored the same way, one of whose top row
   positions is taken: only a cell's own row can stop it.
   */
  lemma LayoutCharacterised(rows: seq<seq<Cell>>)
    requires ValidRows(rows)
    ensures match LayoutOf(rows)
            case Done(ps) => Greedy(ps) && InOrder(ps, Flatten(rows, 0))
            case Overlap(ps, p) =>
              Stopped(ps, p) && !ClearInOwnRow(ps, p) && exists row :: row in rows && p.cell in row
  {
    PlaceRowsIsGreedy([], 0, rows);
    PlaceRowsKeepsOrder([], 0, rows, []);
    match LayoutOf(rows)
    case Done(ps) =>
      assert [] + Flatten(rows, 0) == Flatten(rows, 0);
    case Overlap(ps, p) =>
      ClearIffClearInOwnRow(ps, p);
  }

  /** A cell one column wide always finds room, because its anchor is free and so is everything below it. */
  lemma SingleColumnsNeverOverlap(rows: seq<seq<Cell>>)
    requires ValidRows(rows)
    requires forall row, cell :: row in rows && cell in row ==> cell.colspan == 1
    ensures LayoutOf(rows).Done?
  {
    LayoutCharacterised(rows);
  }

  ghost predicate Disjoint(ps: seq<Placement>) {
    forall j, k, y: nat, x: nat :: 0 <= j < k < |ps| ==> !(ps[j].Covers(y, x) && ps[k].Covers(y, x))
  }

  function Area(ps: seq<Placement>): nat {
    if ps == [] then 0
    else Area(ps[..|ps| - 1]) + ps[|ps| - 1].cell.rowspan * ps[|ps| - 1].cell.colspan
  }

  lemma {:induction false} GreedyIsDisjoint(ps: seq<Placement>)
    requires Greedy(ps)
    ensures Disjoint(ps)
    decreases |ps|
  {
    if ps == [] {
    } else {
      var n := |ps| - 1;
      GreedyIsDisjoint(ps[..n]);
      forall j, k, y: nat, x: nat | 0 <= j < k < |ps| && ps[j].Covers(y, x)
        ensures !ps[k].Covers(y, x)
      {
        assert ps[..n][j] == ps[j];
        if k < n {
          assert ps[..n][k] == ps[k];
        } else {
          assert Occupied(ps[..n], y, x);
        }
      }
    }
  }

  /** The positions of one row of a rectangle. */
  function Slice(y: nat, left: nat, width: nat): set<(nat, nat)> {
    if width == 0 then {} else Slice(y, left, width - 1) + {(y, left + width - 1)}
  }

  function Rectangle(p: Placement, height: nat): set<(nat, nat)> {
    if height == 0 then {} else Rectangle(p, height - 1) + Slice(p.top + height - 1, p.left, p.cell.colspan)
  }

  lemma {:induction false} SliceMembers(y: nat, left: nat, width: nat, b: nat, x: nat)
    ensures (b, x) in Slice(y, left, width) <==> b == y && left <= x < left + width
  {
    if width == 0 {
    } else {
      SliceMembers(y, left, width - 1, b, x);
    }
  }

  lemma {:induction false} SliceSize(y: nat, left: nat, width: nat)
    ensures |Slice(y, left, width)| == width
  {
    if width == 0 {
    } else {
      SliceSize(y, left, width - 1);
      SliceMembers(y, left, width - 1, y, left + width - 1);
    }
  }

  lemma {:induction false} RectangleMembers(p: Placement, height: nat, y: nat, x: nat)
    ensures (y, x) in Rectangle(p, height)
            <==> p.top <= y < p.top + height && p.left <= x < p.left + p.cell.colspan
  {
    if height == 0 {
    } else {
      RectangleMembers(p, height - 1, y, x);
      SliceMembers(p.top + height - 1, p.left, p.cell.colspan, y, x);
    }
  }

  lemma SizeOfUnion(a: set<(nat, nat)>, b: set<(nat, nat)>)
    requires a !! b
    ensures |a + b| == |a| + |b|
  {
  }

  lemma OneRowMore(height: nat, width: nat)
    requires height > 0
    ensures height * width == (height - 1) * width + width
  {
  }

  lemma {:induction false} RectangleSize(p: Placement, height: nat)
    ensures |Rectangle(p, height)| == height * p.cell.colspan
  {
    if height == 0 {
    } else {
      var rest, strip := Rectangle(p, height - 1), Slice(p.top + height - 1, p.left, p.cell.colspan);
      forall q | q in rest ensures q !in strip {
        RectangleMembers(p, height - 1, q.0, q.1);
        SliceMembers(p.top + height - 1, p.left, p.cell.colspan, q.0, q.1);
      }
      RectangleSize(p, height - 1);
      SliceSize(p.top + height - 1, p.left, p.cell.colspan);
      SizeOfUnion(rest, strip);
      OneRowMore(height, p.cell.colspan);
    }
  }

  lemma RectangleCovered(p: Placement)
    ensures forall y: nat, x: nat :: (y, x) in Rectangle(p, p.cell.rowspan) <==> p.Covers(y, x)
  {
    forall y: nat, x: nat ensures (y, x) in Rectangle(p, p.cell.rowspan) <==> p.Covers(y, x) {
      RectangleMembers(p, p.cell.rowspan, y, x);
    }
  }

  lemma DisjointFromLast(front: seq<Placement>, p: Placement, y: nat, x: nat)
    requires Disjoint(front + [p]) && Occupied(front, y, x)
    ensures !p.Covers(y, x)
  {
    var ps := front + [p];
    var i :| 0 <= i < |front| && front[i].Covers(y, x);
    assert ps[i] == front[i] && ps[|front|] == p;
  }

  lemma TilesWithoutLast(grid: Grid, front: seq<Placement>, p: Placement)
    requires Tiles(grid, front + [p]) && Disjoint(front + [p])
    ensures var inside := Rectangle(p, p.cell.rowspan);
            Tiles(grid - inside, front) && inside <= grid.Keys
  {
    var inside := Rectangle(p, p.cell.rowspan);
    RectangleCovered(p);
    forall y: nat, x: nat
      ensures (y, x) in grid - inside <==> Occupied(front, y, x)
    {
      OccupiedAppend(front, p, y, x);
      if Occupied(front, y, x) {
        DisjointFromLast(front, p, y, x);
      }
    }
    forall i, y: nat, x: nat | 0 <= i < |front| && front[i].Covers(y, x)
      ensures (grid - inside)[(y, x)] == front[i].cell.text
    {
      assert (front + [p])[i] == front[i] && Occupied(front, y, x);
    }
    forall q | q in inside ensures q in grid {
      assert (q.0, q.1) == q;
      OccupiedAppend(front, p, q.0, q.1);
    }
  }

  /** No position is lost or shared: a tiled grid has as many positions as its cells have area. */
  lemma {:induction false} TilesHaveTheirArea(grid: Grid, ps: seq<Placement>)
    requires Tiles(grid, ps) && Disjoint(ps)
    ensures |grid| == Area(ps)
    decreases |ps|
  {
    if ps == [] {
      forall q: (nat, nat) ensures q !in grid {
        assert q == (q.0, q.1) && !Occupied(ps, q.0, q.1);
      }
      assert grid == map[];
    } else {
      var front, p := ps[..|ps| - 1], ps[|ps| - 1];
      assert ps == front + [p];
      var inside := Rectangle(p, p.cell.rowspan);
      TilesWithoutLast(grid, front, p);
      RectangleSize(p, p.cell.rowspan);
      TilesHaveTheirArea(grid - inside, front);
      assert (grid - inside).Keys == grid.Keys - inside;
    }
  }

  /** The whole of a successful layout: what each position of the dictionary holds, and how many there are. */
  lemma FilledGridIsExact(rows: seq<seq<Cell>>, grid: Grid)
    requires ValidRows(rows) && LayoutOf(rows).Done? && Tiles(grid, LayoutOf(rows).placed)
    ensures var ps := LayoutOf(rows).placed;
            && Disjoint(ps)
            && |grid| == Area(ps)
            && InOrder(ps, Flatten(rows, 0))
            && (forall y: nat, x: nat :: (y, x) in grid ==>
                  exists i :: 0 <= i < |ps| && ps[i].Covers(y, x) && grid[(y, x)] == ps[i].cell.text)
  {
    var ps := LayoutOf(rows).placed;
    LayoutCharacterised(rows);
    GreedyIsDisjoint(ps);
    TilesHaveTheirArea(grid, ps);
  }
}
