/**
 * The desktop engine (src-tauri/src/world.rs): a world of `Width` rows of
 * `Width` cells, read as `cells[x][y]`. Coordinates off the grid read as Dead,
 * so the grid does not wrap.
 */
module TauriWorld {

  import opened Cells
  import opened LifeRule

  const Width: nat := 32

  /** A row is a fixed-size array of `Width` cells. */
  type Row = r: seq<Cell> | |r| == Width witness seq(32, _ => Dead)

  datatype World = World(cells: seq<Row>)

  /** The engine indexes rows 0..Width-1, so a world it reads must have at least that many. */
  predicate Complete(w: World)
  {
    |w.cells| >= Width
  }

  /** `get_cell`: the cell at (x, y), or Dead for any coordinate off the grid. */
  function GetCell(w: World, x: int, y: int): (c: Cell)
    requires Complete(w)
    ensures x < 0 || y < 0 || x >= Width || y >= Width ==> c == Dead
    ensures 0 <= x < Width && 0 <= y < Width ==> c == w.cells[x][y]
  {
    if x < 0 || y < 0 || x >= Width || y >= Width then Dead
    else w.cells[x][y]
  }

  /** One offset's contribution: 1 if (x+dx, y+dy) is not the centre and is Alive. */
  function Contribution(w: World, x: int, y: int, dx: int, dy: int): (n: nat)
    requires Complete(w)
  {
    if dx == 0 && dy == 0 then 0 else Living(GetCell(w, x + dx, y + dy))
  }

  /** The living cells among the eight neighbours of (x, y). */
  function LivingNeighbors(w: World, x: int, y: int): (n: nat)
    requires Complete(w)
    ensures n <= 8
  {
    Living(GetCell(w, x - 1, y - 1)) + Living(GetCell(w, x - 1, y)) + Living(GetCell(w, x - 1, y + 1))
    + Living(GetCell(w, x, y - 1)) + Living(GetCell(w, x, y + 1))
    + Living(GetCell(w, x + 1, y - 1)) + Living(GetCell(w, x + 1, y)) + Living(GetCell(w, x + 1, y + 1))
  }

  /** The state of (x, y) in the next generation: born with three living neighbours, surviving with two or three. */
  function NewState(w: World, x: nat, y: nat): (c: Cell)
    requires Complete(w) && x < Width && y < Width
    ensures c == Alive <==> LivingNeighbors(w, x, y) == 3 || (w.cells[x][y] == Alive && LivingNeighbors(w, x, y) == 2)
  {
    NextState(w.cells[x][y], LivingNeighbors(w, x, y))
  }

  /** The contributions of column offset dx, for dy in -1..1 before `upTo`. */
  function ColumnSum(w: World, x: int, y: int, dx: int, upTo: int): nat
    requires Complete(w)
  {
    (if -1 < upTo then Contribution(w, x, y, dx, -1) else 0)
    + (if 0 < upTo then Contribution(w, x, y, dx, 0) else 0)
    + (if 1 < upTo then Contribution(w, x, y, dx, 1) else 0)
  }

  /** `count_living_neighbors`: a 3x3 scan that skips the centre. */
  method CountLivingNeighbors(w: World, x: int, y: int) returns (n: int)
    requires Complete(w)
    ensures n == LivingNeighbors(w, x, y)
    ensures 0 <= n <= 8
  {
    n := 0;
    var x1 := -1;
    while x1 <= 1
      invariant -1 <= x1 <= 2
      invariant n == (if -1 < x1 then ColumnSum(w, x, y, -1, 2) else 0)
                     + (if 0 < x1 then ColumnSum(w, x, y, 0, 2) else 0)
                     + (if 1 < x1 then ColumnSum(w, x, y, 1, 2) else 0)
    {
      ghost var before := n;
      var y1 := -1;
      while y1 <= 1
        invariant -1 <= y1 <= 2
        invariant n == before + ColumnSum(w, x, y, x1, y1)
      {
        if GetCell(w, x + x1, y + y1) == Alive && !(x1 == 0 && y1 == 0) {
          n := n + 1;
        }
        y1 := y1 + 1;
      }
      x1 := x1 + 1;
    }
  }

  /** `get_new_state`: the rule applied to (x, y) and its neighbour count. */
  method GetNewState(w: World, x: nat, y: nat) returns (c: Cell)
    requires Complete(w) && x < Width && y < Width
    ensures c == NewState(w, x, y)
  {
    match w.cells[x][y]
    case Alive =>
      var n := CountLivingNeighbors(w, x, y);
      c := if 2 <= n <= 3 then Alive else Dead;
    case Dead =>
      var n := CountLivingNeighbors(w, x, y);
      c := if n == 3 then Alive else Dead;
  }

  /**
   * `tick`: a fresh world of `Width` rows whose cell (x, y) is the next state
   * of (x, y) in `w`; `w` itself is a value and is left as it was.
   */
  method Tick(w: World) returns (next: World)
    requires Complete(w)
    ensures |next.cells| == Width
    ensures forall x, y :: 0 <= x < Width && 0 <= y < Width ==> next.cells[x][y] == NewState(w, x, y)
  {
    var cells: seq<Row> := [];
    for x := 0 to Width
      invariant |cells| == x
      invariant forall i, j :: 0 <= i < x && 0 <= j < Width ==> cells[i][j] == NewState(w, i, j)
    {
      cells := cells + [seq(Width, _ => Dead)];
      for y := 0 to Width
        invariant |cells| == x + 1
        invariant forall i, j :: 0 <= i < x && 0 <= j < Width ==> cells[i][j] == NewState(w, i, j)
        invariant forall j :: 0 <= j < y ==> cells[x][j] == NewState(w, x, j)
      {
        var c := GetNewState(w, x, y);
        cells := cells[x := cells[x][y := c]];
      }
    }
    next := World(cells);
  }

  /**
   * `new_random`: `Width` rows of `Width` cells, where `draw(k)` is the k-th
   * value the random generator yields (rows are filled in order, cell by cell).
   */
  method NewRandom(draw: nat -> int) returns (w: World)
    ensures |w.cells| == Width
    ensures forall x, y :: 0 <= x < Width && 0 <= y < Width ==> w.cells[x][y] == Sample(draw(x * Width + y))
  {
    var cells: seq<Row> := [];
    for x := 0 to Width
      invariant |cells| == x
      invariant forall i, j :: 0 <= i < x && 0 <= j < Width ==> cells[i][j] == Sample(draw(i * Width + j))
    {
      cells := cells + [seq(Width, _ => Dead)];
      for y := 0 to Width
        invariant |cells| == x + 1
        invariant forall i, j :: 0 <= i < x && 0 <= j < Width ==> cells[i][j] == Sample(draw(i * Width + j))
        invariant forall j :: 0 <= j < y ==> cells[x][j] == Sample(draw(x * Width + j))
      {
        cells := cells[x := cells[x][y := Sample(draw(x * Width + y))]];
      }
    }
    w := World(cells);
  }

  /** One line of the `Debug` text: the row's cells mapped through `to_string` and joined. */
  function RowText(r: seq<Cell>): (s: string)
    ensures |s| == |r|
    ensures forall j :: 0 <= j < |r| ==> s[j] == ToText(r[j])[0]
  {
    if r == [] then "" else ToText(r[0]) + RowText(r[1..])
  }

  /** The `Debug` text of a world: its rows' lines joined with newlines. */
  function Render(rows: seq<Row>): (s: string)
    ensures |s| == if |rows| == 0 then 0 else |rows| * (Width + 1) - 1
  {
    if |rows| == 0 then ""
    else if |rows| == 1 then RowText(rows[0])
    else RowText(rows[0]) + "\n" + Render(rows[1..])
  }

  /**
   * The `Debug` text has `Width` characters per row plus a newline between
   * rows; character j of line i is '#' exactly when cells[i][j] is Alive.
   */
  lemma {:induction false} RenderLayout(rows: seq<Row>, i: nat, j: nat)
    requires i < |rows| && j < Width
    ensures |Render(rows)| == |rows| * (Width + 1) - 1
    ensures Render(rows)[i * (Width + 1) + j] == ToText(rows[i][j])[0]
    ensures i + 1 < |rows| ==> Render(rows)[i * (Width + 1) + Width] == '\n'
  {
    if |rows| == 1 {
    } else if i == 0 {
      RenderLayout(rows[1..], 0, j);
    } else {
      RenderLayout(rows[1..], i - 1, j);
    }
  }
}
