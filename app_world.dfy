/**
 * The flat engine (app/src/world.rs): the grid is one vector of
 * `Width * Width` cells, cell (x, y) at index `y * Width + x`. Off-grid
 * coordinates read as Dead.
 */
module AppWorld {

  import opened Cells
  import opened LifeRule
  import opened CoreGrid

  /** `get_cell`: Dead off the grid, otherwise the cell stored at `y * Width + x`. */
  function GetCell(cells: seq<Cell>, x: int, y: int): (c: Cell)
    requires 0 <= x < Width && 0 <= y < Width ==> y * Width + x < |cells|
    ensures x < 0 || y < 0 || x >= Width || y >= Width ==> c == Dead
    ensures 0 <= x < Width && 0 <= y < Width ==> c == cells[y * Width + x]
  {
    if x < 0 || y < 0 || x >= Width || y >= Width then Dead
    else cells[y * Width + x]
  }

  /** One offset's contribution: 1 if (x+dx, y+dy) is not the centre and is Alive. */
  function Contribution(cells: seq<Cell>, x: int, y: int, dx: int, dy: int): (n: nat)
    requires |cells| >= CellCount
  {
    if dx == 0 && dy == 0 then 0 else Living(GetCell(cells, x + dx, y + dy))
  }

  /** The living cells among the eight neighbours of (x, y). */
  function LivingNeighbors(cells: seq<Cell>, x: int, y: int): (n: nat)
    requires |cells| >= CellCount
    ensures n <= 8
  {
    Living(GetCell(cells, x - 1, y - 1)) + Living(GetCell(cells, x - 1, y)) + Living(GetCell(cells, x - 1, y + 1))
    + Living(GetCell(cells, x, y - 1)) + Living(GetCell(cells, x, y + 1))
    + Living(GetCell(cells, x + 1, y - 1)) + Living(GetCell(cells, x + 1, y)) + Living(GetCell(cells, x + 1, y + 1))
  }

  /** The state of (x, y) in the next generation: born with three living neighbours, surviving with two or three. */
  function NewState(cells: seq<Cell>, x: nat, y: nat): (c: Cell)
    requires |cells| >= CellCount && x < Width && y < Width
    ensures c == Alive <==> LivingNeighbors(cells, x, y) == 3 || (cells[y * Width + x] == Alive && LivingNeighbors(cells, x, y) == 2)
  {
    NextState(cells[y * Width + x], LivingNeighbors(cells, x, y))
  }

  /** The whole next generation, as a vector in the same layout. */
  function Generation(cells: seq<Cell>): (next: seq<Cell>)
    requires |cells| >= CellCount
    ensures |next| == CellCount
  {
    seq(CellCount, i requires 0 <= i < CellCount => NewState(cells, i % Width, i / Width))
  }

  /** The contributions of column offset dx, for dy in -1..1 before `upTo`. */
  function ColumnSum(cells: seq<Cell>, x: int, y: int, dx: int, upTo: int): nat
    requires |cells| >= CellCount
  {
    (if -1 < upTo then Contribution(cells, x, y, dx, -1) else 0)
    + (if 0 < upTo then Contribution(cells, x, y, dx, 0) else 0)
    + (if 1 < upTo then Contribution(cells, x, y, dx, 1) else 0)
  }

  /** `count_living_neighbors`: a 3x3 scan that skips the centre. */
  method CountLivingNeighbors(cells: seq<Cell>, x: int, y: int) returns (n: int)
    requires |cells| >= CellCount
    ensures n == LivingNeighbors(cells, x, y)
    ensures 0 <= n <= 8
  {
    n := 0;
    var x1 := -1;
    while x1 <= 1
      invariant -1 <= x1 <= 2
      invariant n == (if -1 < x1 then ColumnSum(cells, x, y, -1, 2) else 0)
                     + (if 0 < x1 then ColumnSum(cells, x, y, 0, 2) else 0)
                     + (if 1 < x1 then ColumnSum(cells, x, y, 1, 2) else 0)
    {
      ghost var before := n;
      var y1 := -1;
      while y1 <= 1
        invariant -1 <= y1 <= 2
        invariant n == before + ColumnSum(cells, x, y, x1, y1)
      {
        if GetCell(cells, x + x1, y + y1) == Alive && !(x1 == 0 && y1 == 0) {
          n := n + 1;
        }
        y1 := y1 + 1;
      }
      x1 := x1 + 1;
    }
  }

  /** `get_new_state`: the rule applied to (x, y) and its neighbour count. */
  method GetNewState(cells: seq<Cell>, x: nat, y: nat) returns (c: Cell)
    requires |cells| >= CellCount && x < Width && y < Width
    ensures c == NewState(cells, x, y)
  {
    match cells[y * Width + x]
    case Alive =>
      var n := CountLivingNeighbors(cells, x, y);
      c := if 2 <= n <= 3 then Alive else Dead;
    case Dead =>
      var n := CountLivingNeighbors(cells, x, y);
      c := if n == 3 then Alive else Dead;
  }

  /**
   * `tick`: a fresh vector of `Width * Width` cells in which index
   * `y * Width + x` holds the next state of (x, y); the input is only read.
   */
  method Tick(cells: seq<Cell>) returns (next: seq<Cell>)
    requires |cells| >= CellCount
    ensures |next| == CellCount
    ensures forall x, y :: 0 <= x < Width && 0 <= y < Width ==> next[GetIndex(WorldCoord(x, y))] == NewState(cells, x, y)
    ensures next == Generation(cells)
  {
    var newCells := new Cell[CellCount](_ => Dead);
    for x := 0 to Width
      invariant forall i, j :: 0 <= i < x && 0 <= j < Width ==> newCells[GetIndex(WorldCoord(i, j))] == NewState(cells, i, j)
    {
      for y := 0 to Width
        invariant forall i, j :: 0 <= i < x && 0 <= j < Width ==> newCells[GetIndex(WorldCoord(i, j))] == NewState(cells, i, j)
        invariant forall j :: 0 <= j < y ==> newCells[GetIndex(WorldCoord(x, j))] == NewState(cells, x, j)
      {
        newCells[y * Width + x] := GetNewState(cells, x, y);
      }
    }
    next := newCells[..];
    GenerationAt(cells, next);
  }

  /** The next generation holds the next state of (x, y) at index `y * Width + x`. */
  lemma GenerationIndex(cells: seq<Cell>, x: nat, y: nat)
    requires |cells| >= CellCount && x < Width && y < Width
    ensures GetIndex(WorldCoord(x, y)) < CellCount
    ensures Generation(cells)[GetIndex(WorldCoord(x, y))] == NewState(cells, x, y)
  {
    var k := GetIndex(WorldCoord(x, y));
    assert k % Width == x && k / Width == y;
  }

  /** A vector that holds the next state of every (x, y) at its index is the next generation. */
  lemma GenerationAt(cells: seq<Cell>, next: seq<Cell>)
    requires |cells| >= CellCount && |next| == CellCount
    requires forall x, y :: 0 <= x < Width && 0 <= y < Width ==> next[GetIndex(WorldCoord(x, y))] == NewState(cells, x, y)
    ensures next == Generation(cells)
  {
    forall k | 0 <= k < CellCount
      ensures next[k] == Generation(cells)[k]
    {
      var x, y := k % Width, k / Width;
      assert k == GetIndex(WorldCoord(x, y));
      GenerationIndex(cells, x, y);
    }
  }

  /**
   * The next state of a cell depends only on the 3 by 3 block around it: two
   * grids that agree there give the cell the same next state.
   */
  lemma NewStateIsLocal(a: seq<Cell>, b: seq<Cell>, x: nat, y: nat)
    requires |a| >= CellCount && |b| >= CellCount && x < Width && y < Width
    requires forall i, j :: x - 1 <= i <= x + 1 && y - 1 <= j <= y + 1 ==> GetCell(a, i, j) == GetCell(b, i, j)
    ensures NewState(a, x, y) == NewState(b, x, y)
  {
    assert GetCell(a, x, y) == GetCell(b, x, y);
  }

  /** A grid with no living cell stays without one. */
  lemma EmptyGridStaysEmpty(cells: seq<Cell>)
    requires |cells| >= CellCount
    requires forall i :: 0 <= i < |cells| ==> cells[i] == Dead
    ensures forall i :: 0 <= i < CellCount ==> Generation(cells)[i] == Dead
  {
    forall i | 0 <= i < CellCount
      ensures Generation(cells)[i] == Dead
    {
      var x, y := i % Width, i / Width;
      assert LivingNeighbors(cells, x, y) == 0;
    }
  }

  /**
   * `new_random`: a vector of `Width * Width` cells, the k-th pushed being the
   * sample of `draw(k)`, the k-th value the random generator yields.
   */
  method NewRandom(draw: nat -> int) returns (cells: seq<Cell>)
    ensures |cells| == CellCount
    ensures forall k :: 0 <= k < CellCount ==> cells[k] == Sample(draw(k))
  {
    cells := [];
    for x := 0 to Width
      invariant |cells| == x * Width
      invariant forall k :: 0 <= k < |cells| ==> cells[k] == Sample(draw(k))
    {
      for y := 0 to Width
        invariant |cells| == x * Width + y
        invariant forall k :: 0 <= k < |cells| ==> cells[k] == Sample(draw(k))
      {
        cells := cells + [Sample(draw(|cells|))];
      }
    }
  }
}
