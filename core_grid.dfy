/**
 * Grid geometry shared by the flat engine, the compute kernel and the host
 * (biosim-core/src/lib.rs). `get_index` and `WorldOffset::add_clamped` are
 * used by those files but defined elsewhere; the model takes `get_index` as
 * row-major `y * Width + x` (as app/src/world.rs spells it out) and
 * `add_clamped` as saturating each coordinate into [0, Width).
 */
module CoreGrid {

  const Width: nat := 512

  const CellCount: nat := Width * Width

  datatype WorldCoord = WorldCoord(x: nat, y: nat)

  datatype WorldOffset = WorldOffset(x: int, y: int)

  predicate OnGrid(c: WorldCoord)
  {
    c.x < Width && c.y < Width
  }

  /** `get_index`: the row-major linearisation. */
  function GetIndex(c: WorldCoord): (i: nat)
    ensures OnGrid(c) ==> i < CellCount
  {
    c.y * Width + c.x
  }

  /** The coordinate a linear index stands for. */
  function CoordOf(i: nat): WorldCoord
  {
    WorldCoord(i % Width, i / Width)
  }

  /** Linearising a grid coordinate and reading it back gives the coordinate. */
  lemma CoordOfIndex(c: WorldCoord)
    requires c.x < Width
    ensures CoordOf(GetIndex(c)) == c
  {
  }

  /** Every index is the linearisation of its coordinate, and indices below CellCount are on the grid. */
  lemma IndexOfCoord(i: nat)
    ensures GetIndex(CoordOf(i)) == i
    ensures i < CellCount <==> OnGrid(CoordOf(i))
  {
  }

  /** The linearisation is a bijection between the grid and [0, CellCount). */
  lemma IndexInjective(a: WorldCoord, b: WorldCoord)
    requires OnGrid(a) && OnGrid(b)
    ensures GetIndex(a) == GetIndex(b) <==> a == b
    ensures GetIndex(a) < CellCount
  {
    CoordOfIndex(a);
    CoordOfIndex(b);
  }

  function Clamp(n: int, lo: int, hi: int): (r: int)
    requires lo <= hi
    ensures lo <= r <= hi
    ensures lo <= n <= hi ==> r == n
  {
    if n < lo then lo else if n > hi then hi else n
  }

  /** `add_clamped`: the offset added and each coordinate saturated into the grid. */
  function AddClamped(c: WorldCoord, o: WorldOffset): (r: WorldCoord)
    ensures OnGrid(r)
    ensures 0 <= c.x + o.x < Width ==> r.x == c.x + o.x
    ensures 0 <= c.y + o.y < Width ==> r.y == c.y + o.y
  {
    WorldCoord(Clamp(c.x + o.x, 0, Width - 1), Clamp(c.y + o.y, 0, Width - 1))
  }
}
