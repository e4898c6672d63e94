/**
 * Mapping between world space, normalised (u, v) coordinates and grid cells
 * (biosim-core/src/hex_grid.rs). The source computes in `f32`; here every
 * quantity is a `real`, `floorf` is `Floor`, and a float-to-`u32` cast is
 * the floor saturated into [0, U32Max], as Rust's `as` casts do.
 */
module HexCoords {

  import opened Wrappers
  import opened Cells
  import opened CoreGrid

  /** The `rect_grid` build feature selects the rectangular layout; the default is hexagonal. */
  datatype Layout = Hex | Rect

  /** `WORLD_WIDTH_MULTIPLER`: how much wider than tall the world is drawn. */
  function WidthMultiplier(layout: Layout): real
  {
    if layout == Hex then 6.0 else 1.0
  }

  /** The threshold past which a point may belong to the next column's hexagon. */
  const CornerThreshold: real := 0.66667

  function Abs(r: real): real
  {
    if r < 0.0 then -r else r
  }

  /** `floorf(r) as u32`. */
  function FloorToU32(r: real): (n: U32)
    ensures 0 <= r.Floor <= U32Max ==> n == r.Floor
    ensures r.Floor < 0 ==> n == 0
    ensures r.Floor > U32Max ==> n == U32Max
  {
    Clamp(r.Floor, 0, U32Max)
  }

  /** The candidate column and row, and their corrections, kept as unbounded integers. */
  datatype ColumnRow = ColumnRow(column: int, row: int)

  /** `u * world_width` after u has been scaled by half the width multiplier: the position in column units. */
  function ColumnPosition(layout: Layout, u: real): real
  {
    u * (WidthMultiplier(layout) / 2.0) * (Width as real)
  }

  /** `0.5 * v * world_width`: the position in row units. */
  function RowPosition(v: real): real
  {
    0.5 * v * (Width as real)
  }

  function FirstColumn(layout: Layout, u: real): U32
  {
    FloorToU32(ColumnPosition(layout, u))
  }

  /** Odd columns are shifted half a row. */
  function RowOffset(layout: Layout, u: real): real
  {
    if FirstColumn(layout, u) % 2 == 0 then 0.0 else 0.5
  }

  function FirstRow(layout: Layout, u: real, v: real): U32
  {
    FloorToU32(RowPosition(v) - RowOffset(layout, u))
  }

  function XInSquare(layout: Layout, u: real): real
  {
    ColumnPosition(layout, u) - FirstColumn(layout, u) as real
  }

  function YInSquare(layout: Layout, u: real, v: real): real
  {
    RowPosition(v) - RowOffset(layout, u) - FirstRow(layout, u, v) as real
  }

  /** Positive above the upper-right edge of the hexagon. */
  function ParameterUpper(layout: Layout, u: real, v: real): real
  {
    YInSquare(layout, u, v) + 1.5 * XInSquare(layout, u) - 2.0
  }

  /** Negative below the lower-right edge of the hexagon. */
  function ParameterLower(layout: Layout, u: real, v: real): real
  {
    YInSquare(layout, u, v) - 1.5 * XInSquare(layout, u) + 1.0
  }

  /**
   * The column and row `uv_to_hexel_coord` settles on: the floored ones,
   * moved into the next column when the point lies in one of the two corners
   * right of the hexagon, with the row adjusted to that column's half-row shift.
   * The correction moves the column by at most one to the right and the row by
   * at most one, and only for points past the threshold.
   */
  function ResolvedColumnRow(layout: Layout, u: real, v: real): (cr: ColumnRow)
    ensures cr.column - FirstColumn(layout, u) in {0, 1}
    ensures cr.row - FirstRow(layout, u, v) in {-1, 0, 1}
    ensures XInSquare(layout, u) <= CornerThreshold ==>
              cr == ColumnRow(FirstColumn(layout, u), FirstRow(layout, u, v))
  {
    var column := FirstColumn(layout, u);
    var row := FirstRow(layout, u, v);
    var even := column % 2 == 0;
    if XInSquare(layout, u) > CornerThreshold then
      var upper := ParameterUpper(layout, u, v);
      var lower := ParameterLower(layout, u, v);
      ColumnRow(column + (if upper > 0.0 || lower < 0.0 then 1 else 0),
                row + (if upper > 0.0 && !even then 1 else 0) - (if lower < 0.0 && even then 1 else 0))
    else
      ColumnRow(column, row)
  }

  /**
   * Lines 32-33 of the source: `hexel_x = column / 2 - row` and
   * `hexel_y = 2 * row + column % 2`, or None when a `u32` step of the
   * computation leaves the range of `u32` (a panic in a checked build).
   */
  function HexelOf(cr: ColumnRow): (r: Option<WorldCoord>)
    ensures r.Some? ==> r.value.y % 2 == cr.column % 2
  {
    if cr.column < 0 || cr.column > U32Max || cr.row < 0 || cr.row > U32Max then None
    else if cr.row > cr.column / 2 then None
    else if cr.row * 2 + cr.column % 2 > U32Max then None
    else Some(WorldCoord(cr.column / 2 - cr.row, cr.row * 2 + cr.column % 2))
  }

  /** The inverse of `HexelOf`: the column and row a hexel coordinate comes from. */
  function ColumnRowOf(h: WorldCoord): ColumnRow
  {
    ColumnRow(2 * (h.x + h.y / 2) + h.y % 2, h.y / 2)
  }

  /** `HexelOf` loses nothing: the column and row can be read back from the hexel. */
  lemma HexelRoundTrip(cr: ColumnRow)
    requires HexelOf(cr).Some?
    ensures ColumnRowOf(HexelOf(cr).value) == cr
  {
  }

  /** Every hexel whose column and row fit in `u32` is produced by `HexelOf`. */
  lemma ColumnRowRoundTrip(h: WorldCoord)
    requires ColumnRowOf(h).column <= U32Max && h.y <= U32Max
    ensures HexelOf(ColumnRowOf(h)) == Some(h)
  {
  }

  /** Distinct columns and rows give distinct hexels. */
  lemma HexelInjective(a: ColumnRow, b: ColumnRow)
    requires HexelOf(a).Some? && HexelOf(a) == HexelOf(b)
    ensures a == b
  {
    HexelRoundTrip(a);
    HexelRoundTrip(b);
  }

  /**
   * The hexagon of a column and row, in column and row units: centred a third
   * into its column and half-way up its (shifted) row, half a row high, with
   * its left and right vertices two thirds from the centre.
   */
  predicate InHexagon(cr: ColumnRow, px: real, py: real)
  {
    var dx := px - (cr.column as real + 1.0 / 3.0);
    var dy := py - (cr.row as real + (if cr.column % 2 == 0 then 0.5 else 1.0));
    Abs(dy) <= 0.5 && Abs(dx) + (2.0 / 3.0) * Abs(dy) <= 2.0 / 3.0
  }

  /**
   * When the correction fires: the column advances iff the point is past the
   * threshold and strictly above the upper edge or strictly below the lower
   * one; the row rises only from an odd column and falls only from an even one.
   */
  lemma CorrectionConditions(layout: Layout, u: real, v: real)
    ensures var cr := ResolvedColumnRow(layout, u, v);
      var past := XInSquare(layout, u) > CornerThreshold;
      var upper, lower := ParameterUpper(layout, u, v), ParameterLower(layout, u, v);
      var even := FirstColumn(layout, u) % 2 == 0;
      && (cr.column == FirstColumn(layout, u) + 1 <==> past && (upper > 0.0 || lower < 0.0))
      && (cr.row == FirstRow(layout, u, v) + 1 <==> past && upper > 0.0 && !even)
      && (cr.row == FirstRow(layout, u, v) - 1 <==> past && lower < 0.0 && even)
  {
  }

  /**
   * The point lies in the hexagon of the resolved column and row, for every
   * point whose floored column and row did not saturate, except in the sliver
   * between 2/3 and the threshold 0.66667, where the corners are not tested.
   */
  lemma ResolvedHexagonContainsPoint(layout: Layout, u: real, v: real)
    requires 0.0 <= ColumnPosition(layout, u) < U32Max as real
    requires 0.0 <= RowPosition(v) - RowOffset(layout, u) < U32Max as real
    ensures InHexagon(ResolvedColumnRow(layout, u, v), ColumnPosition(layout, u), RowPosition(v))
            || 2.0 / 3.0 < XInSquare(layout, u) <= CornerThreshold
  {
    var x, y := XInSquare(layout, u), YInSquare(layout, u, v);
    assert 0.0 <= x < 1.0 && 0.0 <= y < 1.0;
  }

  /**
   * Lines 6-16 of the source: the column and row the point falls in before
   * the corner correction, and the point's position inside that square.
   */
  method SquareOf(layout: Layout, u: real, v: real)
      returns (column: int, row: int, xInSquare: real, yInSquare: real)
    ensures column == FirstColumn(layout, u) && row == FirstRow(layout, u, v)
    ensures 0 <= column <= U32Max && 0 <= row <= U32Max
    ensures xInSquare == XInSquare(layout, u) && yInSquare == YInSquare(layout, u, v)
  {
    var worldWidth := Width as real;
    var su := u * (WidthMultiplier(layout) / 2.0);
    assert su * worldWidth == ColumnPosition(layout, u) by {
      if layout == Hex {} else {}
    }
    column := FloorToU32(su * worldWidth);
    var inEvenColumn := column % 2 == 0;
    var offset := if inEvenColumn then 0.0 else 0.5;
    row := FloorToU32(0.5 * v * worldWidth - offset);
    assert column == FirstColumn(layout, u) && offset == RowOffset(layout, u);
    xInSquare := su * worldWidth - column as real;
    yInSquare := 0.5 * v * worldWidth - offset - row as real;
  }

  /** `uv_to_hexel_coord`, step by step as the source updates its column and row. */
  method UvToHexelCoord(layout: Layout, u: real, v: real) returns (r: Option<WorldCoord>)
    ensures r == HexelOf(ResolvedColumnRow(layout, u, v))
  {
    ghost var resolved := ResolvedColumnRow(layout, u, v);
    var column, row, xInSquare, yInSquare := SquareOf(layout, u, v);
    var inEvenColumn := column % 2 == 0;
    var possiblyOutOfHex := xInSquare > CornerThreshold;
    if possiblyOutOfHex {
      var parameterUpper := yInSquare + 1.5 * xInSquare - 2.0;
      var parameterLower := yInSquare - 1.5 * xInSquare + 1.0;
      if parameterUpper > 0.0 || parameterLower < 0.0 {
        if column == U32Max {
          // `column += 1` overflows
          assert resolved.column == U32Max + 1;
          return None;
        }
        column := column + 1;
      }
      if parameterUpper > 0.0 && !inEvenColumn {
        if row == U32Max {
          // `row += 1` overflows
          assert resolved.row == U32Max + 1;
          return None;
        }
        row := row + 1;
      }
      if parameterLower < 0.0 && inEvenColumn {
        if row == 0 {
          // `row -= 1` underflows
          assert resolved.row == -1;
          return None;
        }
        row := row - 1;
      }
    }
    assert resolved == ColumnRow(column, row);

    if row > column / 2 {
      // `column / 2 - row` underflows
      return None;
    }
    var hexelX := column / 2 - row;
    var hexelY := row * 2 + (if column % 2 == 0 then 0 else 1);
    if hexelY > U32Max {
      // `row * 2 + column % 2` overflows
      return None;
    }
    r := Some(WorldCoord(hexelX, hexelY));
  }

  /** `uv_to_rect_grid_coord`: scale, clamp into [0, Width - 1], truncate. */
  function UvToRectGridCoord(u: real, v: real): (c: WorldCoord)
    ensures OnGrid(c)
    ensures 0.0 <= u < 1.0 ==> c.x == (u * Width as real).Floor
    ensures 0.0 <= v < 1.0 ==> c.y == (v * Width as real).Floor
    ensures u * Width as real < 0.0 ==> c.x == 0
    ensures u * Width as real >= Width as real - 1.0 ==> c.x == Width - 1
    ensures v * Width as real < 0.0 ==> c.y == 0
    ensures v * Width as real >= Width as real - 1.0 ==> c.y == Width - 1
  {
    var hi := Width as real - 1.0;
    WorldCoord(ClampReal(u * Width as real, 0.0, hi).Floor, ClampReal(v * Width as real, 0.0, hi).Floor)
  }

  function ClampReal(r: real, lo: real, hi: real): (c: real)
    requires lo <= hi
    ensures lo <= c <= hi
  {
    if r < lo then lo else if r > hi then hi else r
  }

  datatype Uv = Uv(u: real, v: real)

  /** `world_space_to_uv`: the world is `Width * multiplier` wide and `Width` high, centred on the origin. */
  function WorldSpaceToUv(layout: Layout, x: real, y: real): (r: Uv)
    ensures x == 0.0 && y == 0.0 ==> r == Uv(0.5, 0.5)
    ensures x == -(Width as real) * WidthMultiplier(layout) / 2.0 ==> r.u == 0.0
    ensures y == -(Width as real) / 2.0 ==> r.v == 0.0
  {
    var worldWidth := Width as real;
    var m := WidthMultiplier(layout);
    Uv((x + (worldWidth * m * 0.5)) / (worldWidth * m), (y + (worldWidth * 0.5)) / worldWidth)
  }

  /** The inverse map, from normalised coordinates back to world space. */
  function UvToWorldSpace(layout: Layout, uv: Uv): (real, real)
  {
    var worldWidth := Width as real;
    var m := WidthMultiplier(layout);
    (uv.u * worldWidth * m - worldWidth * m * 0.5, uv.v * worldWidth - worldWidth * 0.5)
  }

  /** `world_space_to_uv` is an affine bijection: both compositions are the identity. */
  lemma WorldSpaceRoundTrip(layout: Layout, x: real, y: real, uv: Uv)
    ensures UvToWorldSpace(layout, WorldSpaceToUv(layout, x, y)) == (x, y)
    ensures WorldSpaceToUv(layout, UvToWorldSpace(layout, uv).0, UvToWorldSpace(layout, uv).1) == uv
  {
  }

  /** Known points: the hexagon centres of columns 0 to 3 and a point in an upper corner. */
  lemma GoldenOrigin()
    ensures HexelOf(ResolvedColumnRow(Hex, 0.0, 0.0)) == Some(WorldCoord(0, 0))
  {
  }

  lemma GoldenColumnOne()
    ensures HexelOf(ResolvedColumnRow(Hex, 1.0 / 1152.0, 1.0 / 256.0)) == Some(WorldCoord(0, 1))
  {
    assert ColumnPosition(Hex, 1.0 / 1152.0) == 4.0 / 3.0;
    assert RowPosition(1.0 / 256.0) == 1.0;
  }

  lemma GoldenColumnTwo()
    ensures HexelOf(ResolvedColumnRow(Hex, 7.0 / 4608.0, 1.0 / 512.0)) == Some(WorldCoord(1, 0))
  {
    assert ColumnPosition(Hex, 7.0 / 4608.0) == 7.0 / 3.0;
    assert RowPosition(1.0 / 512.0) == 0.5;
  }

  lemma GoldenColumnThree()
    ensures HexelOf(ResolvedColumnRow(Hex, 10.0 / 4608.0, 1.0 / 128.0)) == Some(WorldCoord(0, 3))
  {
    assert ColumnPosition(Hex, 10.0 / 4608.0) == 10.0 / 3.0;
    assert RowPosition(1.0 / 128.0) == 2.0;
  }

  /** (0.9, 0.9) in column 0 lies above the upper-right edge, so it belongs to column 1. */
  lemma GoldenUpperCorner()
    ensures HexelOf(ResolvedColumnRow(Hex, 3.0 / 5120.0, 9.0 / 2560.0)) == Some(WorldCoord(0, 1))
  {
    assert ColumnPosition(Hex, 3.0 / 5120.0) == 0.9;
    assert RowPosition(9.0 / 2560.0) == 0.9;
  }
}
