/**
 * The GPU shaders (shader/src/lib.rs): the compute kernel that writes one
 * cell of the next generation per invocation, and the fragment shader that
 * colours a pixel of the world quad.
 *
 * `WorldCursor::get_new_state` is not part of this model: the kernel takes
 * it as a parameter `cursor`, a function of the input buffer and a
 * coordinate that yields the new cell there.
 */
module Shader {

  import opened Wrappers
  import opened Cells
  import opened CoreGrid
  import opened HexCoords

  /** `global_invocation_id`: one `u32` per axis. */
  datatype UVec3 = UVec3(x: U32, y: U32, z: U32)

  /** `set_cell_at`: a single write at the coordinate's index. */
  method SetCellAt(buf: array<Cell>, coord: WorldCoord, cell: Cell)
    requires GetIndex(coord) < buf.Length
    modifies buf
    ensures buf[..] == old(buf[..])[GetIndex(coord) := cell]
  {
    buf[GetIndex(coord)] := cell;
  }

  /** `update_cell`: the cursor's new state for `coord`, computed from the input, stored in the output. */
  method UpdateCell(input: array<Cell>, output: array<Cell>, coord: WorldCoord,
                    cursor: (seq<Cell>, WorldCoord) -> Cell)
    requires input != output && GetIndex(coord) < output.Length
    modifies output
    ensures output[..] == old(output[..])[GetIndex(coord) := cursor(input[..], coord)]
  {
    var newState := cursor(input[..], coord);
    SetCellAt(output, coord, newState);
  }

  /**
   * The compute entry point `main`: the invocation at `globalId` updates its
   * cell when the cell's index lies inside the input buffer, and does
   * nothing otherwise. The input buffer is only read.
   */
  method ComputeMain(globalId: UVec3, input: array<Cell>, output: array<Cell>,
              cursor: (seq<Cell>, WorldCoord) -> Cell)
    requires input != output
    requires GetIndex(WorldCoord(globalId.x, globalId.y)) < input.Length ==>
             GetIndex(WorldCoord(globalId.x, globalId.y)) < output.Length
    modifies output
    ensures var coord := WorldCoord(globalId.x, globalId.y);
      output[..] == if GetIndex(coord) < input.Length
                    then old(output[..])[GetIndex(coord) := cursor(input[..], coord)]
                    else old(output[..])
  {
    var coord := WorldCoord(globalId.x, globalId.y);
    var idx := GetIndex(coord);
    if idx < input.Length {
      UpdateCell(input, output, coord, cursor);
    }
  }

  /** An RGBA colour. */
  datatype Vec4 = Vec4(r: real, g: real, b: real, a: real)

  const Transparent: Vec4 := Vec4(0.0, 0.0, 0.0, 0.0)
  const Black: Vec4 := Vec4(0.0, 0.0, 0.0, 1.0)
  const White: Vec4 := Vec4(1.0, 1.0, 1.0, 1.0)

  /** Living cells are drawn black and dead ones white, both opaque. */
  function CellColour(c: Cell): (v: Vec4)
    ensures v.a == 1.0
    ensures v == Black <==> c == Alive
    ensures v == White <==> c == Dead
  {
    match c
    case Alive => Black
    case Dead => White
  }

  /**
   * What a fragment invocation produces: a colour, a sample of the material
   * texture at the given coordinates, or a fault the shader cannot recover
   * from (an index past the end of the cell buffer, or a `u32` step that
   * leaves the range of `u32`).
   */
  datatype FragmentOutput =
    | Colour(rgba: Vec4)
    | TextureSample(s: real, t: real)
    | IndexOutOfBounds
    | ArithmeticOverflow

  /**
   * The colour choice of `hex_grid` exactly as written: a hexel is rejected
   * only when a coordinate is strictly greater than the width, so a
   * coordinate equal to the width reaches the buffer read.
   */
  function HexelColourAsWritten(cells: seq<Cell>, h: WorldCoord): (o: FragmentOutput)
    ensures o == Colour(Transparent) <==> h.x > Width || h.y > Width
    ensures o == IndexOutOfBounds <==> h.x <= Width && h.y <= Width && GetIndex(h) >= |cells|
    ensures h.x <= Width && h.y <= Width && GetIndex(h) < |cells| ==>
              o == Colour(CellColour(cells[GetIndex(h)]))
  {
    if h.x > Width || h.y > Width then Colour(Transparent)
    else if GetIndex(h) >= |cells| then IndexOutOfBounds
    else Colour(CellColour(cells[GetIndex(h)]))
  }

  /** The hexel (0, Width) passes the strict test and indexes one past the end of a full buffer. */
  lemma AsWrittenTopEdgeOutOfBounds(cells: seq<Cell>)
    requires |cells| == CellCount
    ensures HexelColourAsWritten(cells, WorldCoord(0, Width)) == IndexOutOfBounds
  {
  }

  /**
   * The hexel (Width, 0) passes the strict test and is drawn with the colour
   * of the cell (0, 1), a different cell of the world.
   */
  lemma AsWrittenRightEdgeAliases(cells: seq<Cell>)
    requires |cells| == CellCount
    ensures GetIndex(WorldCoord(Width, 0)) == GetIndex(WorldCoord(0, 1))
    ensures HexelColourAsWritten(cells, WorldCoord(Width, 0)) == Colour(CellColour(cells[GetIndex(WorldCoord(0, 1))]))
  {
  }

  /**
   * The point u = 2/3, v = 1/1000 lies inside the unit square and is mapped
   * to the hexel (Width, 0), so the strict test lets an in-range fragment
   * show the cell (0, 1).
   */
  lemma AsWrittenReachableRightEdge(cells: seq<Cell>)
    requires |cells| == CellCount
    ensures HexelOf(ResolvedColumnRow(Hex, 2.0 / 3.0, 1.0 / 1000.0)) == Some(WorldCoord(Width, 0))
    ensures HexelColourAsWritten(cells, WorldCoord(Width, 0)) != Colour(Transparent)
  {
    assert ColumnPosition(Hex, 2.0 / 3.0) == 1024.0;
    assert RowPosition(1.0 / 1000.0) == 0.256;
  }

  /**
   * The colour choice with the test the code evidently intends: every hexel
   * off the grid is transparent, and a hexel on the grid shows its own cell.
   */
  function HexelColour(cells: seq<Cell>, h: WorldCoord): (o: FragmentOutput)
    ensures o == Colour(Transparent) <==> !OnGrid(h)
    ensures |cells| >= CellCount ==> o != IndexOutOfBounds
    ensures OnGrid(h) && GetIndex(h) < |cells| ==> o == Colour(CellColour(cells[GetIndex(h)]))
  {
    if h.x >= Width || h.y >= Width then Colour(Transparent)
    else if GetIndex(h) >= |cells| then IndexOutOfBounds
    else Colour(CellColour(cells[GetIndex(h)]))
  }

  /** Both tests agree on every hexel strictly inside the grid or strictly outside it. */
  lemma CorrectedAgreesOffTheEdge(cells: seq<Cell>, h: WorldCoord)
    requires h.x != Width && h.y != Width
    ensures HexelColour(cells, h) == HexelColourAsWritten(cells, h)
  {
  }

  /**
   * `hex_grid`: flip v, map to a hexel, then choose the colour with the test
   * as written, so a hexel with a coordinate equal to the width is read from
   * the buffer.
   */
  method HexGrid(u: real, v: real, cells: seq<Cell>) returns (o: FragmentOutput)
    ensures var hexel := HexelOf(ResolvedColumnRow(Hex, u, 1.0 - v));
      && (hexel.None? ==> o == ArithmeticOverflow)
      && (hexel.Some? ==> o == HexelColourAsWritten(cells, hexel.value))
  {
    var coord := UvToHexelCoord(Hex, u, 1.0 - v);
    match coord {
      case None =>
        o := ArithmeticOverflow;
      case Some(h) =>
        o := HexelColourAsWritten(cells, h);
    }
  }

  /** `hex_grid` with the intended test: transparent exactly off the grid. */
  method HexGridCorrected(u: real, v: real, cells: seq<Cell>) returns (o: FragmentOutput)
    ensures var hexel := HexelOf(ResolvedColumnRow(Hex, u, 1.0 - v));
      && (hexel.None? ==> o == ArithmeticOverflow)
      && (hexel.Some? ==> o == HexelColour(cells, hexel.value))
  {
    var coord := UvToHexelCoord(Hex, u, 1.0 - v);
    match coord {
      case None =>
        o := ArithmeticOverflow;
      case Some(h) =>
        o := HexelColour(cells, h);
    }
  }

  /** `rect_grid`: sample the texture at the centre of the texel under the (v-flipped) point. */
  function RectGrid(u: real, v: real): (o: FragmentOutput)
    ensures o.TextureSample?
    ensures 0.0 <= u < 1.0 ==> 0.0 < o.s < 1.0 && o.s * Width as real == (u * Width as real).Floor as real + 0.5
    ensures 0.0 < v <= 1.0 ==> 0.0 < o.t < 1.0 && o.t * Width as real == ((1.0 - v) * Width as real).Floor as real + 0.5
  {
    var worldWidth := Width as real;
    TextureSample(((u * worldWidth).Floor as real + 0.5) / worldWidth,
                  (((1.0 - v) * worldWidth).Floor as real + 0.5) / worldWidth)
  }

  /** `fragment`: the `rect_grid` feature selects the rectangular path, otherwise the hexagonal one. */
  method Fragment(layout: Layout, u: real, v: real, cells: seq<Cell>) returns (o: FragmentOutput)
    ensures layout == Rect ==> o == RectGrid(u, v)
    ensures layout == Hex ==> var hexel := HexelOf(ResolvedColumnRow(Hex, u, 1.0 - v));
      && (hexel.None? ==> o == ArithmeticOverflow)
      && (hexel.Some? ==> o == HexelColourAsWritten(cells, hexel.value))
  {
    if layout == Rect {
      o := RectGrid(u, v);
    } else {
      o := HexGrid(u, v, cells);
    }
  }
}
