/**
 * The hexagon mesh of the desktop renderer (src-tauri/src/hex_grid.rs): six
 * vertices per cell of the 32 by 32 world, and four triangles per hexagon
 * given as indices into the vertex list.
 *
 * A vertex position is a cosine and sine away from its hexagon's centre;
 * this model does not compute it and keeps, for each vertex, the hexagon and
 * the corner it stands for.
 */
module HexMesh {

  import TauriWorld

  const Width: nat := TauriWorld.Width

  const VertsPerHex: nat := 6

  const IndicesPerHex: nat := 12

  const HexCount: nat := Width * Width

  const VertexCount: nat := HexCount * VertsPerHex

  const IndexCount: nat := HexCount * IndicesPerHex

  /** The four triangles of a hexagon, as corner numbers: (0,1,5), (1,2,5), (2,4,5), (2,3,4). */
  const Triangles: seq<nat> := [0, 1, 5, 1, 2, 5, 2, 4, 5, 2, 3, 4]

  /** Vertex `corner` of the hexagon at (x, y). */
  datatype VertexRef = VertexRef(x: nat, y: nat, corner: nat)

  /** The order in which the nested `for x` / `for y` loops visit (x, y). */
  function Slot(x: nat, y: nat): nat
  {
    x * Width + y
  }

  /** The first vertex index `get_indices` uses for the iteration at (x, y). */
  function HexOffset(x: nat, y: nat): nat
  {
    (x + y * Width) * VertsPerHex
  }

  /** Quotient and remainder are unique. */
  lemma DivModUnique(q: nat, r: nat, d: nat)
    requires r < d
    ensures (q * d + r) / d == q && (q * d + r) % d == r
  {
    var n := q * d + r;
    var q', r' := n / d, n % d;
    assert n == q' * d + r';
    assert q' < q ==> (q' + 1) * d <= q * d;
    assert q < q' ==> (q + 1) * d <= q' * d;
  }

  /** The hexagon and slot that a position in a per-hexagon list belongs to. */
  lemma SlotOf(x: nat, y: nat, per: nat, k: nat)
    requires x < Width && y < Width && k < per
    ensures Slot(x, y) < HexCount
    ensures (Slot(x, y) * per + k) / per == Slot(x, y) && (Slot(x, y) * per + k) % per == k
    ensures Slot(x, y) / Width == x && Slot(x, y) % Width == y
  {
    DivModUnique(Slot(x, y), k, per);
    DivModUnique(x, y, Width);
    assert Slot(x, y) < HexCount by {
      assert x * Width <= (Width - 1) * Width;
    }
  }

  /** The vertex list `get_positions` produces, in closed form. */
  function ExpectedPositions(): (r: seq<VertexRef>)
    ensures |r| == VertexCount
  {
    seq(VertexCount, n requires 0 <= n < VertexCount =>
      var h := n / VertsPerHex;
      VertexRef(h / Width, h % Width, n % VertsPerHex))
  }

  /** The index list `get_indices` produces, in closed form. */
  function ExpectedIndices(): (r: seq<nat>)
    ensures |r| == IndexCount
  {
    seq(IndexCount, n requires 0 <= n < IndexCount =>
      var h := n / IndicesPerHex;
      HexOffset(h / Width, h % Width) + Triangles[n % IndicesPerHex])
  }

  lemma PositionAt(x: nat, y: nat, corner: nat)
    requires x < Width && y < Width && corner < VertsPerHex
    ensures Slot(x, y) * VertsPerHex + corner < VertexCount
    ensures ExpectedPositions()[Slot(x, y) * VertsPerHex + corner] == VertexRef(x, y, corner)
  {
    SlotOf(x, y, VertsPerHex, corner);
  }

  lemma IndexAt(x: nat, y: nat, k: nat)
    requires x < Width && y < Width && k < IndicesPerHex
    ensures Slot(x, y) * IndicesPerHex + k < IndexCount
    ensures ExpectedIndices()[Slot(x, y) * IndicesPerHex + k] == HexOffset(x, y) + Triangles[k]
  {
    SlotOf(x, y, IndicesPerHex, k);
  }

  /** `get_positions`: six vertices for each (x, y), x in the outer loop. */
  method GetPositions() returns (positions: seq<VertexRef>)
    ensures positions == ExpectedPositions()
  {
    positions := [];
    for x := 0 to Width
      invariant |positions| == Slot(x, 0) * VertsPerHex
      invariant positions == ExpectedPositions()[..|positions|]
    {
      for y := 0 to Width
        invariant |positions| == Slot(x, y) * VertsPerHex
        invariant positions == ExpectedPositions()[..|positions|]
      {
        for v := 0 to VertsPerHex
          invariant |positions| == Slot(x, y) * VertsPerHex + v
          invariant positions == ExpectedPositions()[..|positions|]
        {
          PositionAt(x, y, v);
          positions := positions + [VertexRef(x, y, v)];
        }
      }
    }
  }

  /** `get_indices`: the four triangles of each (x, y) at its offset, x in the outer loop. */
  method GetIndices() returns (indices: seq<nat>)
    ensures indices == ExpectedIndices()
  {
    indices := [];
    for x := 0 to Width
      invariant |indices| == Slot(x, 0) * IndicesPerHex
      invariant indices == ExpectedIndices()[..|indices|]
    {
      for y := 0 to Width
        invariant |indices| == Slot(x, y) * IndicesPerHex
        invariant indices == ExpectedIndices()[..|indices|]
      {
        var offset := (x + y * Width) * VertsPerHex;
        var triangles := [
          offset + 0, offset + 1, offset + 5,
          offset + 1, offset + 2, offset + 5,
          offset + 2, offset + 4, offset + 5,
          offset + 2, offset + 3, offset + 4
        ];
        forall k | 0 <= k < IndicesPerHex
          ensures ExpectedIndices()[Slot(x, y) * IndicesPerHex + k] == triangles[k]
        {
          IndexAt(x, y, k);
        }
        indices := indices + triangles;
      }
    }
  }

  /** Every index names a vertex of the mesh, and those of one iteration lie within six of its offset. */
  lemma IndicesInRange(x: nat, y: nat, k: nat)
    requires x < Width && y < Width && k < IndicesPerHex
    ensures HexOffset(x, y) <= ExpectedIndices()[Slot(x, y) * IndicesPerHex + k] <= HexOffset(x, y) + 5
    ensures ExpectedIndices()[Slot(x, y) * IndicesPerHex + k] < VertexCount
  {
    IndexAt(x, y, k);
    assert HexOffset(x, y) + 5 < VertexCount by {
      assert x + y * Width <= (Width - 1) + (Width - 1) * Width;
    }
  }

  /** Every entry of the index list is below the vertex count. */
  lemma AllIndicesInRange()
    ensures forall n :: 0 <= n < IndexCount ==> ExpectedIndices()[n] < VertexCount
  {
    forall n | 0 <= n < IndexCount
      ensures ExpectedIndices()[n] < VertexCount
    {
      var h := n / IndicesPerHex;
      var x, y, k := h / Width, h % Width, n % IndicesPerHex;
      assert n == Slot(x, y) * IndicesPerHex + k;
      IndicesInRange(x, y, k);
    }
  }

  /** Different iterations use disjoint blocks of six vertices. */
  lemma OffsetsDisjoint(x: nat, y: nat, x': nat, y': nat)
    requires x < Width && y < Width && x' < Width && y' < Width
    requires (x, y) != (x', y')
    ensures HexOffset(x, y) + VertsPerHex <= HexOffset(x', y') || HexOffset(x', y') + VertsPerHex <= HexOffset(x, y)
  {
    if y < y' {
      assert x + y * Width < x' + y' * Width by {
        assert (y + 1) * Width <= y' * Width;
      }
    } else if y' < y {
      assert x' + y' * Width < x + y * Width by {
        assert (y' + 1) * Width <= y * Width;
      }
    }
  }

  /**
   * The offset counts hexagons with y as the major coordinate while the
   * vertices are pushed with x as the major one, so the triangles emitted
   * at iteration (x, y) are drawn on the corners of the hexagon at (y, x).
   */
  lemma IndicesTransposed(x: nat, y: nat, k: nat)
    requires x < Width && y < Width && k < IndicesPerHex
    ensures ExpectedIndices()[Slot(x, y) * IndicesPerHex + k] < VertexCount
    ensures ExpectedPositions()[ExpectedIndices()[Slot(x, y) * IndicesPerHex + k]] == VertexRef(y, x, Triangles[k])
  {
    IndexAt(x, y, k);
    assert HexOffset(x, y) == Slot(y, x) * VertsPerHex;
    PositionAt(y, x, Triangles[k]);
  }

  /** Still, every corner of every hexagon is used by some triangle, so the whole grid is drawn. */
  lemma EveryCornerDrawn(x: nat, y: nat, corner: nat)
    requires x < Width && y < Width && corner < VertsPerHex
    ensures exists n :: 0 <= n < IndexCount && ExpectedIndices()[n] < VertexCount &&
                        ExpectedPositions()[ExpectedIndices()[n]] == VertexRef(x, y, corner)
  {
    var k := if corner == 0 then 0 else if corner == 1 then 1 else if corner == 2 then 4
             else if corner == 3 then 10 else if corner == 4 then 7 else 2;
    assert Triangles[k] == corner;
    IndicesTransposed(y, x, k);
    assert Slot(y, x) * IndicesPerHex + k < IndexCount;
  }

  /** A vertex colour. */
  datatype Rgba = Rgba(r: real, g: real, b: real, a: real)

  const White: Rgba := Rgba(1.0, 1.0, 1.0, 1.0)

  /** A triangle-list mesh: positions, indices into them, and one colour per position. */
  datatype Mesh = Mesh(positions: seq<VertexRef>, indices: seq<nat>, colours: seq<Rgba>)

  /** A mesh is well formed when every index names a vertex and every vertex has a colour. */
  predicate WellFormed(m: Mesh)
  {
    && |m.colours| == |m.positions|
    && (forall i :: 0 <= i < |m.indices| ==> m.indices[i] < |m.positions|)
  }

  /** `build_hex_grid_mesh`: the positions, the indices, and a white colour for every vertex. */
  method BuildHexGridMesh() returns (mesh: Mesh)
    ensures WellFormed(mesh)
    ensures mesh.positions == ExpectedPositions() && mesh.indices == ExpectedIndices()
    ensures |mesh.colours| == VertexCount && forall i :: 0 <= i < |mesh.colours| ==> mesh.colours[i] == White
  {
    var positions := GetPositions();
    var indices := GetIndices();
    var colours := seq(HexCount * VertsPerHex, _ => White);
    AllIndicesInRange();
    mesh := Mesh(positions, indices, colours);
  }
}
