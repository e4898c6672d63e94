/**
 * The host side of the GPU simulation (app/src/compute_shader.rs): two cell
 * buffers that trade the roles of input and output every generation, the
 * descriptor set that tells the kernel which is which, the upload of a
 * world, the dispatch of the kernel over the whole grid, and the read-back
 * of a window of the result into the RGBA bytes of an image.
 *
 * Vulkan device, queue and pipeline creation and GPU submission are not part
 * of this model; the buffers are arrays the host writes and reads directly.
 */
module ComputeShader {

  import opened Cells
  import opened CoreGrid
  import AppWorld
  import Shader

  /** Threads per workgroup along each axis, as the kernel declares and the host assumes. */
  const ThreadsPerWorkgroup: nat := 32

  /** Workgroups dispatched along each axis. */
  const WorkgroupCount: nat := Width / ThreadsPerWorkgroup

  /** The global id of thread `local` of workgroup `group` along one axis. */
  function GlobalId(group: nat, local: nat): nat
  {
    group * ThreadsPerWorkgroup + local
  }

  /**
   * The dispatch extent covers every column (and row) of the world: the
   * global ids of the dispatched threads are precisely 0 .. Width - 1.
   */
  lemma DispatchCoversGrid(id: nat)
    ensures id < Width <==>
            exists g: nat, l: nat :: g < WorkgroupCount && l < ThreadsPerWorkgroup && id == GlobalId(g, l)
  {
    if id < Width {
      var g, l := id / ThreadsPerWorkgroup, id % ThreadsPerWorkgroup;
      assert g < WorkgroupCount && l < ThreadsPerWorkgroup && id == GlobalId(g, l);
    }
  }

  /** ... and exactly once: no two threads of the extent share a global id. */
  lemma GlobalIdInjective(g: nat, l: nat, g': nat, l': nat)
    requires l < ThreadsPerWorkgroup && l' < ThreadsPerWorkgroup
    ensures GlobalId(g, l) == GlobalId(g', l') <==> g == g' && l == l'
  {
    if g < g' {
      assert GlobalId(g, l) < GlobalId(g', l') by {
        assert (g + 1) * ThreadsPerWorkgroup <= g' * ThreadsPerWorkgroup;
      }
    } else if g' < g {
      assert GlobalId(g', l') < GlobalId(g, l) by {
        assert (g' + 1) * ThreadsPerWorkgroup <= g * ThreadsPerWorkgroup;
      }
    }
  }

  /** The descriptor set: binding 0 is read by the kernel as its input, binding 1 written as its output. */
  datatype DescriptorSet = DescriptorSet(binding0: array<Cell>, binding1: array<Cell>)

  /** Which buffer plays which role. */
  datatype Roles = Roles(input: array<Cell>, output: array<Cell>)

  function Swapped(r: Roles): (s: Roles)
    ensures s.input == r.output && s.output == r.input
  {
    Roles(r.output, r.input)
  }

  /** Swapping twice restores the original roles. */
  lemma SwapInvolution(r: Roles)
    ensures Swapped(Swapped(r)) == r
  {
  }

  /** An image byte. */
  newtype Byte = b: int | 0 <= b < 256

  /** The RGBA bytes a cell is drawn with: black for a living cell, white for a dead one, both opaque. */
  function PixelBytes(c: Cell): (p: seq<Byte>)
    ensures |p| == 4 && p[3] == 255
    ensures c == Alive <==> p[0] == 0
    ensures c == Alive ==> p == [0, 0, 0, 0xFF]
    ensures c == Dead ==> p == [0xFF, 0xFF, 0xFF, 0xFF]
  {
    if c == Alive then [0, 0, 0, 255] else [255, 255, 255, 255]
  }

  /** Byte `channel` of pixel (x, y) in a `Width` by `Width` RGBA image stored row by row. */
  function PixelIndex(x: nat, y: nat, channel: nat): nat
  {
    (y * Width + x) * 4 + channel
  }

  /** Every byte of the image belongs to exactly one pixel and channel. */
  lemma PixelIndexBijective(k: nat)
    ensures k < CellCount * 4 <==>
            exists x: nat, y: nat, ch: nat :: x < Width && y < Width && ch < 4 && k == PixelIndex(x, y, ch)
  {
    if k < CellCount * 4 {
      var p: nat := k / 4;
      var x, y, ch := p % Width, p / Width, k % 4;
      assert k == PixelIndex(x, y, ch);
    } else {
      forall x: nat, y: nat, ch: nat | x < Width && y < Width && ch < 4
        ensures k != PixelIndex(x, y, ch)
      {
        assert y * Width + x < CellCount by {
          assert y * Width <= (Width - 1) * Width;
        }
      }
    }
  }

  /** The read-back window, rows [low.y, high.y) and columns [low.x, high.x). */
  datatype Window = Window(low: WorldCoord, high: WorldCoord)

  const ChunkRadius: int := 256

  /** The window around `center`, each corner saturated into the grid. */
  function ReadBackWindow(center: WorldCoord): (w: Window)
    ensures OnGrid(w.low) && OnGrid(w.high)
    ensures w.low.x <= w.high.x && w.low.y <= w.high.y
    ensures w.high.x - w.low.x <= 2 * ChunkRadius && w.high.y - w.low.y <= 2 * ChunkRadius
  {
    Window(AddClamped(center, WorldOffset(-ChunkRadius, -ChunkRadius)),
           AddClamped(center, WorldOffset(ChunkRadius, ChunkRadius)))
  }

  /** Centred on the middle of the grid, the window spans it all but the last row and column. */
  lemma CentredWindow()
    ensures ReadBackWindow(WorldCoord(Width / 2, Width / 2)) == Window(WorldCoord(0, 0), WorldCoord(Width - 1, Width - 1))
  {
  }

  /** The last row and column of the grid are never read back, wherever the centre lies. */
  lemma LastRowAndColumnNeverRead(center: WorldCoord, i: nat)
    ensures !InWindow(ReadBackWindow(center), Width - 1, i)
    ensures !InWindow(ReadBackWindow(center), i, Width - 1)
  {
  }

  predicate InWindow(w: Window, x: nat, y: nat)
  {
    w.low.x <= x < w.high.x && w.low.y <= y < w.high.y
  }

  /** The byte at (x, y, channel) after the read-back: the cell's colour inside the window, the old byte outside. */
  function ReadBackByte(w: Window, cells: seq<Cell>, old_byte: Byte, x: nat, y: nat, channel: nat): Byte
    requires |cells| == CellCount && x < Width && y < Width && channel < 4
  {
    if InWindow(w, x, y) then PixelBytes(cells[y * Width + x])[channel] else old_byte
  }

  class BiosimComputeShader {

    var inputBuffer: array<Cell>
    var outputBuffer: array<Cell>
    var descriptorSet: DescriptorSet

    /** Two distinct buffers of one length, bound as the kernel's input and output. */
    predicate Valid()
      reads this
    {
      && inputBuffer != outputBuffer
      && inputBuffer.Length == outputBuffer.Length
      && descriptorSet == DescriptorSet(inputBuffer, outputBuffer)
    }

    function CurrentRoles(): Roles
      reads this
    {
      Roles(inputBuffer, outputBuffer)
    }

    /** `new`: both buffers `bufferLength` dead cells long, bound in their roles. */
    constructor (bufferLength: nat)
      ensures Valid()
      ensures fresh(inputBuffer) && fresh(outputBuffer)
      ensures inputBuffer.Length == bufferLength && outputBuffer.Length == bufferLength
      ensures forall i :: 0 <= i < bufferLength ==> inputBuffer[i] == Dead && outputBuffer[i] == Dead
    {
      var input := new Cell[bufferLength](_ => Dead);
      var output := new Cell[bufferLength](_ => Dead);
      inputBuffer := input;
      outputBuffer := output;
      descriptorSet := DescriptorSet(input, output);
    }

    /**
     * `swap_buffers`: the buffers exchange roles and the descriptor set is
     * rebuilt so that binding 0 is the new input and binding 1 the new output.
     * No cell of either buffer changes.
     */
    method SwapBuffers()
      requires Valid()
      modifies this
      ensures Valid()
      ensures CurrentRoles() == Swapped(old(CurrentRoles()))
      ensures descriptorSet.binding0 == old(outputBuffer) && descriptorSet.binding1 == old(inputBuffer)
    {
      inputBuffer, outputBuffer := outputBuffer, inputBuffer;
      descriptorSet := DescriptorSet(inputBuffer, outputBuffer);
    }

    /**
     * `copy_to_buffer`: the cells of `src` overwrite the input buffer from the
     * start, as far as both reach; the rest of the input buffer and the whole
     * output buffer keep their cells.
     */
    method CopyToBuffer(src: seq<Cell>)
      requires Valid()
      modifies inputBuffer
      ensures forall i :: 0 <= i < inputBuffer.Length ==>
                inputBuffer[i] == if i < |src| then src[i] else old(inputBuffer[i])
      ensures outputBuffer[..] == old(outputBuffer[..])
    {
      var n := if |src| < inputBuffer.Length then |src| else inputBuffer.Length;
      for i := 0 to n
        invariant forall j :: 0 <= j < inputBuffer.Length ==>
                    inputBuffer[j] == if j < i then src[j] else old(inputBuffer[j])
      {
        inputBuffer[i] := src[i];
      }
    }

    /**
     * `dispatch`: one kernel invocation per global id of the (Width / 32) by
     * (Width / 32) workgroups of 32 by 32 threads, run one after another.
     * Every cell of the grid inside the input buffer receives the cursor's new
     * state for it, computed from the input buffer; nothing else changes.
     */
    method Dispatch(cursor: (seq<Cell>, WorldCoord) -> Cell)
      requires Valid()
      modifies outputBuffer
      ensures forall i :: 0 <= i < outputBuffer.Length ==>
                outputBuffer[i] == if i < CellCount && i < inputBuffer.Length
                                   then cursor(inputBuffer[..], CoordOf(i))
                                   else old(outputBuffer[i])
    {
      for y := 0 to Width
        invariant forall i :: 0 <= i < outputBuffer.Length ==>
                    outputBuffer[i] == if i < y * Width && i < inputBuffer.Length
                                       then cursor(inputBuffer[..], CoordOf(i))
                                       else old(outputBuffer[i])
      {
        for x := 0 to Width
          invariant forall i :: 0 <= i < outputBuffer.Length ==>
                      outputBuffer[i] == if i < y * Width + x && i < inputBuffer.Length
                                         then cursor(inputBuffer[..], CoordOf(i))
                                         else old(outputBuffer[i])
        {
          CoordOfIndex(WorldCoord(x, y));
          Shader.ComputeMain(Shader.UVec3(x, y, 0), inputBuffer, outputBuffer, cursor);
        }
      }
    }

    /**
     * `read_back_to_image`: the output buffer, read as a `Width` by `Width`
     * array whose first index is the row, is drawn into the image's RGBA
     * bytes at the same coordinates, for the window around `center` only.
     * Every other byte of the image is left as it was.
     */
    method ReadBackToImage(center: WorldCoord, image: array<Byte>)
      requires Valid()
      requires outputBuffer.Length == CellCount && image.Length == CellCount * 4
      modifies image
      ensures forall x: nat, y: nat, ch: nat :: x < Width && y < Width && ch < 4 ==>
                image[PixelIndex(x, y, ch)] ==
                  ReadBackByte(ReadBackWindow(center), outputBuffer[..], old(image[PixelIndex(x, y, ch)]), x, y, ch)
    {
      var window := ReadBackWindow(center);
      var low, high := window.low, window.high;
      for y := low.y to high.y
        invariant forall i: nat, j: nat, ch: nat :: i < Width && j < Width && ch < 4 ==>
                    image[PixelIndex(i, j, ch)] ==
                      if low.x <= i < high.x && low.y <= j < y
                      then PixelBytes(outputBuffer[j * Width + i])[ch]
                      else old(image[PixelIndex(i, j, ch)])
      {
        for x := low.x to high.x
          invariant forall i: nat, j: nat, ch: nat :: i < Width && j < Width && ch < 4 ==>
                      image[PixelIndex(i, j, ch)] ==
                        if low.x <= i < high.x && (low.y <= j < y || (j == y && low.x <= i < x))
                        then PixelBytes(outputBuffer[j * Width + i])[ch]
                        else old(image[PixelIndex(i, j, ch)])
        {
          WritePixel(image, x, y, PixelBytes(outputBuffer[y * Width + x]));
        }
      }
    }
  }

  /** Stores the four bytes of pixel (x, y), leaving every other pixel alone. */
  method WritePixel(image: array<Byte>, x: nat, y: nat, bytes: seq<Byte>)
    requires image.Length == CellCount * 4 && x < Width && y < Width && |bytes| == 4
    modifies image
    ensures forall i: nat, j: nat, ch: nat :: i < Width && j < Width && ch < 4 ==>
              image[PixelIndex(i, j, ch)] ==
                if i == x && j == y then bytes[ch] else old(image[PixelIndex(i, j, ch)])
  {
    var base := (y * Width + x) * 4;
    assert base + 3 < image.Length by {
      assert y * Width <= (Width - 1) * Width;
    }
    image[base] := bytes[0];
    image[base + 1] := bytes[1];
    image[base + 2] := bytes[2];
    image[base + 3] := bytes[3];
    forall i: nat, j: nat, ch: nat | i < Width && j < Width && ch < 4 && (i != x || j != y)
      ensures PixelIndex(i, j, ch) / 4 != y * Width + x
    {
      assert PixelIndex(i, j, ch) / 4 == j * Width + i;
      IndexInjective(WorldCoord(i, j), WorldCoord(x, y));
    }
  }

  /**
   * With a cursor that applies the Life rule of the flat world, and buffers
   * exactly as large as the grid, a dispatch leaves in the output buffer the
   * next generation of the input buffer.
   */
  lemma DispatchComputesGeneration(input: seq<Cell>, after: seq<Cell>,
                                   cursor: (seq<Cell>, WorldCoord) -> Cell)
    requires |input| == CellCount && |after| == CellCount
    requires forall c :: OnGrid(c) ==> cursor(input, c) == AppWorld.NewState(input, c.x, c.y)
    requires forall i :: 0 <= i < |after| ==> after[i] == cursor(input, CoordOf(i))
    ensures after == AppWorld.Generation(input)
  {
    forall i | 0 <= i < CellCount
      ensures after[i] == AppWorld.Generation(input)[i]
    {
      IndexOfCoord(i);
    }
  }
}
