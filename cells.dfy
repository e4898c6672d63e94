/**
 * The cell of the automaton (biosim-core/src/world.rs, and the identical enum
 * of src-tauri/src/world.rs): two states, stored as a `repr(u32)` word so that
 * whole grids can be handed to the compute device as raw words.
 */
module Cells {

  import opened Wrappers

  datatype Cell = Dead | Alive

  /** The largest value of a `u32`. */
  const U32Max: int := 0xFFFF_FFFF

  type U32 = n: int | 0 <= n <= U32Max

  /** The `repr(u32)` discriminant of a cell. */
  function Discriminant(c: Cell): (d: U32)
    ensures d == 0 <==> c == Dead
    ensures d == 1 <==> c == Alive
  {
    match c
    case Dead => 0
    case Alive => 1
  }

  /**
   * Reading a device word back as a cell. Only the two discriminants are
   * valid bit patterns of the enum; any other word is not a cell.
   */
  function FromDiscriminant(d: U32): (r: Option<Cell>)
    ensures r.Some? <==> d <= 1
  {
    if d == 0 then Some(Dead)
    else if d == 1 then Some(Alive)
    else None
  }

  /** Decoding the discriminant of a cell gives the cell back. */
  lemma DecodeEncode(c: Cell)
    ensures FromDiscriminant(Discriminant(c)) == Some(c)
  {
  }

  /** Every word that decodes is the discriminant of the cell it decodes to. */
  lemma EncodeDecode(d: U32)
    requires FromDiscriminant(d).Some?
    ensures Discriminant(FromDiscriminant(d).value) == d
  {
  }

  /** The encoding is injective: distinct cells have distinct words. */
  lemma DiscriminantInjective(a: Cell, b: Cell)
    requires Discriminant(a) == Discriminant(b)
    ensures a == b
  {
    DecodeEncode(a);
    DecodeEncode(b);
  }

  /** `Zeroable::zeroed`: the all-zero word, which is the Dead cell. */
  function Zeroed(): (c: Cell)
    ensures Discriminant(c) == 0
  {
    Dead
  }

  /** `Default::default`. */
  function DefaultCell(): (c: Cell)
    ensures c == Zeroed() && Discriminant(c) == 0
  {
    Dead
  }

  /**
   * `Distribution<Cell>::sample`: `draw` is the value of `gen_range(0..=1)`;
   * zero gives Dead and any other value Alive.
   */
  function Sample(draw: int): (c: Cell)
    ensures c == Dead <==> draw == 0
  {
    if draw == 0 then Dead else Alive
  }

  /** `ToString for Cell` (src-tauri): one glyph per cell. */
  function ToText(c: Cell): (s: string)
    ensures |s| == 1
    ensures s[0] == '#' <==> c == Alive
    ensures s[0] == '-' <==> c == Dead
  {
    match c
    case Alive => "#"
    case Dead => "-"
  }

  /** 1 for a living cell, 0 for a dead one: the unit the neighbour counts add up. */
  function Living(c: Cell): (n: nat)
    ensures n <= 1 && (n == 1 <==> c == Alive)
  {
    if c == Alive then 1 else 0
  }
}
