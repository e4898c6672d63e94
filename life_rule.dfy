/**
 * The B3/S23 transition rule that `get_new_state` applies in every variant of
 * the engine (src-tauri/src/world.rs, app/src/world.rs, and the compute kernel).
 */
module LifeRule {

  import opened Cells

  /**
   * The state a cell takes in the next generation, given its current state and
   * its number of living neighbours: Alive with 2 or 3 survives, Dead with
   * exactly 3 is born, everything else is Dead.
   */
  function NextState(c: Cell, livingNeighbors: int): (r: Cell)
    ensures r == Alive <==> livingNeighbors == 3 || (c == Alive && livingNeighbors == 2)
  {
    match c
    case Alive => if 2 <= livingNeighbors <= 3 then Alive else Dead
    case Dead => if livingNeighbors == 3 then Alive else Dead
  }

  /** The rule written out as a table: the next state for 0..8 neighbours. */
  function RuleTable(c: Cell): (row: seq<Cell>)
    ensures |row| == 9
  {
    match c
    case Alive => [Dead, Dead, Alive, Alive, Dead, Dead, Dead, Dead, Dead]
    case Dead => [Dead, Dead, Dead, Alive, Dead, Dead, Dead, Dead, Dead]
  }

  /** The rule agrees with the table on all 18 (state, count) combinations. */
  lemma NextStateMatchesTable(c: Cell, n: int)
    requires 0 <= n <= 8
    ensures NextState(c, n) == RuleTable(c)[n]
  {
  }

  /** An Alive cell stays Alive exactly when it has 2 or 3 living neighbours. */
  lemma Survival(n: int)
    ensures NextState(Alive, n) == Alive <==> n == 2 || n == 3
  {
  }

  /** A Dead cell becomes Alive exactly when it has 3 living neighbours. */
  lemma Birth(n: int)
    ensures NextState(Dead, n) == Alive <==> n == 3
  {
  }
}
