/**
 * `agents.cautiousIdle.Agent`: an agent that stands still and jumps only when an
 * enemy is in the cell directly left or right of Mario.
 */
module CautiousIdle {

  /** The name the agent reports. */
  const AgentName: string := "CautiousIdleAgent"

  /** The action the agent sets, written as the literal index 4. */
  const JumpIndex: nat := 4

  /**
   * The enemy observation is indexed `[horizontal][vertical]` with Mario at the
   * centre; the two cells beside him are one column left and one column right, at
   * the middle row of column 0's height.
   */
  predicate LeftCellExists(grid: seq<seq<int>>) {
    |grid| >= 2 && |grid[|grid| / 2 - 1]| > |grid[0]| / 2
  }

  /** Something occupies the cell left of Mario. */
  predicate EnemyLeft(grid: seq<seq<int>>)
    requires LeftCellExists(grid)
  {
    grid[|grid| / 2 - 1][|grid[0]| / 2] != 0
  }

  /**
   * The cells `getActions` reads exist: the left cell always, the right cell only
   * when the left one is empty, since `||` stops at a non-zero left cell.
   */
  predicate NeighbourCellsExist(grid: seq<seq<int>>) {
    && LeftCellExists(grid)
    && (!EnemyLeft(grid) ==> |grid| >= 3 && |grid[|grid| / 2 + 1]| > |grid[0]| / 2)
  }

  /** An enemy occupies the cell left or right of Mario. */
  predicate EnemyBeside(grid: seq<seq<int>>)
    requires NeighbourCellsExist(grid)
  {
    EnemyLeft(grid) || grid[|grid| / 2 + 1][|grid[0]| / 2] != 0
  }

  /**
   * `getActions`: a fresh all-false action array with the jump entry set when an
   * enemy is beside Mario. Writing index 4 needs more than four actions.
   */
  function GetActions(enemiesObservation: seq<seq<int>>, numberOfActions: nat): (r: seq<bool>)
    requires NeighbourCellsExist(enemiesObservation)
    requires EnemyBeside(enemiesObservation) ==> JumpIndex < numberOfActions
    ensures |r| == numberOfActions
    ensures forall i :: 0 <= i < |r| && i != JumpIndex ==> !r[i]
    ensures EnemyBeside(enemiesObservation) <==> JumpIndex < |r| && r[JumpIndex]
  {
    var n := |enemiesObservation|;
    var horizontalLeft := n / 2 - 1;
    var horizontalRight := n / 2 + 1;
    var vertical := |enemiesObservation[0]| / 2;
    var jump := enemiesObservation[horizontalLeft][vertical] != 0 || enemiesObservation[horizontalRight][vertical] != 0;
    seq(numberOfActions, i => jump && i == 4)
  }

  /**
   * Grids of the same shape that agree on the left cell, and on the right cell when
   * the left one is empty, give the same actions.
   */
  lemma OnlyNeighbourCellsMatter(g: seq<seq<int>>, h: seq<seq<int>>, numberOfActions: nat)
    requires NeighbourCellsExist(g) && NeighbourCellsExist(h)
    requires |g| == |h| && |g[0]| == |h[0]|
    requires g[|g| / 2 - 1][|g[0]| / 2] == h[|h| / 2 - 1][|h[0]| / 2]
    requires !EnemyLeft(g) ==> g[|g| / 2 + 1][|g[0]| / 2] == h[|h| / 2 + 1][|h[0]| / 2]
    requires EnemyBeside(g) ==> JumpIndex < numberOfActions
    ensures GetActions(g, numberOfActions) == GetActions(h, numberOfActions)
  {
  }

  /** An enemy on the left is enough: a two-column grid has no right cell to read. */
  lemma LeftEnemyNeedsNoRightColumn(g: seq<seq<int>>, numberOfActions: nat)
    requires |g| == 2 && |g[0]| > |g[0]| / 2 && g[0][|g[0]| / 2] != 0
    requires JumpIndex < numberOfActions
    ensures NeighbourCellsExist(g)
    ensures GetActions(g, numberOfActions)[JumpIndex]
  {
  }

  /** What stands in Mario's own cell never changes the decision. */
  lemma MarioCellIgnored(g: seq<seq<int>>, v: int, numberOfActions: nat)
    requires NeighbourCellsExist(g) && |g[|g| / 2]| > |g[0]| / 2
    requires EnemyBeside(g) ==> JumpIndex < numberOfActions
    ensures var centre := |g| / 2;
      var h := g[centre := g[centre][|g[0]| / 2 := v]];
      NeighbourCellsExist(h) && GetActions(h, numberOfActions) == GetActions(g, numberOfActions)
  {
    var centre := |g| / 2;
    var h := g[centre := g[centre][|g[0]| / 2 := v]];
    assert h[0] == g[0] && h[centre - 1] == g[centre - 1];
    if !EnemyLeft(g) {
      assert h[centre + 1] == g[centre + 1];
    }
    OnlyNeighbourCellsMatter(h, g, numberOfActions);
  }
}
