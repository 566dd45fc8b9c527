/**
 * Concrete runs of a one-edge path from (0,0) to (1,0) with cost 1, where
 * the mover is always ready and every move reports success.
 */
module Scenarios {
  import opened Network
  import opened MovementRun

  function OneEdge(): Path
  {
    Path([Edge(Node(0, 0), Node(1, 0), 1.0)])
  }

  /**
   * An environment whose mover is always ready, whose moves all succeed and
   * whose owner never cancels: the first two position reads (the wait's and
   * the one after it) answer first, later reads answer later.
   */
  function Locator(first: Point, later: Point): Oracle
  {
    Oracle(_ => true, n => if n < 2 then first else later, _ => true, _ => false, _ => MoveType(1))
  }

  /**
   * The player stands on the path's start: one move from (0,0) to (1,0),
   * and the task ends terminated and not canceled.
   */
  lemma PlannedPositionSucceeds(sleeps: nat)
    ensures var res := RunSpec(Locator(Point(0, 0), Point(1, 0)), Some(OneEdge()), Fresh, sleeps);
      && res.exit == Completed && Succeeded(res.flags)
      && res.moves == [Move(MoveType(1), Point(0, 0), Point(1, 0))]
  {
  }

  /**
   * The player stands at (5,5), off the path: the task ends canceled and
   * terminated, but the move is still executed, from (5,5) towards (1,0).
   */
  lemma MisplacedPlayerStillMoves(sleeps: nat)
    ensures var res := RunSpec(Locator(Point(5, 5), Point(5, 5)), Some(OneEdge()), Fresh, sleeps);
      && res.exit == Completed && res.flags == TaskFlags(true, true)
      && res.moves == [Move(MoveType(1), Point(5, 5), Point(1, 0))]
  {
  }
}
