/**
 * What MovementTask.run() does, as functions of the task's state before the
 * run and of what the environment answers while it runs.
 *
 * The environment is an Oracle: the k-th call of IMovement.canMove() answers
 * canMove(k), the k-th call of ILocation.getPosition() answers position(k),
 * NetworkUtil.executeMovement for the move of edge k answers moveSucceeds(k),
 * NetworkUtil.getMoveTypeOfCost is moveTypeOfCost, and canceledDuring(k) says
 * whether the task's owner calls cancelTask() while edge k, its wait included,
 * is being processed.
 * The readiness wait polls without bound; here it may sleep at most a given
 * number of times, and a wait that would need more sleeps ends the run as
 * Stalled (the thread is still waiting and has not terminated).
 */
module MovementRun {
  import opened Network

  datatype Oracle = Oracle(
    // the answer of the k-th call of IMovement.canMove()
    canMove: nat -> bool,
    // the answer of the k-th call of ILocation.getPosition()
    position: nat -> Point,
    // the answer of NetworkUtil.executeMovement for the move of edge k
    moveSucceeds: nat -> bool,
    // whether the owner calls cancelTask() while edge k is processed, its wait included
    canceledDuring: nat -> bool,
    // NetworkUtil.getMoveTypeOfCost
    moveTypeOfCost: real -> MoveType)

  /** One call of NetworkUtil.executeMovement: its move type, source and destination. */
  datatype Move = Move(kind: MoveType, source: Point, destination: Point)

  /** How many canMove and getPosition calls have been made, and how many sleeps remain. */
  datatype Reads = Reads(canMoveCalls: nat, positionCalls: nat, sleepsLeft: nat)

  /**
   * How run() ends: it reaches finalizeTask after the loop, it is still in a
   * readiness wait when the sleep budget is spent, or it dereferences a null
   * path.
   */
  datatype Exit = Completed | Stalled | NullPath

  /** The two flags mWasCanceled and mHasTerminated. */
  datatype TaskFlags = TaskFlags(canceled: bool, terminated: bool)

  /** What the loop over the edges produces: how it ends, the cancel flag, the moves, the edges taken. */
  datatype Trace = Trace(exit: Exit, canceled: bool, moves: seq<Move>, taken: nat)

  /** What a whole run produces: how it ends, the flags afterwards and the moves made. */
  datatype RunResult = RunResult(exit: Exit, flags: TaskFlags, moves: seq<Move>)

  /** A freshly constructed task: neither canceled nor terminated. */
  const Fresh := TaskFlags(false, false)

  /** cancelTask(): only ever writes true into the cancel flag. */
  function Cancel(f: TaskFlags): TaskFlags
  {
    f.(canceled := true)
  }

  /** finalizeTask(): only ever writes true into the terminated flag. */
  function Finalize(f: TaskFlags): TaskFlags
  {
    f.(terminated := true)
  }

  /** Neither flag goes from true back to false between a and b. */
  predicate NoFlagReverts(a: TaskFlags, b: TaskFlags)
  {
    (a.canceled ==> b.canceled) && (a.terminated ==> b.terminated)
  }

  /** A terminated task that was not canceled has succeeded. */
  predicate Succeeded(f: TaskFlags)
  {
    f.terminated && !f.canceled
  }

  lemma CancelIdempotent(f: TaskFlags)
    ensures Cancel(Cancel(f)) == Cancel(f)
    ensures Cancel(f).canceled && Cancel(f).terminated == f.terminated
    ensures NoFlagReverts(f, Cancel(f)) && NoFlagReverts(f, Finalize(f))
  {
  }

  /**
   * Cancelling a task that has already succeeded still sets the cancel flag,
   * so the task no longer reads as successful although it has terminated.
   */
  lemma CancelAfterSuccess(f: TaskFlags)
    requires Succeeded(f)
    ensures Cancel(f).terminated && !Succeeded(Cancel(f))
  {
  }

  /**
   * The readiness wait: poll until canMove() is true and the position read
   * right after it differs from lastPos (a null lastPos equals no point). The
   * position is only read when canMove() answered true. None when the poll
   * would need one more sleep than the budget allows.
   */
  function Wait(o: Oracle, lastPos: Option<Point>, r: Reads): Option<Reads>
    decreases r.sleepsLeft
  {
    var can := o.canMove(r.canMoveCalls);
    if can && Some(o.position(r.positionCalls)) != lastPos then
      Some(Reads(r.canMoveCalls + 1, r.positionCalls + 1, r.sleepsLeft))
    else if r.sleepsLeft == 0 then
      None
    else
      Wait(o, lastPos, Reads(r.canMoveCalls + 1,
                             if can then r.positionCalls + 1 else r.positionCalls,
                             r.sleepsLeft - 1))
  }

  /** The move made for an edge when the position read after the wait is current. */
  function MoveFor(o: Oracle, edge: Edge, current: Point): Move
  {
    Move(o.moveTypeOfCost(edge.cost), current, Coordinates(edge.destination))
  }

  /**
   * Whether edge k leaves the task canceled: the read position is not the
   * edge's source, the move failed, or the owner canceled meanwhile.
   */
  predicate CancelsAt(o: Oracle, edge: Edge, k: nat, current: Point)
  {
    Coordinates(edge.source) != current || !o.moveSucceeds(k) || o.canceledDuring(k)
  }

  /** The counters after the position read that follows a wait. */
  function AfterRead(ready: Reads): Reads
  {
    ready.(positionCalls := ready.positionCalls + 1)
  }

  /**
   * The loop of run() from edge k on: while not canceled and edges remain,
   * take the next edge, wait until ready, read the position, cancel if it is
   * not the edge's source, execute the move from the read position to the
   * destination regardless, cancel if the move failed. The owner's cancel
   * for edge k lands after that edge's move; when the wait before edge k
   * outlasts the sleep budget, it lands while the thread is still waiting.
   */
  function Follow(o: Oracle, edges: seq<Edge>, k: nat, canceled: bool, lastPos: Option<Point>, r: Reads): Trace
    requires k <= |edges|
    decreases |edges| - k
  {
    if canceled || k == |edges| then
      Trace(Completed, canceled, [], 0)
    else
      match Wait(o, lastPos, r)
      case None => Trace(Stalled, o.canceledDuring(k), [], 1)
      case Some(ready) =>
        var current := o.position(ready.positionCalls);
        var rest := Follow(o, edges, k + 1, CancelsAt(o, edges[k], k, current), Some(current), AfterRead(ready));
        rest.(moves := [MoveFor(o, edges[k], current)] + rest.moves, taken := rest.taken + 1)
  }

  /**
   * The wait ends only on a poll where canMove() answered true and the
   * position read right after differed from lastPos; lastPos is then the
   * next position read. It consumes at least one answer of each kind and
   * never gives sleeps back.
   */
  lemma {:induction false} WaitExitsWhenReady(o: Oracle, lastPos: Option<Point>, r: Reads)
    ensures var w := Wait(o, lastPos, r);
      w.Some? ==>
        && r.canMoveCalls < w.value.canMoveCalls
        && r.positionCalls < w.value.positionCalls
        && w.value.sleepsLeft <= r.sleepsLeft
        && o.canMove(w.value.canMoveCalls - 1)
        && lastPos != Some(o.position(w.value.positionCalls - 1))
    decreases r.sleepsLeft
  {
    var can := o.canMove(r.canMoveCalls);
    if !(can && Some(o.position(r.positionCalls)) != lastPos) && r.sleepsLeft > 0 {
      WaitExitsWhenReady(o, lastPos, Reads(r.canMoveCalls + 1,
                                           if can then r.positionCalls + 1 else r.positionCalls,
                                           r.sleepsLeft - 1));
    }
  }

  /** One turn of the loop, for a task not yet canceled whose wait ended. */
  lemma FollowStep(o: Oracle, edges: seq<Edge>, k: nat, lastPos: Option<Point>, r: Reads, ready: Reads)
    requires k < |edges| && Wait(o, lastPos, r) == Some(ready)
    ensures var current := o.position(ready.positionCalls);
      var rest := Follow(o, edges, k + 1, CancelsAt(o, edges[k], k, current), Some(current), AfterRead(ready));
      Follow(o, edges, k, false, lastPos, r)
        == rest.(moves := [MoveFor(o, edges[k], current)] + rest.moves, taken := rest.taken + 1)
  {
  }

  /**
   * The whole of run(): finalize at once if already canceled (without
   * returning), dereference the path, run the loop, finalize if the loop
   * was left.
   */
  function RunSpec(o: Oracle, path: Option<Path>, f: TaskFlags, sleeps: nat): RunResult
  {
    var f1 := if f.canceled then Finalize(f) else f;
    if path.None? then
      RunResult(NullPath, f1, [])
    else
      var t := Follow(o, path.value.edges, 0, f1.canceled, None, Reads(0, 0, sleeps));
      var f2 := f1.(canceled := t.canceled);
      RunResult(t.exit, if t.exit == Completed then Finalize(f2) else f2, t.moves)
  }

  /**
   * Every edge is taken at most once: one move per edge taken, except for
   * the edge whose wait stalled, and never more edges than remain.
   */
  lemma {:induction false} FollowBounded(o: Oracle, edges: seq<Edge>, k: nat, canceled: bool, lastPos: Option<Point>, r: Reads)
    requires k <= |edges|
    ensures var t := Follow(o, edges, k, canceled, lastPos, r);
      && t.taken == |t.moves| + (if t.exit == Stalled then 1 else 0)
      && t.taken <= |edges| - k
      && t.exit != NullPath
    decreases |edges| - k
  {
    if !canceled && k < |edges| {
      var w := Wait(o, lastPos, r);
      if w.Some? {
        var current := o.position(w.value.positionCalls);
        FollowStep(o, edges, k, lastPos, r, w.value);
        FollowBounded(o, edges, k + 1, CancelsAt(o, edges[k], k, current), Some(current), AfterRead(w.value));
      }
    }
  }

  /** The i-th of moves is the move for edge k + i: the type its cost classifies to, towards its destination. */
  predicate MoveOfEdge(o: Oracle, edges: seq<Edge>, k: nat, moves: seq<Move>, i: nat)
    requires i < |moves| && k + i < |edges|
  {
    moves[i].kind == o.moveTypeOfCost(edges[k + i].cost)
    && moves[i].destination == Coordinates(edges[k + i].destination)
  }

  /**
   * The i-th move belongs to the i-th edge taken: its type is the
   * classification of that edge's cost and its target is the edge's
   * destination node.
   */
  lemma {:induction false} FollowInPathOrder(o: Oracle, edges: seq<Edge>, k: nat, canceled: bool, lastPos: Option<Point>, r: Reads)
    requires k <= |edges|
    ensures var t := Follow(o, edges, k, canceled, lastPos, r);
      && |t.moves| <= |edges| - k
      && forall i :: 0 <= i < |t.moves| ==> MoveOfEdge(o, edges, k, t.moves, i)
    decreases |edges| - k
  {
    FollowBounded(o, edges, k, canceled, lastPos, r);
    if !canceled && k < |edges| {
      var w := Wait(o, lastPos, r);
      if w.Some? {
        var current := o.position(w.value.positionCalls);
        var stop := CancelsAt(o, edges[k], k, current);
        FollowStep(o, edges, k, lastPos, r, w.value);
        FollowInPathOrder(o, edges, k + 1, stop, Some(current), AfterRead(w.value));
        var t := Follow(o, edges, k, false, lastPos, r);
        var rest := Follow(o, edges, k + 1, stop, Some(current), AfterRead(w.value));
        PrefixOfEdge(o, edges, k, k + 1, t.moves, rest.moves);
      }
    }
  }

  /** Moves that match their edges, with one more matching move put in front. */
  lemma PrefixOfEdge(o: Oracle, edges: seq<Edge>, k: nat, next: nat, moves: seq<Move>, rest: seq<Move>)
    requires next == k + 1 && 0 < |moves| && moves[1..] == rest && k + |moves| <= |edges|
    requires MoveOfEdge(o, edges, k, moves, 0)
    requires forall i :: 0 <= i < |rest| ==> MoveOfEdge(o, edges, next, rest, i)
    ensures forall i :: 0 <= i < |moves| ==> MoveOfEdge(o, edges, k, moves, i)
  {
    forall i | 0 <= i < |moves|
      ensures MoveOfEdge(o, edges, k, moves, i)
    {
      if i > 0 {
        assert MoveOfEdge(o, edges, next, rest, i - 1);
      }
    }
  }

  /** Edge k + i went through cleanly: position as planned, move reported success, no cancel from the owner. */
  predicate CleanStep(o: Oracle, edges: seq<Edge>, k: nat, moves: seq<Move>, i: nat)
    requires i < |moves| && k + i < |edges|
  {
    moves[i].source == Coordinates(edges[k + i].source) && o.moveSucceeds(k + i) && !o.canceledDuring(k + i)
  }

  /** The last move went through cleanly (false when there is none). */
  predicate LastClean(o: Oracle, edges: seq<Edge>, k: nat, moves: seq<Move>)
  {
    0 < |moves| && k + |moves| - 1 < |edges| && CleanStep(o, edges, k, moves, |moves| - 1)
  }

  /**
   * A loop that completes canceled was left through the loop condition after
   * at least one move; one that completes without a cancel has taken every
   * remaining edge; one that stalls did so in the wait before an edge it
   * had not taken.
   */
  lemma {:induction false} FollowOutcome(o: Oracle, edges: seq<Edge>, k: nat, lastPos: Option<Point>, r: Reads)
    requires k <= |edges|
    ensures var t := Follow(o, edges, k, false, lastPos, r);
      && (t.exit == Completed && t.canceled ==> 0 < |t.moves|)
      && (t.exit == Completed && !t.canceled ==> |t.moves| == |edges| - k)
      && (t.exit == Stalled ==> k + |t.moves| < |edges|)
    decreases |edges| - k
  {
    if k < |edges| {
      var w := Wait(o, lastPos, r);
      if w.Some? {
        var current := o.position(w.value.positionCalls);
        var stop := CancelsAt(o, edges[k], k, current);
        FollowStep(o, edges, k, lastPos, r, w.value);
        if !stop {
          FollowOutcome(o, edges, k + 1, Some(current), AfterRead(w.value));
        }
      }
    }
  }

  /**
   * Any cause for cancellation stops the loop after the edge it arose on:
   * every move but the last went through cleanly.
   */
  lemma {:induction false} FollowStopsOnFailure(o: Oracle, edges: seq<Edge>, k: nat, lastPos: Option<Point>, r: Reads)
    requires k <= |edges|
    ensures var t := Follow(o, edges, k, false, lastPos, r);
      && |t.moves| <= |edges| - k
      && (forall i :: 0 <= i < |t.moves| - 1 ==> CleanStep(o, edges, k, t.moves, i))
    decreases |edges| - k
  {
    FollowBounded(o, edges, k, false, lastPos, r);
    if k < |edges| {
      var w := Wait(o, lastPos, r);
      if w.Some? {
        var current := o.position(w.value.positionCalls);
        var stop := CancelsAt(o, edges[k], k, current);
        FollowStep(o, edges, k, lastPos, r, w.value);
        if !stop {
          var t := Follow(o, edges, k, false, lastPos, r);
          var rest := Follow(o, edges, k + 1, false, Some(current), AfterRead(w.value));
          FollowStopsOnFailure(o, edges, k + 1, Some(current), AfterRead(w.value));
          PrefixClean(o, edges, k, k + 1, t.moves, rest.moves);
        }
      }
    }
  }

  /**
   * A loop that completes ends canceled exactly when the last move it made
   * did not go through cleanly; a loop that stalls ends canceled exactly
   * when the owner canceled during the wait it is stuck in.
   */
  lemma {:induction false} FollowCanceledIff(o: Oracle, edges: seq<Edge>, k: nat, lastPos: Option<Point>, r: Reads)
    requires k <= |edges|
    ensures var t := Follow(o, edges, k, false, lastPos, r);
      t.canceled <==>
        if t.exit == Stalled then o.canceledDuring(k + |t.moves|)
        else 0 < |t.moves| && !LastClean(o, edges, k, t.moves)
    decreases |edges| - k
  {
    if k < |edges| {
      var w := Wait(o, lastPos, r);
      if w.Some? {
        var current := o.position(w.value.positionCalls);
        var stop := CancelsAt(o, edges[k], k, current);
        FollowStep(o, edges, k, lastPos, r, w.value);
        var t := Follow(o, edges, k, false, lastPos, r);
        var rest := Follow(o, edges, k + 1, stop, Some(current), AfterRead(w.value));
        FollowBounded(o, edges, k + 1, stop, Some(current), AfterRead(w.value));
        if stop {
          assert t.moves == [MoveFor(o, edges[k], current)] && t.canceled;
          assert !CleanStep(o, edges, k, t.moves, 0);
        } else {
          FollowCanceledIff(o, edges, k + 1, Some(current), AfterRead(w.value));
          if rest.moves == [] {
            assert CleanStep(o, edges, k, t.moves, 0);
          } else {
            LastCleanShift(o, edges, k, k + 1, t.moves, rest.moves);
          }
        }
      }
    }
  }

  /** Putting a move in front does not change which move is last. */
  lemma LastCleanShift(o: Oracle, edges: seq<Edge>, k: nat, next: nat, moves: seq<Move>, rest: seq<Move>)
    requires next == k + 1 && 0 < |moves| && moves[1..] == rest && 0 < |rest| && k + |moves| <= |edges|
    ensures LastClean(o, edges, k, moves) <==> LastClean(o, edges, next, rest)
  {
    assert moves[|moves| - 1] == rest[|rest| - 1];
  }

  /** Cleanliness of a move list with one clean move put in front, from that of the tail. */
  lemma PrefixClean(o: Oracle, edges: seq<Edge>, k: nat, next: nat, moves: seq<Move>, rest: seq<Move>)
    requires next == k + 1 && 0 < |moves| && moves[1..] == rest && k + |moves| <= |edges|
    requires CleanStep(o, edges, k, moves, 0)
    requires forall i :: 0 <= i < |rest| - 1 ==> CleanStep(o, edges, next, rest, i)
    ensures forall i :: 0 <= i < |moves| - 1 ==> CleanStep(o, edges, k, moves, i)
  {
    forall i | 0 <= i < |moves| - 1
      ensures CleanStep(o, edges, k, moves, i)
    {
      if i > 0 {
        assert CleanStep(o, edges, next, rest, i - 1);
      }
    }
  }

  /**
   * The loop can only stall after moves that all went through cleanly:
   * after an unclean move the task is canceled, and the loop condition ends
   * the loop before the next wait.
   */
  lemma {:induction false} StallOnlyAfterClean(o: Oracle, edges: seq<Edge>, k: nat, lastPos: Option<Point>, r: Reads)
    requires k <= |edges|
    ensures var t := Follow(o, edges, k, false, lastPos, r);
      t.exit == Stalled ==>
        && k + |t.moves| <= |edges|
        && forall i :: 0 <= i < |t.moves| ==> CleanStep(o, edges, k, t.moves, i)
    decreases |edges| - k
  {
    if k < |edges| {
      var w := Wait(o, lastPos, r);
      if w.Some? {
        var current := o.position(w.value.positionCalls);
        var stop := CancelsAt(o, edges[k], k, current);
        FollowStep(o, edges, k, lastPos, r, w.value);
        if !stop {
          var t := Follow(o, edges, k, false, lastPos, r);
          var rest := Follow(o, edges, k + 1, false, Some(current), AfterRead(w.value));
          assert t.exit == rest.exit && t.moves == [MoveFor(o, edges[k], current)] + rest.moves;
          StallOnlyAfterClean(o, edges, k + 1, Some(current), AfterRead(w.value));
          if t.exit == Stalled {
            PrefixAllClean(o, edges, k, k + 1, t.moves, rest.moves);
          }
        }
      }
    }
  }

  /** Cleanliness of every move, with one clean move put in front of a clean tail. */
  lemma PrefixAllClean(o: Oracle, edges: seq<Edge>, k: nat, next: nat, moves: seq<Move>, rest: seq<Move>)
    requires next == k + 1 && 0 < |moves| && moves[1..] == rest && k + |moves| <= |edges|
    requires CleanStep(o, edges, k, moves, 0)
    requires forall i :: 0 <= i < |rest| ==> CleanStep(o, edges, next, rest, i)
    ensures forall i :: 0 <= i < |moves| ==> CleanStep(o, edges, k, moves, i)
  {
    forall i | 0 <= i < |moves|
      ensures CleanStep(o, edges, k, moves, i)
    {
      if i > 0 {
        assert CleanStep(o, edges, next, rest, i - 1);
      }
    }
  }

  /**
   * A fresh run in which some move did not go through cleanly (the player
   * was off the edge's source, the move failed, or the owner canceled) stops
   * after that edge: it leaves the loop and ends canceled and terminated.
   */
  lemma FailureEndsRun(o: Oracle, p: Path, sleeps: nat)
    ensures var res := RunSpec(o, Some(p), Fresh, sleeps);
      (exists i :: 0 <= i < |res.moves| && i < |p.edges| && !CleanStep(o, p.edges, 0, res.moves, i)) ==>
        res.exit == Completed && res.flags == TaskFlags(true, true)
  {
    var r0 := Reads(0, 0, sleeps);
    var t := Follow(o, p.edges, 0, false, None, r0);
    FollowBounded(o, p.edges, 0, false, None, r0);
    StallOnlyAfterClean(o, p.edges, 0, None, r0);
    FollowStopsOnFailure(o, p.edges, 0, None, r0);
    FollowCanceledIff(o, p.edges, 0, None, r0);
  }

  /** A run never turns a flag back from true to false. */
  lemma RunKeepsFlags(o: Oracle, path: Option<Path>, f: TaskFlags, sleeps: nat)
    ensures NoFlagReverts(f, RunSpec(o, path, f, sleeps).flags)
  {
  }

  /**
   * Whenever run() gets past the loop, the task ends terminated; a task
   * canceled before the run is terminated even when the null path makes the
   * run fail right after the pre-cancel check. A run stalls only when the
   * task was not canceled before it; it leaves the terminated flag as it
   * was, and the cancel flag is set exactly when the owner canceled during
   * the wait the run is stuck in, the one before edge |res.moves|.
   */
  lemma RunTerminates(o: Oracle, path: Option<Path>, f: TaskFlags, sleeps: nat)
    ensures var res := RunSpec(o, path, f, sleeps);
      && (res.exit == Completed ==> res.flags.terminated)
      && (f.canceled ==> res.flags.terminated)
      && (res.exit == NullPath <==> path.None?)
      && (res.exit == Stalled ==>
            && !f.canceled && res.flags.terminated == f.terminated
            && (res.flags.canceled <==> o.canceledDuring(|res.moves|)))
  {
    if path.Some? {
      FollowBounded(o, path.value.edges, 0, f.canceled, None, Reads(0, 0, sleeps));
      if !f.canceled {
        FollowCanceledIff(o, path.value.edges, 0, None, Reads(0, 0, sleeps));
      }
    }
  }

  /**
   * A task canceled before it runs makes no move and ends canceled and
   * terminated, whatever its path.
   */
  lemma PreCanceledRunsNothing(o: Oracle, path: Option<Path>, f: TaskFlags, sleeps: nat)
    requires f.canceled
    ensures var res := RunSpec(o, path, f, sleeps);
      res.moves == [] && res.flags.canceled && res.flags.terminated
  {
  }

  /** Every edge of the path went through cleanly. */
  predicate AllClean(o: Oracle, edges: seq<Edge>, moves: seq<Move>)
  {
    |moves| == |edges| && forall i :: 0 <= i < |edges| ==> CleanStep(o, edges, 0, moves, i)
  }

  /**
   * A fresh task on a path succeeds (terminated and not canceled) exactly
   * when it made one move per edge, each from the edge's planned source
   * position, every move reported success and the owner never canceled.
   */
  lemma SuccessIffAllClean(o: Oracle, p: Path, sleeps: nat)
    ensures var res := RunSpec(o, Some(p), Fresh, sleeps);
      Succeeded(res.flags) <==> res.exit == Completed && AllClean(o, p.edges, res.moves)
  {
    var r0 := Reads(0, 0, sleeps);
    var t := Follow(o, p.edges, 0, false, None, r0);
    FollowStopsOnFailure(o, p.edges, 0, None, r0);
    FollowCanceledIff(o, p.edges, 0, None, r0);
    FollowOutcome(o, p.edges, 0, None, r0);
  }

  /** If canMove() never answers true, every readiness wait outlasts any sleep budget. */
  lemma {:induction false} NeverMovableNeverReady(o: Oracle, lastPos: Option<Point>, r: Reads)
    requires forall c: nat :: !o.canMove(c)
    ensures Wait(o, lastPos, r) == None
    decreases r.sleepsLeft
  {
    if r.sleepsLeft > 0 {
      NeverMovableNeverReady(o, lastPos, Reads(r.canMoveCalls + 1, r.positionCalls, r.sleepsLeft - 1));
    }
  }

  /**
   * A fresh task on a non-empty path whose mover never becomes ready stays
   * in its first wait and never terminates, even when its owner cancels it;
   * the cancel is then visible in the flag. No move is made.
   */
  lemma NeverMovableStalls(o: Oracle, p: Path, sleeps: nat)
    requires |p.edges| > 0
    requires forall c: nat :: !o.canMove(c)
    ensures var res := RunSpec(o, Some(p), Fresh, sleeps);
      res.exit == Stalled && res.flags == TaskFlags(o.canceledDuring(0), false) && res.moves == []
  {
    NeverMovableNeverReady(o, None, Reads(0, 0, sleeps));
  }
}
