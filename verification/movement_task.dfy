/**
 * The MovementTask thread object: its two flags, its path, and run() as a
 * method that walks the path edge by edge. The moves it executes are kept in
 * a ghost log. Starting the thread is modelled as calling Run, which returns
 * when run() would: after the loop (Completed), still waiting when the sleep
 * budget is spent (Stalled), or on the null-path dereference (NullPath).
 */
module Movement {
  import opened Network
  import opened MovementRun

  class MovementTask {
    /** mWasCanceled */
    var wasCanceled: bool
    /** mHasTerminated */
    var hasTerminated: bool
    /** mPath; None for the null path of the shared canceled task. */
    const path: Option<Path>
    /** Every move handed to NetworkUtil.executeMovement, in order. */
    ghost var moves: seq<Move>

    function Flags(): TaskFlags
      reads this
    {
      TaskFlags(wasCanceled, hasTerminated)
    }

    constructor (path: Option<Path>)
      ensures this.path == path && Flags() == Fresh && moves == []
    {
      this.path := path;
      wasCanceled := false;
      hasTerminated := false;
      moves := [];
    }

    method CancelTask()
      modifies this`wasCanceled
      ensures Flags() == Cancel(old(Flags()))
    {
      wasCanceled := true;
    }

    method HasTerminated() returns (r: bool)
      ensures r == Flags().terminated
    {
      r := hasTerminated;
    }

    /** True if the task was canceled; a terminated task that was not has succeeded. */
    method WasCanceled() returns (r: bool)
      ensures r == Flags().canceled
      ensures hasTerminated ==> (Succeeded(Flags()) <==> !r)
    {
      r := wasCanceled;
    }

    method FinalizeTask()
      modifies this`hasTerminated
      ensures Flags() == Finalize(old(Flags()))
    {
      hasTerminated := true;
    }

    /**
     * The part of a turn of the loop in run() after the wait: cancel if the
     * player is not at the edge's source, execute the move from where the
     * player is regardless, cancel if it failed; the owner's cancel for edge
     * k lands at the end.
     */
    method TakeEdge(o: Oracle, edge: Edge, k: nat, currentPos: Point)
      modifies this`wasCanceled, this`moves
      ensures wasCanceled == (old(wasCanceled) || CancelsAt(o, edge, k, currentPos))
      ensures moves == old(moves) + [MoveFor(o, edge, currentPos)]
    {
      // player off the edge's source: cancel, but move anyway
      if Coordinates(edge.source) != currentPos {
        CancelTask();
      }
      // the move goes from where the player was read to be
      var kind := o.moveTypeOfCost(edge.cost);
      var wasSuccessful := o.moveSucceeds(k);
      moves := moves + [Move(kind, currentPos, Coordinates(edge.destination))];
      if !wasSuccessful {
        CancelTask();
      }
      if o.canceledDuring(k) {
        CancelTask();
      }
    }

    /**
     * One turn of the loop in run(), for edge k of a task not canceled:
     * wait until the player is ready, read the position, cancel if the
     * player is not at the edge's source, execute the move from where the
     * player is regardless, cancel if it failed; the owner's cancel for edge
     * k lands at the end. Returns the position read and the counters after
     * it, and what is left of the loop then runs as it would have from edge
     * k. Returns None when the wait outlasts the sleep budget; the owner's
     * cancel for edge k then lands during the wait.
     */
    method ProcessEdge(o: Oracle, edges: seq<Edge>, k: nat, lastPos: Option<Point>, counts: Reads)
      returns (read: Option<(Point, Reads)>)
      requires k < |edges| && !wasCanceled
      modifies this`wasCanceled, this`moves
      ensures var here := Follow(o, edges, k, false, lastPos, counts);
        if read.None? then
          && here.exit == Stalled && here.moves == [] && moves == old(moves)
          && here.canceled == wasCanceled == o.canceledDuring(k)
        else
          var rest := Follow(o, edges, k + 1, wasCanceled, Some(read.value.0), read.value.1);
          && here.exit == rest.exit && here.canceled == rest.canceled
          && moves + rest.moves == old(moves) + here.moves
      ensures read.Some? ==>
        var w := Wait(o, lastPos, counts);
        && w.Some?
        && read.value == (o.position(w.value.positionCalls), AfterRead(w.value))
        && moves == old(moves) + [MoveFor(o, edges[k], read.value.0)]
        && wasCanceled == CancelsAt(o, edges[k], k, read.value.0)
    {
      var edge := edges[k];
      var ready := AwaitReady(o, lastPos, counts);
      if ready.None? {
        // still waiting: an owner's cancel meanwhile stays visible in the flag
        if o.canceledDuring(k) {
          CancelTask();
        }
        return None;
      }
      FollowStep(o, edges, k, lastPos, counts, ready.value);

      var currentPos := o.position(ready.value.positionCalls);
      TakeEdge(o, edge, k, currentPos);
      read := Some((currentPos, AfterRead(ready.value)));
    }

    /**
     * run(), answering the environment's calls from o and sleeping at most
     * sleeps times in all.
     */
    method Run(o: Oracle, sleeps: nat) returns (exit: Exit)
      modifies this`wasCanceled, this`hasTerminated, this`moves
      ensures var spec := RunSpec(o, path, old(Flags()), sleeps);
        exit == spec.exit && Flags() == spec.flags && moves == old(moves) + spec.moves
    {
      if wasCanceled {
        FinalizeTask();
      }
      if path.None? {
        return NullPath;
      }
      exit := FollowEdges(o, path.value.edges, sleeps);
      if exit == Completed {
        FinalizeTask();
      }
    }

    /**
     * The loop of run(): take the edges in order while the task is not
     * canceled, waiting before each until the player is ready.
     */
    method FollowEdges(o: Oracle, edges: seq<Edge>, sleeps: nat) returns (exit: Exit)
      modifies this`wasCanceled, this`moves
      ensures var spec := Follow(o, edges, 0, old(wasCanceled), None, Reads(0, 0, sleeps));
        exit == spec.exit && wasCanceled == spec.canceled && moves == old(moves) + spec.moves
    {
      ghost var spec := Follow(o, edges, 0, wasCanceled, None, Reads(0, 0, sleeps));
      var next := 0;
      var lastPos: Option<Point> := None;
      var counts := Reads(0, 0, sleeps);
      while !wasCanceled && next < |edges|
        invariant next <= |edges|
        invariant var rest := Follow(o, edges, next, wasCanceled, lastPos, counts);
          && spec.exit == rest.exit && spec.canceled == rest.canceled
          && old(moves) + spec.moves == moves + rest.moves
        decreases |edges| - next
      {
        var read := ProcessEdge(o, edges, next, lastPos, counts);
        if read.None? {
          return Stalled;
        }
        next := next + 1;
        lastPos, counts := Some(read.value.0), read.value.1;
      }
      return Completed;
    }
  }

  /**
   * The readiness wait of run(): poll canMove(), and getPosition() when
   * the player can move, sleeping between polls until the player can move
   * and stands somewhere other than lastPos. None when one more sleep than
   * the budget allows would be needed.
   */
  method AwaitReady(o: Oracle, lastPos: Option<Point>, start: Reads) returns (ready: Option<Reads>)
    ensures ready == Wait(o, lastPos, start)
  {
    var counts := start;
    while true
      invariant Wait(o, lastPos, start) == Wait(o, lastPos, counts)
      decreases counts.sleepsLeft
    {
      var canMove := o.canMove(counts.canMoveCalls);
      var samePos := false;
      if canMove {
        samePos := Some(o.position(counts.positionCalls)) == lastPos;
      }
      if canMove && !samePos {
        return Some(Reads(counts.canMoveCalls + 1, counts.positionCalls + 1, counts.sleepsLeft));
      }
      if counts.sleepsLeft == 0 {
        return None;
      }
      // one sleep of the polling interval
      counts := Reads(counts.canMoveCalls + 1,
                      if canMove then counts.positionCalls + 1 else counts.positionCalls,
                      counts.sleepsLeft - 1);
    }
  }

  /** The static field canceledTaskInstance of MovementTask. */
  class CanceledTaskSlot {
    var canceledTaskInstance: MovementTask?

    /** The shared instance, once made, is canceled, terminated, pathless and has moved nowhere. */
    ghost predicate Valid()
      reads this, canceledTaskInstance
    {
      canceledTaskInstance != null ==>
        && canceledTaskInstance.wasCanceled
        && canceledTaskInstance.hasTerminated
        && canceledTaskInstance.path == None
        && canceledTaskInstance.moves == []
    }

    /** Class initialisation: no shared instance yet. */
    constructor ()
      ensures Valid() && canceledTaskInstance == null
    {
      canceledTaskInstance := null;
    }

    /**
     * createCanceledTask(): make the shared instance on the first call (a
     * null path, canceled, then started), return that same instance on
     * every call.
     */
    method CreateCanceledTask() returns (t: MovementTask)
      requires Valid()
      modifies this
      ensures Valid() && t == canceledTaskInstance
      ensures old(canceledTaskInstance) != null ==> t == old(canceledTaskInstance)
      ensures old(canceledTaskInstance) == null ==> fresh(t)
      ensures t.wasCanceled && t.hasTerminated && t.moves == []
    {
      if canceledTaskInstance == null {
        var task := new MovementTask(None);
        task.CancelTask();
        // start(): with a null path the environment is never consulted
        var _ := task.Run(Unconsulted(), 0);
        canceledTaskInstance := task;
      }
      t := canceledTaskInstance;
    }
  }

  /** An environment for a run that never reaches its loop. */
  function Unconsulted(): Oracle
  {
    Oracle(_ => false, _ => Point(0, 0), _ => false, _ => false, _ => MoveType(0))
  }
}
