# MovementTask — a verified model

Sparkle's Freewar bot moves its player along a precomputed path with a
`MovementTask`: a thread holding a `Path` and two flags, `mWasCanceled` and
`mHasTerminated`. The owner starts the thread, may cancel it at any time, and
polls `hasTerminated()` and `wasCanceled()`. A task that terminated without
being canceled has succeeded. `run()` works through the edges of the path in
order, for as long as the task is not canceled. For each edge it:

1. waits until the mover can move and the player stands somewhere new;
2. reads the player's position and cancels if it is not the edge's source;
3. executes the move from the position read to the edge's destination,
   cancelling if the move reports failure.

After the loop the task finalizes, which sets the terminated flag. A static
factory hands out one shared task that is canceled and already terminated.

The model has four modules:

- `Network` (`network.dfy`): the value types the task reads. These are points,
  nodes with coordinates, edges with a source, a destination and a cost, paths
  as ordered sequences of edges, and move types.
- `MovementRun` (`movement_run.dfy`): the environment as an `Oracle`, and
  `run()` as pure functions (`Wait`, `Follow`, `RunSpec`). It holds the lemmas
  that state what a run does.
  - The k-th `canMove()` call answers `canMove(k)`.
  - The k-th `getPosition()` call answers `position(k)`.
  - The move for edge k succeeds when `moveSucceeds(k)` holds.
  - The owner cancels during the pass for edge k, its wait included, when
    `canceledDuring(k)` holds.
- `Movement` (`movement_task.dfy`): the class `MovementTask`, with the two
  flags, the path, and a ghost log of the moves it has executed. `Run` is an
  imperative method with loops, proved to produce exactly the moves, flags and
  exit that `RunSpec` describes. `CanceledTaskSlot` models the static field
  behind `createCanceledTask()`.
- `Scenarios` (`scenarios.dfy`): two concrete one-edge runs.

The readiness wait of `run()` polls with no bound. The model gives each run a
budget of sleeps. A wait that would need more sleeps than remain ends the run
as `Stalled`: the thread is still waiting and has not terminated. Its cancel
flag is set only if the owner canceled during that wait. A run on the null
path ends as `NullPath`. This is the dereference of `mPath` at line 125,
reached after the pre-cancel check has already finalized a canceled task.

The model does what the code does in four places where the code does not
do what its names and comments suggest. For example, the comment on
`finalizeTask` says it "ends the task successful", and the comment on
`mWasCanceled` calls a terminated task that was not canceled successful.

- A player found away from the edge's source cancels the task, but the move
  is still executed from where the player stands
  (`Scenarios.MisplacedPlayerStillMoves`).
- A cancel is only observed at the loop guard. A task whose mover never
  becomes ready stays in its wait and never terminates, even if its owner
  cancels it. The cancel flag is set, but the terminated flag never is
  (`MovementRun.NeverMovableStalls`).
- When the pre-cancel check finalizes a canceled task, `run()` does not
  return. For the shared canceled task, `mHasTerminated` is therefore set
  before its null path is dereferenced.
- Cancelling a task that has already succeeded still sets its cancel flag.
  From then on the task reports itself canceled, not successful
  (`MovementRun.CancelAfterSuccess`).

## Model

Source paths are relative to the repository root.

| member | source | states |
|---|---|---|
| Movement.MovementTask.constructor | src/de/zabuza/sparkle/freewar/movement/MovementTask.java:88-96 | a new task holds the given path, is neither canceled nor terminated, and has made no move |
| Movement.MovementTask.CancelTask | src/de/zabuza/sparkle/freewar/movement/MovementTask.java:101-103 | sets the cancel flag and leaves the terminated flag as it was |
| Movement.MovementTask.HasTerminated | src/de/zabuza/sparkle/freewar/movement/MovementTask.java:110-112 | returns the terminated flag and changes nothing |
| Movement.MovementTask.WasCanceled | src/de/zabuza/sparkle/freewar/movement/MovementTask.java:164-172 | returns the cancel flag; for a terminated task, the flag is false exactly when the task succeeded |
| Movement.MovementTask.FinalizeTask | src/de/zabuza/sparkle/freewar/movement/MovementTask.java:177-179 | sets the terminated flag and leaves the cancel flag as it was |
| Movement.MovementTask.Run | src/de/zabuza/sparkle/freewar/movement/MovementTask.java:120-162 | returns the exit of `RunSpec`; both flags end as `RunSpec` describes; the move log grows by exactly `RunSpec`'s moves |
| Movement.MovementTask.FollowEdges | src/de/zabuza/sparkle/freewar/movement/MovementTask.java:125-159 | the while loop over the edges ends as `Follow` describes (exit, cancel flag, moves appended); the loop invariant says the rest of the loop, run from the current edge, finishes the whole run |
| Movement.MovementTask.ProcessEdge | src/de/zabuza/sparkle/freewar/movement/MovementTask.java:128-158 | one pass of the loop: either the wait stalls with no move, and the cancel flag then holds exactly when the owner canceled during that wait, or the wait ended, the position read after it is returned (it becomes the next `lastPos`) with the counters after that read, exactly the edge's move from that position is logged, the cancel flag holds exactly when `CancelsAt` does, and the rest of the run goes on from the next edge |
| Movement.MovementTask.TakeEdge | src/de/zabuza/sparkle/freewar/movement/MovementTask.java:139-158 | logs one move (the edge cost's move type, from the position read, to the destination); cancels exactly when the position is not the source, the move fails, or the owner cancels |
| Movement.AwaitReady | src/de/zabuza/sparkle/freewar/movement/MovementTask.java:130-137 | the polling loop returns the counters that `Wait` gives, or None when the sleep budget runs out first |
| Movement.CanceledTaskSlot.constructor | src/de/zabuza/sparkle/freewar/movement/MovementTask.java:26 | no shared canceled task exists yet |
| Movement.CanceledTaskSlot.CreateCanceledTask | src/de/zabuza/sparkle/freewar/movement/MovementTask.java:40-47 | the first call creates a fresh task; every later call returns that same task; the task is canceled, terminated, pathless, and has made no move |
| MovementRun.CancelIdempotent | src/de/zabuza/sparkle/freewar/movement/MovementTask.java:101-103 | cancelling twice is cancelling once; cancelling never touches the terminated flag; neither cancel nor finalize resets a flag |
| MovementRun.CancelAfterSuccess | src/de/zabuza/sparkle/freewar/movement/MovementTask.java:101-103 | cancelling a task that succeeded leaves it terminated, but it no longer counts as successful |
| MovementRun.WaitExitsWhenReady | src/de/zabuza/sparkle/freewar/movement/MovementTask.java:131-137 | a wait that ends has consumed at least one canMove and one getPosition call; the last canMove answered true and the last position differed from the previous edge's position |
| MovementRun.NeverMovableNeverReady | src/de/zabuza/sparkle/freewar/movement/MovementTask.java:131-137 | if canMove never answers true, no wait ends, whatever the budget |
| MovementRun.FollowBounded | src/de/zabuza/sparkle/freewar/movement/MovementTask.java:125-128 | each edge is taken at most once and yields exactly one move, except an edge whose wait stalls; the loop never reaches the null-path failure |
| MovementRun.FollowInPathOrder | src/de/zabuza/sparkle/freewar/movement/MovementTask.java:148-155 | the i-th move belongs to the i-th edge: the move type is the classification of that edge's cost, and the target is that edge's destination |
| MovementRun.FollowOutcome | src/de/zabuza/sparkle/freewar/movement/MovementTask.java:127-161 | a loop that completes canceled made at least one move; a loop that completes uncanceled made one move per remaining edge; a loop that stalls does so before an edge it has not taken |
| MovementRun.FollowStopsOnFailure | src/de/zabuza/sparkle/freewar/movement/MovementTask.java:139-158 | every move except the last started from the planned source, succeeded, and was not canceled by the owner: no move follows an unclean one |
| MovementRun.StallOnlyAfterClean | src/de/zabuza/sparkle/freewar/movement/MovementTask.java:127-158 | a loop that stalls has made only clean moves, so after an unclean move the loop never reaches another wait |
| MovementRun.FailureEndsRun | src/de/zabuza/sparkle/freewar/movement/MovementTask.java:127-161 | a fresh run with any unclean move (off the source, failed, or canceled by the owner) leaves the loop and ends canceled and terminated |
| MovementRun.FollowCanceledIff | src/de/zabuza/sparkle/freewar/movement/MovementTask.java:139-158 | a completed loop ends canceled if and only if it made a move and the last move was not clean; a stalled loop ends canceled if and only if the owner canceled during the wait it is stuck in |
| MovementRun.RunKeepsFlags | src/de/zabuza/sparkle/freewar/movement/MovementTask.java:120-162 | a run never resets a flag from true to false |
| MovementRun.RunTerminates | src/de/zabuza/sparkle/freewar/movement/MovementTask.java:120-162 | a run past the loop ends terminated; a task canceled beforehand ends terminated even on the null path; the null-path failure happens exactly when there is no path; a run stalls only if the task was not canceled beforehand; a stall leaves the terminated flag unchanged and sets the cancel flag exactly when the owner canceled during the wait |
| MovementRun.PreCanceledRunsNothing | src/de/zabuza/sparkle/freewar/movement/MovementTask.java:121-127 | a task canceled before it runs makes no move and ends canceled and terminated |
| MovementRun.SuccessIffAllClean | src/de/zabuza/sparkle/freewar/movement/MovementTask.java:69-73 | a fresh task succeeds if and only if the loop completed with one move per edge, each from the planned source, each successful, and with no cancel from the owner |
| MovementRun.NeverMovableStalls | src/de/zabuza/sparkle/freewar/movement/MovementTask.java:127-137 | a fresh task on a non-empty path whose mover never becomes ready stalls in its first wait and has made no move; it is not terminated, and it is canceled exactly when the owner canceled it |
| Scenarios.PlannedPositionSucceeds | src/de/zabuza/sparkle/freewar/movement/MovementTask.java:139-161 | on a one-edge path with the player at the source, one move is made and the task succeeds |
| Scenarios.MisplacedPlayerStillMoves | src/de/zabuza/sparkle/freewar/movement/MovementTask.java:139-158 | a player away from the source still makes the move, from where the player stands; the task ends canceled and terminated |

## Left out

- Threads are not modelled: `start()`, the concurrent interleaving of `cancelTask()` with `run()`, and Java memory visibility of the two non-volatile flags. Starting the thread is a synchronous call of `Run`.
- An owner's cancel during the pass for edge k is recorded by one oracle answer, `canceledDuring(k)`. If the wait for edge k ends, the cancel is applied after that edge's move. If the wait never ends, the cancel is applied during the wait. The loop guard sees the same flag wherever in the pass the cancel lands. The model does not record when, within the pass, `wasCanceled()` would first read true.
- Movement.CanceledTaskSlot.CreateCanceledTask: states that the returned task is terminated. In the source this holds only once the started thread has passed its pre-cancel check.
- `MovementRun.Wait`: the 500 ms sleep becomes one unit of a sleep budget. A wait longer than the budget ends as `Stalled`. The interrupted sleep, whose exception is only printed, is not modelled.
- `NetworkUtil`, `EMoveType`, `Path`, `DirectedWeightedEdge` and `FreewarNode` are not part of this model. The model uses move types by ordinal, `getMoveTypeOfCost` as an oracle function, and `executeMovement` as an oracle answer per edge. The effect of a move on later position reads is not tied to the move; positions come from the oracle.
- `IMovement`, `ILocation` and `IInventory` are not fields of the class. They are consulted only through the oracle, and the inventory is passed on to `executeMovement` and never read.
- The null-pointer failure is an exit value, `NullPath`. The exception's propagation out of the thread is not modelled.
- Calling `start()` a second time on the same task, which Java rejects, is not modelled.
