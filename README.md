# Leader election state machine: a Dafny model

This project models the core of a ZooKeeper-backed leader-election node.
The node runs a state machine. **Init** dials the coordination service and
makes sure the `/election` namespace node exists. **Attempter** creates a
protected ephemeral sequential node, lists the candidates, sorts them by the
text after `guid-n_`, and either becomes leader or watches its predecessor.
**Leader** writes a heartbeat file on every tick and trims the heartbeat
directory to the storage capacity. **Failover** retries the connection on a
fixed `[0, 1, 2, 5, 10]` second schedule. **Stopping** closes the
connection. **Empty** does nothing. A **runner** steps from state to state.
A lazy **resource graph** builds each state once and caches the value or
the error.

Each Go file keeps its own form:

- **Imperative code becomes methods with loops.** This covers the runner
  loop, the Leader tick loop and its removal loop, the Attempter polling
  loop, the Failover retry loop and the resource graph's memo cells. Each
  such method is proved against a pure specification function:
  `Run.Machine`, `Leader.Reign`, `Leader.RetentionPass`,
  `Attempter.Attempt` and `Failover.Recovery`. Lemmas about those functions
  state what the code promises.
- **Straight-line code becomes functions.** Init and Empty are pure
  functions.

The environment is an input, never something the model runs:

- ZooKeeper replies, timer firings, context cancellation, filesystem faults
  and clock readings are given as event sequences.
- Calls to ZooKeeper and timers are recorded as a `Zk.Call` trace.
- A Go runtime panic is an outcome of its own (`Panicked`, `Crash`).
- A loop whose events run out without a decision ends as "still waiting"
  (`Blocked`, `StillWaiting`, `StillLeading`, `Running`). The Go code would
  keep waiting there.

Modules:

- `Wrappers`: Option, and Go errors as `Msg` or `Wrapped`.
- `Zk`: connections, replies and the call trace.
- `Config`: the node's configuration.
- `States`: the `AutomataState` interface as a datatype, and `StepResult`.
- `Text`: Go string order, `strings.Index` and `Split`, `%d`.
- `Sorting`: a stable insertion sort on arrays and its functional
  specification.
- `Fs`: the heartbeat directory as a class.
- `Depgraph`: the resource graph, plus one module per state (`Empty`,
  `Stopping`, `Initial`, `Attempter`, `Leader`, `Failover`).
- `Run`: the runner.

Behaviours of the code that are easy to misread, each stated by a lemma:

- **Runner error text.** The runner wraps a state's error with the
  `String()` of the *returned successor*, not of the state that ran. A
  failed Init therefore reports "state Failover run: …", and the Stopping
  state (nil successor plus an error) makes the runner panic on a nil
  interface (`Run.StoppingCrashesRunner`).
- **No forced Stopping on cancellation.** The runner returns
  "state machine stopped: context canceled" without running Stopping.
- **Reconnect test.** Failover logs "Successfully reconnected" and goes to
  Init only when `conn != nil && err != nil`. A clean connection takes the
  failure branch and panics when it logs the nil error
  (`Failover.SuccessfulConnectPanics`).
- **No cache invalidation.** `SetConnection` only assigns the connection
  field; states built before keep their old connection or cached error
  (`Depgraph.AttempterFailureSurvivesSetConn`,
  `Depgraph.StoppingKeepsFirstConnection`).
- **Init ignores cancellation and does not publish the connection.** Init
  never consults the context and never hands the connection to the
  resource graph; Failover does not either.
- **String order, not numeric.** The Attempter compares the suffix strings,
  and `sort.SearchStrings` looks for the full child name in a list ordered
  by suffix. With protected names (`_c_<guid>-guid-n_<seq>`) the
  predecessor can be missed (`Attempter.GuidOrderHidesPredecessor`).

## Model

| member | source | states |
|---|---|---|
| Depgraph.Cell.Read | internal/depgraph/dg.go:31-34 | a built cell yields its value with a nil error; a failed cell yields nil with its cached error; a filled cell never yields both or neither |
| Depgraph.Cell.Once | internal/depgraph/dg.go:26-29 | `Do` changes a cell only the first time; a filled cell is returned unchanged |
| Depgraph.OnceKeepsFirstOutcome | internal/depgraph/dg.go:26-34 | after a first outcome, later `Do` calls keep it, and every later `get` reads what the first one read |
| Depgraph.DepGraph.constructor | internal/depgraph/dg.go:50-61 | `New` starts with every cell unbuilt, no connection and no init function run, so its Stopping state holds no connection |
| Depgraph.DepGraph.GetLogger | internal/depgraph/dg.go:64-68 | the logger is built on the first call only and never errors; no other cell or the connection changes |
| Depgraph.DepGraph.GetInitState | internal/depgraph/dg.go:70-78 | always yields the Init state with a nil error; its init function (after the logger's) runs only on the first call |
| Depgraph.DepGraph.GetAttempterState | internal/depgraph/dg.go:80-91 | the first call caches an Attempter on the current connection, or the "connection not established" error for a nil one; later calls read that cached outcome |
| Depgraph.DepGraph.GetLeaderState | internal/depgraph/dg.go:93-101 | always yields the Leader state for the graph's configuration with a nil error; built once |
| Depgraph.DepGraph.GetFailoverState | internal/depgraph/dg.go:103-111 | always yields the Failover state with a nil error; built once |
| Depgraph.DepGraph.GetStoppingState | internal/depgraph/dg.go:113-121 | yields the cached Stopping state, or one holding the connection of the first call; never errors |
| Depgraph.DepGraph.SetConn | internal/depgraph/dg.go:133-136 | only the connection field changes (no cell is reset) and the result is nil |
| Depgraph.AttempterFailureSurvivesSetConn | internal/depgraph/dg.go:80-91 | an Attempter requested before any connection fails, and it still fails with the same error after `SetConn` |
| Depgraph.StoppingKeepsFirstConnection | internal/depgraph/dg.go:113-121 | the Stopping state keeps the connection of its first request whatever `SetConn` installs later |
| Empty.Run | internal/usecases/run/states/empty/state.go:25-28 | returns no successor and a nil error |
| Stopping.Run | internal/usecases/run/states/stopping/state.go:38-48 | closes a non-nil connection exactly once and touches nothing for a nil one; always returns no successor with "stopping state: application stopped gracefully" |
| Initial.Run | internal/usecases/run/states/init/state.go:38-62 | dials first; a Connect error, an Exists error after a clean dial, or a Create error each yield Failover with "connection to zookeeper failed"; a successor comes with an error exactly when it is Failover; a (nil, nil) dial panics on the nil connection, and no other reply panics; a nil error comes with an Attempter on the new, non-nil connection; Create is called only after Exists reports the node absent; a panic needs a nil connection with no dial error; never blocks |
| Initial.ExistingNamespaceIsReused | internal/usecases/run/states/init/state.go:48-61 | when `/election` exists, Create is not called and the successor is the Attempter |
| Initial.MissingNamespaceIsCreatedOnce | internal/usecases/run/states/init/state.go:53-61 | when `/election` is absent, the calls are exactly Connect, Exists, Create; a Create error gives Failover, otherwise Attempter |
| Initial.NeverStops | internal/usecases/run/states/init/state.go:38-62 | every successor is Failover or Attempter: no path leads to Stopping or Leader |
| Text.LessIrreflexive | internal/usecases/run/states/attempter/state.go:64 | Go's byte-wise string `<` is irreflexive |
| Text.LessTransitive | internal/usecases/run/states/attempter/state.go:64 | string `<` is transitive |
| Text.LessTotal | internal/usecases/run/states/attempter/state.go:64 | of two different strings one is less than the other |
| Text.LessAsymmetric | internal/usecases/run/states/attempter/state.go:64 | string `<` is asymmetric |
| Text.Index | internal/usecases/run/states/attempter/state.go:62-63 | `strings.Index`: -1 exactly when the separator does not occur, otherwise its first occurrence |
| Text.SplitField1 | internal/usecases/run/states/attempter/state.go:62-63 | `strings.Split(s, sep)[1]`: absent exactly when the separator does not occur, otherwise the text between the first and the second occurrence |
| Text.FormatInt | internal/usecases/run/states/leader/state.go:51 | `%d` of an integer is a non-empty string |
| Text.FormatIntRoundTrip | internal/usecases/run/states/leader/state.go:51 | parsing the `%d` text of an integer gives the integer back |
| Text.FormatIntInjective | internal/usecases/run/states/leader/state.go:51 | different integers have different `%d` texts |
| Sorting.InsertionSortPermutes | internal/usecases/run/states/attempter/state.go:61-65 | sorting keeps the length and is a permutation of its input |
| Sorting.InsertionSortSorted | internal/usecases/run/states/attempter/state.go:61-65 | under a strict weak order the result is sorted |
| Sorting.InsertStable | internal/usecases/run/states/attempter/state.go:61-65 | inserting an element puts it after every element equivalent to it, and keeps the order of the equivalent ones |
| Sorting.InsertionSortStable | internal/usecases/run/states/attempter/state.go:61-65 | under a strict weak order the sort is stable, as `sort.SliceStable` promises: for every key the elements equivalent to it appear in the output in their input order |
| Sorting.SortInPlace | internal/usecases/run/states/attempter/state.go:61-65 | the in-place stable sort leaves the array equal to the stable insertion sort of its old contents |
| Fs.WithoutMembers | internal/usecases/run/states/leader/state.go:85 | the directory after removals holds exactly the files whose names were not removed |
| Fs.Lookup | internal/usecases/run/states/leader/state.go:52 | finds the position of a file name, or -1 exactly when no file has that name |
| Fs.WrittenKeepsUniqueNames | internal/usecases/run/states/leader/state.go:52 | writing a file (create or overwrite) keeps names unique and the written file is present |
| Fs.WrittenFrom | internal/usecases/run/states/leader/state.go:52 | a write adds no file other than the one written |
| Fs.WithoutKeepsUniqueNames | internal/usecases/run/states/leader/state.go:85 | removals keep names unique |
| Fs.Directory.WriteFile | internal/usecases/run/states/leader/state.go:52 | a write fault is returned and (in this model) leaves the directory unchanged; otherwise the file is created or overwritten |
| Fs.Directory.ReadDir | internal/usecases/run/states/leader/state.go:70 | a listing fault is returned; otherwise the listing is the directory's contents |
| Fs.Directory.Remove | internal/usecases/run/states/leader/state.go:85 | a removal fault leaves the directory unchanged and is returned; otherwise exactly the named file is gone |
| Leader.MarkerName | internal/usecases/run/states/leader/state.go:51 | the heartbeat file name is `leader_`, the decimal Unix seconds, then `.txt` |
| Leader.MarkerNameInjective | internal/usecases/run/states/leader/state.go:51 | ticks at different seconds write different files |
| Leader.ModTimeBeforeIsStrictWeakOrder | internal/usecases/run/states/leader/state.go:77-79 | the retention sort's comparison (modification time `Before`) is a strict weak order |
| Leader.Oldest | internal/usecases/run/states/leader/state.go:76-79 | the eviction order is a permutation of the listing, sorted oldest first by modification time |
| Leader.FirstRefused | internal/usecases/run/states/leader/state.go:83-90 | the removal loop stops at the first of: `excess` removals done, the end of the listing, or a refused removal; every removal before it succeeded |
| Leader.RetentionPass | internal/usecases/run/states/leader/state.go:69-94 | `manageFiles` never grows the directory; a listing error is returned wrapped and removes nothing; a directory within capacity is left as it is, with no error; it can panic only for a negative capacity, and then on an index out of range |
| Leader.RetentionOnlyRemoves | internal/usecases/run/states/leader/state.go:69-94 | every file left after the pass was there before it: the pass only removes |
| Leader.Tick | internal/usecases/run/states/leader/state.go:50-63 | a failed heartbeat write skips retention for that tick and, with a fault modelled as having no effect, leaves the directory as it was; a successful write stays in the directory when the listing then fails, and is all that changes when the directory is then within capacity; only a negative capacity panics |
| Leader.HeartbeatSurvivesTick | internal/usecases/run/states/leader/state.go:50-63 | a fault-free tick whose heartbeat is newer than every file keeps the heartbeat when the capacity is at least one |
| Leader.Reign | internal/usecases/run/states/leader/state.go:42-65 | a non-positive `LeaderTimeout` panics in `time.NewTicker`; otherwise a cancellation ends the loop with the directory unchanged, and the loop panics only on a negative capacity |
| Leader.ReignContinuesAfterTick | internal/usecases/run/states/leader/state.go:50-63 | a tick that does not panic leaves the loop running on the directory the tick produced; a failed write (modelled as having no effect) leaves it running on the unchanged directory |
| Leader.ManageFiles | internal/usecases/run/states/leader/state.go:69-94 | listing, in-place sort and removal loop on the directory object leave it as `RetentionPass` says, with that ending |
| Leader.RemoveOldest | internal/usecases/run/states/leader/state.go:82-90 | the counted removal loop leaves the directory and ending that the eviction of the first `excess` files of the order prescribes |
| Leader.OnTick | internal/usecases/run/states/leader/state.go:50-63 | one tick on the directory object matches `Tick` |
| Leader.Run | internal/usecases/run/states/leader/state.go:39-66 | the tick loop leaves the directory as `Reign` says and returns what its ending calls for; a non-positive interval panics before any tick; a cancellation first in line yields the graph's Stopping state with a nil error and no file change; the graph changes only when asked for Stopping, and its connection never |
| Leader.EvictedAreOldest | internal/usecases/run/states/leader/state.go:77-84 | in a modification-time order, a file among the first `e` is no newer than any later one |
| Leader.EvictionKeepsNewest | internal/usecases/run/states/leader/state.go:77-90 | removing the first `e` files of any modification-time sorted permutation leaves `n - e` files, none older than a removed one (so it also holds for the unstable `sort.Slice`) |
| Leader.FaultFreeEvictionRemovesExcess | internal/usecases/run/states/leader/state.go:82-90 | without removal faults the pass removes exactly the first `n - capacity` files of the order and ends quietly |
| Leader.RetentionKeepsNewest | internal/usecases/run/states/leader/state.go:75-90 | above capacity and without faults, exactly `capacity` files remain, and no kept file is older than a removed one |
| Leader.RetentionStopsAtFirstFailure | internal/usecases/run/states/leader/state.go:83-88 | if removal `i` is the first one refused, the files before it are removed, the rest are untouched (`n - i` remain) and the error names the refused file's path |
| Leader.NegativeCapacityPanics | internal/usecases/run/states/leader/state.go:82-85 | a negative capacity removes every file and then indexes past the listing |
| Leader.FaultFreeTickBounds | internal/usecases/run/states/leader/state.go:50-63 | a fault-free tick with a non-negative capacity leaves at most `capacity` files with unique names, whatever the directory held |
| Leader.RetentionKeepsUniqueNames | internal/usecases/run/states/leader/state.go:69-94 | the pass keeps file names unique |
| Leader.FaultFreeReignIsBounded | internal/usecases/run/states/leader/state.go:45-65 | while leading without faults, a directory within capacity stays within capacity and no tick panics |
| Attempter.SortKey | internal/usecases/run/states/attempter/state.go:62-63 | the key of a child that carries the `guid-n_` marker is a field cut at a marker, so it holds no marker itself |
| Attempter.BySuffixIsStrictWeakOrder | internal/usecases/run/states/attempter/state.go:61-65 | comparing children by their suffix is a strict weak order |
| Attempter.SearchStrings | internal/usecases/run/states/attempter/state.go:73 | `sort.SearchStrings`: an index whose left neighbour is less than the target and whose element is not |
| Attempter.SearchStringsIsLowerBound | internal/usecases/run/states/attempter/state.go:73 | on an ascending list the index splits the list exactly into the elements below the target and the rest |
| Attempter.Evaluate | internal/usecases/run/states/attempter/state.go:62-83 | Lead iff the own path is `/election/` + the first sorted child; an empty listing indexes out of range; a short znode path slices out of range; a watched predecessor is a child below the own name, and is the child right before the `sort.SearchStrings` index of the own name; past the leader test there is no watch exactly when that index is 0, which can happen only when the first sorted child is not below the own name |
| Attempter.PollOnce | internal/usecases/run/states/attempter/state.go:54-83 | every poll waits 5 seconds (not `AttempterTimeout`) and lists `/election`; a listing error causes no transition; an unmarked child among two or more panics in the sort comparison; the poll yields Leader exactly when the listing succeeds, the sort does not panic and the leader test passes; an index-out-of-range verdict panics with that reason; at index 0 no watch is set and the loop goes round again; a watch verdict calls `ExistsW` on `/election/` + the predecessor, and a failed or fired watch goes round again while a pending one keeps waiting; a poll never yields Failover or Stopping |
| Attempter.Polls | internal/usecases/run/states/attempter/state.go:50-85 | the polling loop never yields Failover; with no events it is still waiting; a cancellation as the next event yields Stopping with no further call |
| Attempter.PollsContinue | internal/usecases/run/states/attempter/state.go:50-60 | a turn that goes round again (a listing error, no watch, a failed or fired watch) hands the loop to the next event, its calls followed by the rest's |
| Attempter.CancelledAfterRetriesStops | internal/usecases/run/states/attempter/state.go:50-59 | a cancellation after any number of turns that went round again (listing errors included) yields Stopping |
| Attempter.Attempt | internal/usecases/run/states/attempter/state.go:42-85 | the first call creates the candidacy node; the decision is Failover iff the create failed, and then nothing else is called; after a successful create, a cancellation first in line yields Stopping with no further call |
| Attempter.Poll | internal/usecases/run/states/attempter/state.go:54-83 | one poll with the in-place stable sort of the children matches `PollOnce` |
| Attempter.Decide | internal/usecases/run/states/attempter/state.go:42-85 | the create and the `for`/`select` loop match `Attempt` |
| Attempter.Run | internal/usecases/run/states/attempter/state.go:38-86 | returns the getter's state for the decision; every successor is Failover, Stopping or Leader with a nil error; the graph's connection is unchanged |
| Attempter.LeaderHoldsLeastSuffix | internal/usecases/run/states/attempter/state.go:61-70 | a node that leads owns a listed child whose suffix no other child's undercuts |
| Attempter.LeastSuffixLeads | internal/usecases/run/states/attempter/state.go:61-70 | the owner of the strictly least suffix leads |
| Attempter.WatchTargetsPredecessor | internal/usecases/run/states/attempter/state.go:73-76 | on a list ascending as strings, a node at position `p > 0` watches the child just before it |
| Attempter.GuidOrderHidesPredecessor | internal/usecases/run/states/attempter/state.go:61-76 | with protected names whose guid order differs from their sequence order, the later candidate watches nobody |
| Failover.Recovery | internal/usecases/run/states/failover/state.go:40-65 | at most five attempts are made and each one is a timer and a dial |
| Failover.Decide | internal/usecases/run/states/failover/state.go:42-65 | the `for ... range retryIntervals` loop matches `Recovery` |
| Failover.Run | internal/usecases/run/states/failover/state.go:37-66 | returns the getter's state for the outcome; the new connection is never handed to the graph |
| Failover.ScheduleFollowed | internal/usecases/run/states/failover/state.go:40-49 | attempts are numbered from 1 in order; attempt `k` waits the `k`-th delay of the schedule, then dials with the ten second timeout |
| Failover.OutcomeExplained | internal/usecases/run/states/failover/state.go:42-65 | every attempt but the last was a logged failure; Init follows a reply with both a connection and an error; a panic follows a reply with no error; Stopping follows cancellation or the fifth failure |
| Failover.CancelledBackoffStops | internal/usecases/run/states/failover/state.go:42-61 | a cancellation during any backoff wait, after the logged failures before it, yields Stopping with exactly those attempts made |
| Failover.ExhaustionStops | internal/usecases/run/states/failover/state.go:42-65 | five logged failures lead to Stopping after attempts 1 to 5 |
| Failover.ExhaustionWaitsFullSchedule | internal/usecases/run/states/failover/state.go:40-49 | five failures wait 0, 1, 2, 5 and 10 seconds, each followed by a dial |
| Failover.SuccessfulConnectPanics | internal/usecases/run/states/failover/state.go:49-60 | a connection with no error (the normal success) is not recovery: logging the nil error panics |
| Failover.InitOnlyOnConnectionWithError | internal/usecases/run/states/failover/state.go:49-59 | the loop reaches Init iff its first attempt that is not a logged failure got both a connection and an error |
| Run.StepSpec | internal/usecases/run/run.go:53 | running one state follows the transition graph (Init to Failover or Attempter; Attempter to Failover, Stopping or Leader; Leader to Stopping; Failover to Init or Stopping); only Empty and Stopping return no successor; only the Leader touches the directory; an Attempter on a nil connection panics on the dereference; every Stopping successor is the one the graph hands out |
| Run.AfterStep | internal/usecases/run/run.go:53-58 | the loop continues iff a successor came with a nil error; it returns nil iff the result was (nil, nil); an error is wrapped with the returned successor's name |
| Run.Machine | internal/usecases/run/run.go:41-61 | the runner runs at most one state per loop turn, so the states run never outnumber the turns scripted |
| Run.LoopRunner.constructor | internal/usecases/run/run.go:19-28 | `NewLoopRunner` keeps its settings and has no cancelled context |
| Run.LoopRunner.Run | internal/usecases/run/run.go:41-61 | the loop's ending, the states it runs and the directory afterwards are those of `Machine`; the runner's context is cancelled exactly when `Run` has returned; the graph's connection is unchanged |
| Run.RunState | internal/usecases/run/run.go:53 | the interface call runs the state's own `Run`, as `StepSpec` says, and keeps the graph's Stopping state and connection |
| Run.RunFollowsEdges | internal/usecases/run/run.go:46-58 | the states run start with the initial state and each next one is a successor the transition graph allows |
| Run.StoppingCrashesRunner | internal/usecases/run/run.go:53-55 | a Stopping state that runs is the last one, and the runner then panics formatting its nil successor |
| Run.FinishedOnlyAfterEmpty | internal/usecases/run/run.go:46-60 | a runner started on a state returns nil only after running the Empty state |
| Run.InitFailureEndsRunner | internal/usecases/run/run.go:54-56 | a failed Init connection ends the runner with "state Failover run: connection to zookeeper failed", and Failover never runs |
| Run.CancelledContextStopsRunner | internal/usecases/run/run.go:47-49 | a done context at the loop top returns "state machine stopped: context canceled" without running the state |
| Run.StoppingIsTheGraphs | internal/usecases/run/run.go:41-61 | every Stopping state the runner reaches after its first state is the one the resource graph hands out |
| Run.FreshGraphNeverCloses | internal/depgraph/dg.go:113-136 | no code calls `SetConnection`, so on the graph `New` builds every Stopping state the runner reaches holds a nil connection and closes nothing |
| Run.NilInitialFinishes | internal/usecases/run/run.go:46-60 | a nil initial state returns nil without running anything |
| Run.EmptyFinishesRunner | internal/usecases/run/run.go:46-60 | started on the Empty state, the runner returns nil after that one state |

## Left out

- Logging (`slog`) is left out: it changes no state.
- Timers, tickers and `select` multiplexing become events in a sequence, so races between simultaneous events are not modelled. The blocking wait on a watch channel is an event too: it fires, or it never fires before the events run out.
- Concurrency is left out: the thread safety of `sync.Once`, the runner's `sync.WaitGroup`, and signal handling in the command layer.
- `GetRunner` and the runner's memo cell are not modelled. They build the runner through a constructor whose arguments do not match `NewLoopRunner`.
- The constructors of the states are called across files with argument lists their definitions do not take. Each state is modelled from its own `Run` and fields. Init and Failover hand the new connection straight to the Attempter or nowhere, as their code does.
- The fallback from a failed `GetInitState` to Stopping in Failover is not modelled. Its branch is dead because that getter never fails.
- The ZooKeeper client and the filesystem are inputs. Their own semantics are not modelled: session expiry, ephemeral node deletion, the protected-name prefix generation and `ReadDir`'s name ordering.
- Leader.JoinPath: does not clean the path as `filepath.Join` does (repeated or trailing separators).
- Modification times and the clock are whole seconds (integers). Sub-second ordering is not modelled.
- Leader.Reign: durations are whole seconds, so a positive sub-second `LeaderTimeout` (such as 500ms, which `time.NewTicker` accepts) cannot be expressed; its nearest value, 0, panics in the model.
- Fs.Directory.WriteFile: a fault is modelled as having no effect. `os.WriteFile` creates or truncates the file before it writes, so a failed write (a full disk, say) can leave an empty or partial `leader_<now>.txt` that the next retention pass counts.
- Leader.Tick: inherits the no-effect write fault; after a failed heartbeat write the real directory may hold a created or truncated heartbeat file.
- Leader.ReignContinuesAfterTick: its failed-write clause inherits the same no-effect write fault.
- `context.DeadlineExceeded` is not modelled: the only context error is cancellation.
- The runner's calls trace is not collected. Each state's `Run` states its own calls.
- The events a state sees and the runner's context flag are separate inputs. A script in which a state sees cancellation but the next loop check does not is not excluded.
- `sort.Slice` in the retention pass is unstable. The model sorts stably, and the eviction lemmas (`Leader.EvictionKeepsNewest`) are stated for any modification-time sorted permutation.
