/** The state runner: runs the current state, takes the successor it
    returns, and stops on a nil successor, an error, or a cancelled
    context. */
module Run {
  import opened Wrappers
  import opened Zk
  import opened Config
  import opened States
  import opened Depgraph
  import Fs
  import Empty
  import Initial
  import Attempter
  import Leader
  import Failover
  import Stopping

  /** What every state needs from the environment for one run: the replies
      and events each state's `Run` consumes. Only the ones of the state
      that runs are read. */
  datatype StateInputs = StateInputs(
    initReplies: Initial.InitReplies,
    create: Attempter.CreateReply,
    attemptEvents: seq<Attempter.AttemptEvent>,
    leaderEvents: seq<Leader.LeaderEvent>,
    failoverEvents: seq<Failover.FailoverEvent>)

  /** One turn of the runner's loop: whether the runner's context is done
      when the `select` looks at it, and the inputs of the state run. */
  datatype Step = Step(cancelled: bool, inputs: StateInputs)

  /** How `LoopRunner.Run` ends: it returns nil, returns an error, the Go
      runtime panics, or it is still running when the steps run out. */
  datatype LoopEnd = Finished | Errored(err: Error) | Crash(reason: string) | Running

  /** The error returned when the context is done before a state runs. */
  const StoppedByContext: Error := Wrapped("state machine stopped: ", Canceled)

  /** The transitions the state constructors allow. */
  predicate Edge(from: StateKind, to: StateKind)
  {
    match from
    case Init => to == Failover || to == Attempter
    case Attempter => to == Failover || to == Stopping || to == Leader
    case Leader => to == Stopping
    case Failover => to == Init || to == Stopping
    case Empty => false
    case Stopping => false
  }

  /** What one call of `state.Run(ctx)` returns and the directory after it,
      given the state the Stopping getter hands out and the configuration
      the resource graph was built with. */
  function StepSpec(state: AutomataState, inputs: StateInputs, stop: AutomataState, config: Config, files: seq<Fs.File>)
    : (r: (StepResult, seq<Fs.File>))
    requires stop.StoppingState?
    ensures r.0.Returned? && r.0.next.Some? ==> Edge(state.Kind(), r.0.next.value.Kind())
    ensures !state.LeaderState? ==> r.1 == files
    ensures r.0.Returned? && r.0.next.None? ==> state.EmptyState? || state.StoppingState?
    ensures state.AttempterState? && state.conn.NilConn? ==> r.0 == Panicked(NilDereference)
    // every Stopping successor is the one the graph hands out
    ensures r.0.Returned? && r.0.next.Some? && r.0.next.value.StoppingState? ==> r.0.next.value == stop
  {
    match state
    case EmptyState => (Empty.Run(), files)
    case InitState => (Initial.Run(inputs.initReplies).0, files)
    case AttempterState(conn) =>
      // `CreateProtectedEphemeralSequential` on a nil `*zk.Conn` dereferences it
      if conn.NilConn? then (Panicked(NilDereference), files)
      else (Attempter.Successor(Attempter.Attempt(inputs.create, inputs.attemptEvents).0, stop, config), files)
    case LeaderState(cfg) =>
      var (after, end) := Leader.Reign(files, cfg, inputs.leaderEvents);
      (Leader.Successor(end, stop), after)
    case FailoverState => (Failover.Successor(Failover.Recovery(inputs.failoverEvents, 0).0, stop), files)
    case StoppingState(_) => (Returned(None, Some(Stopping.StoppedGracefully)), files)
  }

  /** The runner's verdict on one result: go on with the successor, or stop. */
  datatype Next = Continue(state: AutomataState) | Stop(end: LoopEnd)

  /** The body of the loop after `state.Run` returned. The error names the
      state RETURNED, and a nil successor with an error panics on its
      `String()` call. */
  function AfterStep(result: StepResult): (n: Next)
    ensures n.Continue? <==> result.Returned? && result.next.Some? && result.err.None?
    ensures n == Stop(Finished) <==> result == Returned(None, None)
    ensures n.Stop? && n.end.Errored? ==>
              result.Returned? && result.next.Some? && result.err.Some? &&
              n.end.err == Wrapped("state " + result.next.value.Name() + " run: ", result.err.value)
    ensures result.Blocked? <==> n == Stop(Running)
  {
    match result
    case Blocked => Stop(Running)
    case Panicked(reason) => Stop(Crash(reason))
    case Returned(next, err) =>
      match (next, err)
      case (None, None) => Stop(Finished)
      case (Some(s), None) => Continue(s)
      case (Some(s), Some(e)) => Stop(Errored(Wrapped("state " + s.Name() + " run: ", e)))
      case (None, Some(_)) => Stop(Crash(NilDereference))
  }

  /** How the loop ends from `state` on, the states it runs, and the
      directory afterwards. */
  function Machine(state: Option<AutomataState>, steps: seq<Step>, stop: AutomataState, config: Config,
                   files: seq<Fs.File>): (r: (LoopEnd, seq<AutomataState>, seq<Fs.File>))
    requires stop.StoppingState?
    ensures |r.1| <= |steps|
    decreases |steps|
  {
    match state
    case None => (Finished, [], files)
    case Some(s) =>
      if |steps| == 0 then (Running, [], files)
      else if steps[0].cancelled then (Errored(StoppedByContext), [], files)
      else
        var (result, after) := StepSpec(s, steps[0].inputs, stop, config, files);
        match AfterStep(result)
        case Stop(end) => (end, [s], after)
        case Continue(next) =>
          var (end, ran, last) := Machine(Some(next), steps[1..], stop, config, after);
          (end, [s] + ran, last)
  }

  /** `LoopRunner`: the runner's own context (derived on each `Run` and
      cancelled when `Run` returns) and the settings it was built with. */
  class LoopRunner {
    const leaderTimeout: int
    const attempterTimeout: int
    const fileDir: string
    const storageCapacity: int
    /** Whether the context derived by the last `Run` has been cancelled. */
    var ctxCancelled: bool

    /** `NewLoopRunner`. */
    constructor (leaderTimeout: int, attempterTimeout: int, fileDir: string, storageCapacity: int)
      ensures this.leaderTimeout == leaderTimeout && this.attempterTimeout == attempterTimeout
      ensures this.fileDir == fileDir && this.storageCapacity == storageCapacity
      ensures !ctxCancelled
    {
      this.leaderTimeout := leaderTimeout;
      this.attempterTimeout := attempterTimeout;
      this.fileDir := fileDir;
      this.storageCapacity := storageCapacity;
      ctxCancelled := false;
    }

    /** `Run`: the loop over the states. When it returns (any end but
        `Running`) the deferred cancel has cancelled its context. */
    method Run(initial: Option<AutomataState>, steps: seq<Step>, dg: DepGraph, dir: Fs.Directory)
      returns (end: LoopEnd, ran: seq<AutomataState>)
      requires dg.Valid() && dir.Valid()
      modifies this, dg, dir
      ensures dg.Valid() && dir.Valid() && dg.conn == old(dg.conn)
      ensures (end, ran, dir.files) == Machine(initial, steps, old(dg.StoppingNext()), dg.config, old(dir.files))
      ensures ctxCancelled <==> end != Running
    {
      ctxCancelled := false;
      ghost var stop := dg.StoppingNext();
      ghost var goal := Machine(initial, steps, stop, dg.config, dir.files);
      var state := initial;
      var k := 0;
      ran := [];
      assert steps[k..] == steps && [] + goal.1 == goal.1;
      while state.Some?
        invariant 0 <= k <= |steps|
        invariant dg.Valid() && dir.Valid() && dg.StoppingNext() == stop && stop.StoppingState?
        invariant dg.conn == old(dg.conn)
        invariant goal == After(ran, Machine(state, steps[k..], stop, dg.config, dir.files))
        invariant !ctxCancelled
        decreases |steps| - k
      {
        var n, done := Cycle(state.value, steps, k, dg, dir);
        match n {
          case Stop(e) =>
            ctxCancelled := e != Running;
            return e, ran + done;
          case Continue(next) =>
            AfterAfter(ran, done, Machine(Some(next), steps[k + 1..], stop, dg.config, dir.files));
            ran := ran + done;
            state := Some(next);
        }
        k := k + 1;
      }
      assert ran + [] == ran;
      end := Finished;
      ctxCancelled := true;
    }
  }

  /** One pass of the loop at position `k` of the script: the script has
      run out, the context is done, or the state runs. `done` holds the
      state when it ran. */
  method Cycle(state: AutomataState, steps: seq<Step>, k: nat, dg: DepGraph, dir: Fs.Directory)
    returns (n: Next, done: seq<AutomataState>)
    requires k <= |steps| && dg.Valid() && dir.Valid() && dg.StoppingNext().StoppingState?
    modifies dg, dir
    ensures dg.Valid() && dir.Valid() && dg.StoppingNext() == old(dg.StoppingNext()) && dg.conn == old(dg.conn)
    ensures n.Stop? ==> Machine(Some(state), steps[k..], old(dg.StoppingNext()), dg.config, old(dir.files)) == (n.end, done, dir.files)
    ensures n.Continue? ==>
              k < |steps| && done == [state] &&
              Machine(Some(state), steps[k..], old(dg.StoppingNext()), dg.config, old(dir.files)) ==
              After(done, Machine(Some(n.state), steps[k + 1..], old(dg.StoppingNext()), dg.config, dir.files))
  {
    if k == |steps| {
      return Stop(Running), [];
    }
    if steps[k].cancelled {
      return Stop(Errored(StoppedByContext)), [];
    }
    assert steps[k..][1..] == steps[k + 1..];
    n := Turn(state, steps[k..], dg, dir);
    done := [state];
  }

  lemma AfterAfter(ran: seq<AutomataState>, done: seq<AutomataState>, m: (LoopEnd, seq<AutomataState>, seq<Fs.File>))
    ensures After(ran, After(done, m)) == After(ran + done, m)
  {
    assert (ran + done) + m.1 == ran + (done + m.1);
  }

  /** A run's result with the states `ran` before it put in front. */
  function After(ran: seq<AutomataState>, m: (LoopEnd, seq<AutomataState>, seq<Fs.File>))
    : (LoopEnd, seq<AutomataState>, seq<Fs.File>)
  {
    (m.0, ran + m.1, m.2)
  }

  /** One turn of the loop whose context check passed: run the state, then
      judge its result. */
  method Turn(state: AutomataState, steps: seq<Step>, dg: DepGraph, dir: Fs.Directory) returns (n: Next)
    requires |steps| > 0 && !steps[0].cancelled
    requires dg.Valid() && dir.Valid()
    modifies dg, dir
    ensures dg.Valid() && dir.Valid() && dg.StoppingNext() == old(dg.StoppingNext()) && dg.conn == old(dg.conn)
    ensures old(dg.StoppingNext()).StoppingState?
    ensures n.Stop? ==> Machine(Some(state), steps, old(dg.StoppingNext()), dg.config, old(dir.files)) == (n.end, [state], dir.files)
    ensures n.Continue? ==>
              Machine(Some(state), steps, old(dg.StoppingNext()), dg.config, old(dir.files)) ==
              After([state], Machine(Some(n.state), steps[1..], old(dg.StoppingNext()), dg.config, dir.files))
  {
    var result := RunState(state, steps[0].inputs, dg, dir);
    n := AfterStep(result);
  }

  /** `state.Run(ctx)` through the interface: the state's own `Run`. */
  method RunState(state: AutomataState, inputs: StateInputs, dg: DepGraph, dir: Fs.Directory)
    returns (result: StepResult)
    requires dg.Valid() && dir.Valid()
    modifies dg, dir
    ensures dg.Valid() && dir.Valid() && dg.StoppingNext() == old(dg.StoppingNext()) && dg.conn == old(dg.conn)
    ensures dg.StoppingNext().StoppingState?
    ensures (result, dir.files) == StepSpec(state, inputs, old(dg.StoppingNext()), dg.config, old(dir.files))
  {
    match state
    case EmptyState =>
      result := Empty.Run();
    case InitState =>
      result := Initial.Run(inputs.initReplies).0;
    case AttempterState(conn) =>
      if conn.NilConn? {
        result := Panicked(NilDereference);
      } else {
        var calls;
        result, calls := Attempter.Run(dg, inputs.create, inputs.attemptEvents);
      }
    case LeaderState(cfg) =>
      result := Leader.Run(cfg, dir, dg, inputs.leaderEvents);
    case FailoverState =>
      var calls;
      result, calls := Failover.Run(dg, inputs.failoverEvents);
    case StoppingState(conn) =>
      var calls;
      result, calls := Stopping.Run(conn);
  }

  // ----- what the runner guarantees -----

  /** The states run form a path along the allowed transitions, starting
      with the initial state. */
  lemma {:induction false} RunFollowsEdges(state: Option<AutomataState>, steps: seq<Step>, stop: AutomataState,
                                           config: Config, files: seq<Fs.File>)
    requires stop.StoppingState?
    ensures var ran := Machine(state, steps, stop, config, files).1;
            (|ran| > 0 ==> state == Some(ran[0])) &&
            forall i :: 0 <= i < |ran| - 1 ==> Edge(ran[i].Kind(), ran[i + 1].Kind())
    decreases |steps|
  {
    if state.Some? && |steps| > 0 && !steps[0].cancelled {
      var (result, after) := StepSpec(state.value, steps[0].inputs, stop, config, files);
      if AfterStep(result).Continue? {
        var next := AfterStep(result).state;
        RunFollowsEdges(Some(next), steps[1..], stop, config, after);
        var rest := Machine(Some(next), steps[1..], stop, config, after).1;
        var ran := Machine(state, steps, stop, config, files).1;
        assert ran == [state.value] + rest;
        assert Edge(state.value.Kind(), next.Kind());
        forall i | 0 < i < |ran| - 1
          ensures Edge(ran[i].Kind(), ran[i + 1].Kind())
        {
          assert ran[i] == rest[i - 1] && ran[i + 1] == rest[i];
        }
      }
    }
  }

  /** A Stopping state in the states run is the last one, and the run
      ended in a nil-dereference panic. */
  predicate StoppingIsFatal(r: (LoopEnd, seq<AutomataState>, seq<Fs.File>))
  {
    forall i :: 0 <= i < |r.1| && r.1[i].StoppingState? ==> i == |r.1| - 1 && r.0 == Crash(NilDereference)
  }

  /** The Stopping state is the last one run, and it always ends the runner
      in a panic: it returns a nil successor with its error, and building the
      error message calls `String()` on that nil successor. */
  lemma {:induction false} StoppingCrashesRunner(state: Option<AutomataState>, steps: seq<Step>, stop: AutomataState,
                                                 config: Config, files: seq<Fs.File>)
    requires stop.StoppingState?
    ensures StoppingIsFatal(Machine(state, steps, stop, config, files))
    decreases |steps|
  {
    if state.Some? && |steps| > 0 && !steps[0].cancelled {
      var (result, after) := StepSpec(state.value, steps[0].inputs, stop, config, files);
      if AfterStep(result).Continue? {
        var next := AfterStep(result).state;
        StoppingCrashesRunner(Some(next), steps[1..], stop, config, after);
        var r := Machine(state, steps, stop, config, files);
        var rest := Machine(Some(next), steps[1..], stop, config, after);
        assert r.0 == rest.0 && r.1 == [state.value] + rest.1;
        assert !state.value.StoppingState? && r.1[0] == state.value;
        forall i | 0 < i < |r.1| && r.1[i].StoppingState?
          ensures i == |r.1| - 1 && r.0 == Crash(NilDereference)
        {
          assert r.1[i] == rest.1[i - 1];
        }
      }
    }
  }

  /** The runner returns nil only after the Empty state: no other state
      returns a nil successor without an error. */
  lemma {:induction false} FinishedOnlyAfterEmpty(state: AutomataState, steps: seq<Step>, stop: AutomataState,
                                                  config: Config, files: seq<Fs.File>)
    requires stop.StoppingState?
    ensures var r := Machine(Some(state), steps, stop, config, files);
            r.0 == Finished ==> |r.1| > 0 && r.1[|r.1| - 1] == EmptyState
    decreases |steps|
  {
    if |steps| > 0 && !steps[0].cancelled {
      var (result, after) := StepSpec(state, steps[0].inputs, stop, config, files);
      if AfterStep(result).Continue? {
        var next := AfterStep(result).state;
        FinishedOnlyAfterEmpty(next, steps[1..], stop, config, after);
        var r := Machine(Some(state), steps, stop, config, files);
        var rest := Machine(Some(next), steps[1..], stop, config, after);
        assert r.0 == rest.0 && r.1 == [state] + rest.1;
      }
    }
  }

  /** A failed connection in the Init state ends the whole runner with an
      error that names the Failover state: the Failover state it returns is
      never run. */
  lemma InitFailureEndsRunner(steps: seq<Step>, stop: AutomataState, config: Config, files: seq<Fs.File>)
    requires stop.StoppingState?
    requires |steps| > 0 && !steps[0].cancelled
    requires steps[0].inputs.initReplies.connect.err.Some?
    ensures Machine(Some(InitState), steps, stop, config, files) ==
              (Errored(Wrapped("state Failover run: ", Initial.ConnectionFailed)), [InitState], files)
  {
    var result := Returned(Some(FailoverState), Some(Initial.ConnectionFailed));
    assert Initial.Run(steps[0].inputs.initReplies).0 == result;
    assert "state " + FailoverState.Name() + " run: " == "state Failover run: ";
    assert AfterStep(result) == Stop(Errored(Wrapped("state Failover run: ", Initial.ConnectionFailed)));
  }

  /** A context that is done before a state runs stops the runner with the
      wrapped `context.Canceled`, without running the state. */
  lemma CancelledContextStopsRunner(state: AutomataState, steps: seq<Step>, stop: AutomataState, config: Config,
                                    files: seq<Fs.File>)
    requires stop.StoppingState?
    requires |steps| > 0 && steps[0].cancelled
    ensures Machine(Some(state), steps, stop, config, files) == (Errored(StoppedByContext), [], files)
  {
  }

  /** Every Stopping state the runner reaches after the first state is the
      one the resource graph hands out. */
  lemma {:induction false} StoppingIsTheGraphs(state: Option<AutomataState>, steps: seq<Step>, stop: AutomataState,
                                               config: Config, files: seq<Fs.File>)
    requires stop.StoppingState?
    ensures var ran := Machine(state, steps, stop, config, files).1;
            forall i :: 0 < i < |ran| && ran[i].StoppingState? ==> ran[i] == stop
    decreases |steps|
  {
    if state.Some? && |steps| > 0 && !steps[0].cancelled {
      var (result, after) := StepSpec(state.value, steps[0].inputs, stop, config, files);
      if AfterStep(result).Continue? {
        var next := AfterStep(result).state;
        StoppingIsTheGraphs(Some(next), steps[1..], stop, config, after);
        RunFollowsEdges(Some(next), steps[1..], stop, config, after);
        var rest := Machine(Some(next), steps[1..], stop, config, after).1;
        var ran := Machine(state, steps, stop, config, files).1;
        assert ran == [state.value] + rest;
        forall i | 0 < i < |ran| && ran[i].StoppingState?
          ensures ran[i] == stop
        {
          assert ran[i] == rest[i - 1];
        }
      }
    }
  }

  /** Nothing in the program installs a connection in the graph, so the
      graph `New` builds hands out `StoppingState(NilConn)`: every Stopping
      state the runner reaches holds no connection, and its `Close` is never
      called. */
  lemma FreshGraphNeverCloses(state: Option<AutomataState>, steps: seq<Step>, config: Config, files: seq<Fs.File>)
    ensures var ran := Machine(state, steps, StoppingState(NilConn), config, files).1;
            forall i :: 0 < i < |ran| && ran[i].StoppingState? ==> ran[i].conn.NilConn?
  {
    StoppingIsTheGraphs(state, steps, StoppingState(NilConn), config, files);
  }

  /** A nil initial state: the runner returns nil and runs nothing. */
  lemma NilInitialFinishes(steps: seq<Step>, stop: AutomataState, config: Config, files: seq<Fs.File>)
    requires stop.StoppingState?
    ensures Machine(None, steps, stop, config, files) == (Finished, [], files)
  {
  }

  /** Started on the Empty state, the runner returns nil after that one
      state. */
  lemma EmptyFinishesRunner(steps: seq<Step>, stop: AutomataState, config: Config, files: seq<Fs.File>)
    requires stop.StoppingState?
    requires |steps| > 0 && !steps[0].cancelled
    ensures Machine(Some(EmptyState), steps, stop, config, files) == (Finished, [EmptyState], files)
  {
  }
}
