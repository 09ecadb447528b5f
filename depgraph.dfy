/** The lazy resource graph: one memo cell per resource, each filled by its
    init function on first request and never again, and the ZooKeeper
    connection field that `SetConn` overwrites. */
module Depgraph {
  import opened Wrappers
  import opened Zk
  import opened Config
  import opened States

  /** The `*slog.Logger` the graph builds: a text handler on standard output. */
  datatype Logger = TextLogger

  /** A `dgEntity`: its `sync.Once` has not run yet, or it holds the value or
      the error its init function produced. */
  datatype Cell<T> = Unbuilt | Built(value: T) | Failed(error: Error)
  {
    /** What `get` hands back after `Do`: the stored value with a nil error,
        or the zero value (nil) with the cached error. A cell whose `Do`
        never ran holds the zero value and a nil error. */
    function Read(): (r: (Option<T>, Option<Error>))
      ensures Built? ==> r == (Some(value), None)
      ensures Failed? ==> r == (None, Some(error))
      ensures r.0.Some? != r.1.Some? || Unbuilt?
    {
      match this
      case Unbuilt => (None, None)
      case Built(v) => (Some(v), None)
      case Failed(e) => (None, Some(e))
    }

    /** The cell after `Do(init)` where `init` would produce `outcome`: the
        outcome if the cell was never filled, the cell itself otherwise. */
    function Once(outcome: Cell<T>): (r: Cell<T>)
      ensures !Unbuilt? ==> r == this
    {
      if Unbuilt? then outcome else this
    }
  }

  /** Once a cell is filled, later `Do` calls keep its first outcome, so
      every later `get` returns what the first one returned. */
  lemma OnceKeepsFirstOutcome<T>(c: Cell<T>, first: Cell<T>, later: Cell<T>)
    requires !first.Unbuilt?
    ensures c.Once(first).Once(later) == c.Once(first)
    ensures c.Once(first).Once(later).Read() == c.Once(first).Read()
  {
  }

  /** Names of the cells whose init functions can run. */
  datatype CellName = LoggerCell | InitCell | AttempterCell | LeaderCell | FailoverCell | StoppingCell

  const NoConnection: Error := Msg("error on: Zookeeper connection not established")

  /** What the Attempter cell's init function produces for the connection it
      sees (its logger request cannot fail). */
  function AttempterInit(conn: Conn): Cell<AutomataState>
  {
    if conn.NilConn? then Failed(NoConnection) else Built(AttempterState(conn))
  }

  class DepGraph {
    const config: Config
    var logger: Cell<Logger>
    var emptyState: Cell<AutomataState>
    var initState: Cell<AutomataState>
    var attempterState: Cell<AutomataState>
    var leaderState: Cell<AutomataState>
    var failoverState: Cell<AutomataState>
    var stoppingState: Cell<AutomataState>
    var conn: Conn
    /** The init functions that have run, in the order they finished. */
    ghost var inits: seq<CellName>

    ghost function CellFilled(c: CellName): bool
      reads this
    {
      match c
      case LoggerCell => !logger.Unbuilt?
      case InitCell => !initState.Unbuilt?
      case AttempterCell => !attempterState.Unbuilt?
      case LeaderCell => !leaderState.Unbuilt?
      case FailoverCell => !failoverState.Unbuilt?
      case StoppingCell => !stoppingState.Unbuilt?
    }

    ghost predicate Valid()
      reads this
    {
      // each init function runs at most once, and exactly the filled cells' did
      && (forall i, j :: 0 <= i < j < |inits| ==> inits[i] != inits[j])
      && (forall c :: c in inits <==> CellFilled(c))
      // every state's init asks for the logger first
      && ((CellFilled(InitCell) || CellFilled(AttempterCell) || CellFilled(LeaderCell)
           || CellFilled(FailoverCell) || CellFilled(StoppingCell)) ==> logger.Built?)
      // what each cell can hold
      && !logger.Failed?
      && emptyState.Unbuilt?
      && (initState.Unbuilt? || initState == Built(InitState))
      && (attempterState.Unbuilt? || attempterState == Failed(NoConnection)
          || (attempterState.Built? && attempterState.value.AttempterState? && !attempterState.value.conn.NilConn?))
      && (leaderState.Unbuilt? || leaderState == Built(LeaderState(config)))
      && (failoverState.Unbuilt? || failoverState == Built(FailoverState))
      && (stoppingState.Unbuilt? || (stoppingState.Built? && stoppingState.value.StoppingState?))
    }

    /** The state `GetStoppingState` returns now: the cached one, or one
        holding the current connection. */
    ghost function StoppingNext(): AutomataState
      reads this
    {
      if stoppingState.Built? then stoppingState.value else StoppingState(conn)
    }

    /** `depgraph.New`: every cell unconstructed, no connection. */
    constructor (config: Config)
      ensures Valid() && this.config == config
      ensures logger.Unbuilt? && emptyState.Unbuilt? && initState.Unbuilt? && attempterState.Unbuilt?
      ensures leaderState.Unbuilt? && failoverState.Unbuilt? && stoppingState.Unbuilt?
      ensures conn == NilConn && inits == []
      ensures StoppingNext() == StoppingState(NilConn)
    {
      this.config := config;
      logger, emptyState, initState, attempterState := Unbuilt, Unbuilt, Unbuilt, Unbuilt;
      leaderState, failoverState, stoppingState := Unbuilt, Unbuilt, Unbuilt;
      conn := NilConn;
      inits := [];
    }

    /** The logger, built on first request; it never fails. */
    method GetLogger() returns (l: Option<Logger>, err: Option<Error>)
      requires Valid()
      modifies this
      ensures Valid()
      ensures l == Some(TextLogger) && err.None?
      ensures logger == Built(TextLogger)
      ensures inits == old(inits) + (if old(logger).Unbuilt? then [LoggerCell] else [])
      ensures initState == old(initState) && attempterState == old(attempterState) && leaderState == old(leaderState)
      ensures failoverState == old(failoverState) && stoppingState == old(stoppingState) && conn == old(conn)
    {
      if logger.Unbuilt? {
        assert !CellFilled(LoggerCell);
        logger := Built(TextLogger);
        inits := inits + [LoggerCell];
      }
      assert logger.value == TextLogger;
      var got := logger.Read();
      l, err := got.0, got.1;
    }

    method GetInitState() returns (s: Option<AutomataState>, err: Option<Error>)
      requires Valid()
      modifies this
      ensures Valid()
      ensures s == Some(InitState) && err.None?
      ensures initState == Built(InitState)
      ensures inits == old(inits) + (if old(initState).Unbuilt? then (if old(logger).Unbuilt? then [LoggerCell] else []) + [InitCell] else [])
      ensures attempterState == old(attempterState) && leaderState == old(leaderState)
      ensures failoverState == old(failoverState) && stoppingState == old(stoppingState) && conn == old(conn)
    {
      if initState.Unbuilt? {
        var _, e := GetLogger();
        assert !CellFilled(InitCell);
        var outcome: Cell<AutomataState>;
        match e {
          case Some(x) => outcome := Failed(Wrapped("error on: getting logger - ", x));
          case None => outcome := Built(InitState);
        }
        initState := outcome;
        inits := inits + [InitCell];
      }
      var got := initState.Read();
      s, err := got.0, got.1;
    }

    method GetAttempterState() returns (s: Option<AutomataState>, err: Option<Error>)
      requires Valid()
      modifies this
      ensures Valid()
      ensures attempterState == old(attempterState).Once(AttempterInit(old(conn)))
      ensures (s, err) == attempterState.Read()
      ensures inits == old(inits) + (if old(attempterState).Unbuilt? then (if old(logger).Unbuilt? then [LoggerCell] else []) + [AttempterCell] else [])
      ensures initState == old(initState) && leaderState == old(leaderState)
      ensures failoverState == old(failoverState) && stoppingState == old(stoppingState) && conn == old(conn)
    {
      if attempterState.Unbuilt? {
        var _, e := GetLogger();
        assert !CellFilled(AttempterCell);
        var outcome: Cell<AutomataState>;
        match e {
          case Some(x) => outcome := Failed(Wrapped("error on: getting logger - ", x));
          case None =>
            if conn.NilConn? {
              outcome := Failed(NoConnection);
            } else {
              outcome := Built(AttempterState(conn));
            }
        }
        attempterState := outcome;
        inits := inits + [AttempterCell];
      }
      var got := attempterState.Read();
      s, err := got.0, got.1;
    }

    method GetLeaderState() returns (s: Option<AutomataState>, err: Option<Error>)
      requires Valid()
      modifies this
      ensures Valid()
      ensures s == Some(LeaderState(config)) && err.None?
      ensures leaderState == Built(LeaderState(config))
      ensures inits == old(inits) + (if old(leaderState).Unbuilt? then (if old(logger).Unbuilt? then [LoggerCell] else []) + [LeaderCell] else [])
      ensures initState == old(initState) && attempterState == old(attempterState)
      ensures failoverState == old(failoverState) && stoppingState == old(stoppingState) && conn == old(conn)
    {
      if leaderState.Unbuilt? {
        var _, e := GetLogger();
        assert !CellFilled(LeaderCell);
        var outcome: Cell<AutomataState>;
        match e {
          case Some(x) => outcome := Failed(Wrapped("error on: getting logger ", x));
          case None => outcome := Built(LeaderState(config));
        }
        leaderState := outcome;
        inits := inits + [LeaderCell];
      }
      var got := leaderState.Read();
      s, err := got.0, got.1;
    }

    method GetFailoverState() returns (s: Option<AutomataState>, err: Option<Error>)
      requires Valid()
      modifies this
      ensures Valid()
      ensures s == Some(FailoverState) && err.None?
      ensures failoverState == Built(FailoverState)
      ensures inits == old(inits) + (if old(failoverState).Unbuilt? then (if old(logger).Unbuilt? then [LoggerCell] else []) + [FailoverCell] else [])
      ensures initState == old(initState) && attempterState == old(attempterState)
      ensures leaderState == old(leaderState) && stoppingState == old(stoppingState) && conn == old(conn)
    {
      if failoverState.Unbuilt? {
        var _, e := GetLogger();
        assert !CellFilled(FailoverCell);
        var outcome: Cell<AutomataState>;
        match e {
          case Some(x) => outcome := Failed(Wrapped("error on: getting logger ", x));
          case None => outcome := Built(FailoverState);
        }
        failoverState := outcome;
        inits := inits + [FailoverCell];
      }
      var got := failoverState.Read();
      s, err := got.0, got.1;
    }

    /** The Stopping state keeps the connection the graph held when it was
        first requested. */
    method GetStoppingState() returns (s: Option<AutomataState>, err: Option<Error>)
      requires Valid()
      modifies this
      ensures Valid()
      ensures s == Some(old(StoppingNext())) && err.None?
      ensures stoppingState == Built(old(StoppingNext()))
      ensures inits == old(inits) + (if old(stoppingState).Unbuilt? then (if old(logger).Unbuilt? then [LoggerCell] else []) + [StoppingCell] else [])
      ensures initState == old(initState) && attempterState == old(attempterState)
      ensures leaderState == old(leaderState) && failoverState == old(failoverState) && conn == old(conn)
    {
      if stoppingState.Unbuilt? {
        var _, e := GetLogger();
        assert !CellFilled(StoppingCell);
        var outcome: Cell<AutomataState>;
        match e {
          case Some(x) => outcome := Failed(Wrapped("error on: getting logger ", x));
          case None => outcome := Built(StoppingState(conn));
        }
        stoppingState := outcome;
        inits := inits + [StoppingCell];
      }
      var got := stoppingState.Read();
      s, err := got.0, got.1;
    }

    /** Replaces the connection; no cell is reset. */
    method SetConn(c: Conn) returns (err: Option<Error>)
      requires Valid()
      modifies this`conn
      ensures Valid()
      ensures conn == c && err.None?
    {
      conn := c;
      err := None;
    }
  }

  /** A graph asked for the Attempter before any connection was set keeps
      failing with the same error after a connection is set. */
  method AttempterFailureSurvivesSetConn(dg: DepGraph, c: Conn) returns (first: Option<Error>, second: Option<Error>)
    requires dg.Valid() && dg.attempterState.Unbuilt? && dg.conn.NilConn?
    modifies dg
    ensures first == Some(NoConnection) && second == first
    ensures dg.conn == c
  {
    var s1, e1 := dg.GetAttempterState();
    first := e1;
    var _ := dg.SetConn(c);
    var s2, e2 := dg.GetAttempterState();
    second := e2;
  }

  /** The Stopping state keeps the connection of its first request, whatever
      `SetConn` installs afterwards. */
  method StoppingKeepsFirstConnection(dg: DepGraph, c: Conn) returns (first: Option<AutomataState>, second: Option<AutomataState>)
    requires dg.Valid() && dg.stoppingState.Unbuilt?
    modifies dg
    ensures first == Some(StoppingState(old(dg.conn))) && second == first
    ensures dg.conn == c
  {
    var e;
    first, e := dg.GetStoppingState();
    var _ := dg.SetConn(c);
    second, e := dg.GetStoppingState();
  }
}
