/** The election states, one variant per state package, each carrying the
    fields its `Run` reads, and the outcome of running one. */
module States {
  import opened Wrappers
  import opened Zk
  import opened Config

  datatype StateKind = Empty | Init | Attempter | Leader | Failover | Stopping

  /** An `AutomataState`. `Option<AutomataState>` stands for the interface
      value, whose `None` is Go's nil. */
  datatype AutomataState =
    | EmptyState
    | InitState
    | AttempterState(conn: Conn)
    | LeaderState(config: Config)
    | FailoverState
    | StoppingState(conn: Conn)
  {
    function Kind(): StateKind
    {
      match this
      case EmptyState => Empty
      case InitState => Init
      case AttempterState(_) => Attempter
      case LeaderState(_) => Leader
      case FailoverState => Failover
      case StoppingState(_) => Stopping
    }

    /** What the state's `String()` method returns. */
    function Name(): string
    {
      match this
      case EmptyState => "EmptyState"
      case InitState => "InitState"
      case AttempterState(_) => "Attempter"
      case LeaderState(_) => "Leader"
      case FailoverState => "Failover"
      case StoppingState(_) => "Stopping"
    }
  }

  /** How a call of `Run(ctx)` ends: it returns a successor and an error, the
      Go runtime panics, or it is still waiting when the supplied events run
      out (the Go code would wait for further events). */
  datatype StepResult =
    | Returned(next: Option<AutomataState>, err: Option<Error>)
    | Panicked(reason: string)
    | Blocked

  const NilDereference: string := "invalid memory address or nil pointer dereference"
  const IndexOutOfRange: string := "index out of range"
  const SliceOutOfRange: string := "slice bounds out of range"
}
