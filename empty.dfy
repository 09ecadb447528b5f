/** The placeholder state: it does nothing and ends the state machine. */
module Empty {
  import opened Wrappers
  import opened States

  /** `Run` logs a message and returns no successor and a nil error. */
  function Run(): (r: StepResult)
    ensures r.Returned? && r.next.None? && r.err.None?
  {
    Returned(None, None)
  }
}
