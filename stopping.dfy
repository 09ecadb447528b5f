/** The terminal state: closes the connection it was built with, if any. */
module Stopping {
  import opened Wrappers
  import opened Zk
  import opened States

  const StoppedGracefully: Error := Msg("stopping state: application stopped gracefully")

  /** `Run` closes a non-nil connection exactly once, touches nothing for a
      nil one, and always returns no successor with the shutdown error. */
  method Run(conn: Conn) returns (r: StepResult, calls: seq<Call>)
    ensures r == Returned(None, Some(StoppedGracefully))
    ensures calls == if conn.NilConn? then [] else [Close(conn)]
  {
    calls := [];
    if conn != NilConn {
      calls := calls + [Close(conn)];
    }
    r := Returned(None, Some(StoppedGracefully));
  }
}
