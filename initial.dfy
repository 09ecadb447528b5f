/** The bootstrap state: connect, make sure the election namespace node
    exists, then hand over to a new Attempter. It builds its successors
    itself rather than through the resource graph, and it never looks at
    the context. */
module Initial {
  import opened Wrappers
  import opened Zk
  import opened States

  /** The replies of the three calls `Run` can make, in call order. */
  datatype InitReplies = InitReplies(connect: ConnectReply, existsReply: ExistsReply, create: Option<Error>)

  const ConnectionFailed: Error := Msg("connection to zookeeper failed")

  /** The result of `Run` and the calls it made. */
  function Run(replies: InitReplies): (r: (StepResult, seq<Call>))
    // the first call is always the dial, and Create only follows a negative Exists
    ensures |r.1| >= 1 && r.1[0] == Connect(DialTimeout)
    ensures Create(ElectionPath) in r.1 ==>
              r.1 == [Connect(DialTimeout), Exists(ElectionPath), Create(ElectionPath)] &&
              replies.existsReply == ExistsReply(false, None)
    // a failure of any call yields a Failover successor with an error
    ensures replies.connect.err.Some? ==> r.0 == Returned(Some(FailoverState), Some(ConnectionFailed))
    ensures replies.connect.err.None? && replies.connect.conn != NilConn && replies.existsReply.err.Some? ==>
              r.0 == Returned(Some(FailoverState), Some(ConnectionFailed))
    ensures Create(ElectionPath) in r.1 && replies.create.Some? ==>
              r.0 == Returned(Some(FailoverState), Some(ConnectionFailed))
    ensures r.0.Returned? ==> r.0.next.Some? && (r.0.err.Some? <==> r.0.next.value == FailoverState)
    ensures r.0.Returned? && r.0.err.Some? ==> r.0.err == Some(ConnectionFailed)
    // success hands the new connection to an Attempter
    ensures r.0.Returned? && r.0.err.None? ==>
              r.0.next == Some(AttempterState(replies.connect.conn)) && replies.connect.conn != NilConn
    ensures r.0.Panicked? <==> replies.connect == ConnectReply(NilConn, None)
    ensures r.0.Panicked? ==> r.0 == Panicked(NilDereference)
    ensures !r.0.Blocked?
  {
    var calls := [Connect(DialTimeout)];
    var conn := replies.connect.conn;
    if replies.connect.err.Some? then
      (Returned(Some(FailoverState), Some(ConnectionFailed)), calls)
    else if conn.NilConn? then
      // `conn.Exists` on a nil connection dereferences it
      (Panicked(NilDereference), calls + [Exists(ElectionPath)])
    else if replies.existsReply.err.Some? then
      (Returned(Some(FailoverState), Some(ConnectionFailed)), calls + [Exists(ElectionPath)])
    else if !replies.existsReply.found then
      var created := calls + [Exists(ElectionPath), Create(ElectionPath)];
      if replies.create.Some? then (Returned(Some(FailoverState), Some(ConnectionFailed)), created)
      else (Returned(Some(AttempterState(conn)), None), created)
    else
      (Returned(Some(AttempterState(conn)), None), calls + [Exists(ElectionPath)])
  }

  /** Bootstrapping over an existing namespace node creates nothing and
      proceeds to the Attempter. */
  lemma ExistingNamespaceIsReused(replies: InitReplies)
    requires replies.connect.err.None? && replies.connect.conn != NilConn
    requires replies.existsReply == ExistsReply(true, None)
    ensures Run(replies).0 == Returned(Some(AttempterState(replies.connect.conn)), None)
    ensures Create(ElectionPath) !in Run(replies).1
  {
  }

  /** A missing namespace node is created exactly once; a Create error sends
      the node to Failover. */
  lemma MissingNamespaceIsCreatedOnce(replies: InitReplies)
    requires replies.connect.err.None? && replies.connect.conn != NilConn
    requires replies.existsReply == ExistsReply(false, None)
    ensures Run(replies).1 == [Connect(DialTimeout), Exists(ElectionPath), Create(ElectionPath)]
    ensures Run(replies).0 == if replies.create.Some? then Returned(Some(FailoverState), Some(ConnectionFailed))
                              else Returned(Some(AttempterState(replies.connect.conn)), None)
  {
  }

  /** No reply leads to the Stopping or Leader state. */
  lemma NeverStops(replies: InitReplies)
    ensures Run(replies).0.Returned? ==> Run(replies).0.next.value.Kind() in {Failover, Attempter}
  {
  }
}
