/** The Failover state: up to five reconnection attempts on a fixed delay
    schedule. As written, only a Connect reply that carries BOTH a
    connection and an error counts as recovery, and the usual success reply
    (a connection and no error) makes the failure log dereference the nil
    error. */
module Failover {
  import opened Wrappers
  import opened Zk
  import opened States
  import opened Depgraph

  /** The delays before the attempts, in seconds. */
  const RetryIntervals: seq<int> := [0, 1, 2, 5, 10]

  /** What the `select` of attempt `i` sees: the context done, or the delay
      elapsed followed by the reply of `zk.Connect`. */
  datatype FailoverEvent = Cancelled | Elapsed(reply: ConnectReply)

  /** The test `conn != nil && err != nil` of the source. */
  predicate Recovered(reply: ConnectReply)
  {
    reply.conn != NilConn && reply.err.Some?
  }

  /** A reply that is logged as a failure and followed by the next attempt. */
  predicate Retried(reply: ConnectReply)
  {
    !Recovered(reply) && reply.err.Some?
  }

  /** How the loop ends, before the factory is asked for the successor. */
  datatype Outcome = ToStopping | ToInit | Crashed(reason: string) | StillWaiting

  /** Attempts `i + 1` onwards: the outcome, the timer and dial calls made,
      and the attempt numbers logged. */
  function Recovery(events: seq<FailoverEvent>, i: nat): (r: (Outcome, seq<Call>, seq<int>))
    requires i <= |RetryIntervals|
    ensures i + |r.2| <= |RetryIntervals| && |r.1| == 2 * |r.2|
    decreases |RetryIntervals| - i
  {
    if i == |RetryIntervals| then (ToStopping, [], [])
    else if i >= |events| then (StillWaiting, [], [])
    else match events[i]
      case Cancelled => (ToStopping, [], [])
      case Elapsed(reply) =>
        var attempt := [Timer(RetryIntervals[i]), Connect(DialTimeout)];
        if Recovered(reply) then (ToInit, attempt, [i + 1])
        else if reply.err.None? then (Crashed(NilDereference), attempt, [i + 1])
        else
          var (outcome, calls, attempts) := Recovery(events, i + 1);
          (outcome, attempt + calls, [i + 1] + attempts)
  }

  /** The `for ... range retryIntervals` loop up to the factory call. */
  method Decide(events: seq<FailoverEvent>) returns (outcome: Outcome, calls: seq<Call>, attempts: seq<int>)
    ensures (outcome, calls, attempts) == Recovery(events, 0)
  {
    calls, attempts := [], [];
    assert calls + Recovery(events, 0).1 == Recovery(events, 0).1;
    assert attempts + Recovery(events, 0).2 == Recovery(events, 0).2;
    for i := 0 to |RetryIntervals|
      invariant Recovery(events, 0) ==
                  (Recovery(events, i).0, calls + Recovery(events, i).1, attempts + Recovery(events, i).2)
    {
      if i >= |events| {
        assert calls + [] == calls && attempts + [] == attempts;
        return StillWaiting, calls, attempts;
      }
      match events[i]
      case Cancelled =>
        assert calls + [] == calls && attempts + [] == attempts;
        return ToStopping, calls, attempts;
      case Elapsed(reply) =>
        var attempt := [Timer(RetryIntervals[i]), Connect(DialTimeout)];
        ghost var later := Recovery(events, i + 1);
        assert (calls + attempt) + later.1 == calls + (attempt + later.1);
        assert (attempts + [i + 1]) + later.2 == attempts + ([i + 1] + later.2);
        attempts := attempts + [i + 1];
        calls := calls + attempt;
        if reply.conn != NilConn && reply.err.Some? {
          return ToInit, calls, attempts;
        }
        if reply.err.None? {
          // the failure log calls `err.Error()` on a nil error
          return Crashed(NilDereference), calls, attempts;
        }
    }
    assert calls + [] == calls && attempts + [] == attempts;
    outcome := ToStopping;
  }

  /** The value `Run` returns for an outcome, given the state the Stopping
      getter hands out. */
  function Successor(o: Outcome, stop: AutomataState): StepResult
  {
    match o
    case ToStopping => Returned(Some(stop), None)
    case ToInit => Returned(Some(InitState), None)
    case Crashed(reason) => Panicked(reason)
    case StillWaiting => Blocked
  }

  /** `Run`: the loop, then the factory getter its outcome names. The new
      connection is dropped: the resource graph's connection stays as it was. */
  method Run(dg: DepGraph, events: seq<FailoverEvent>) returns (r: StepResult, calls: seq<Call>)
    requires dg.Valid()
    modifies dg
    ensures dg.Valid()
    ensures calls == Recovery(events, 0).1
    ensures r == Successor(Recovery(events, 0).0, old(dg.StoppingNext()))
    ensures dg.conn == old(dg.conn) && dg.StoppingNext() == old(dg.StoppingNext())
  {
    var outcome, attempts;
    outcome, calls, attempts := Decide(events);
    match outcome
    case ToStopping =>
      var s, err := dg.GetStoppingState();
      r := Returned(s, err);
    case ToInit =>
      var s, err := dg.GetInitState();
      match err {
        case Some(_) =>
          // the Init getter never fails, so its Stopping fallback is dead
          assert false;
        case None =>
          r := Returned(s, None);
      }
    case Crashed(reason) =>
      r := Panicked(reason);
    case StillWaiting =>
      r := Blocked;
  }

  // ----- what the schedule guarantees -----

  /** Attempts are numbered on from `i + 1`; each waits its own delay, in
      schedule order, and then dials with the ten second timeout. */
  lemma {:induction false} ScheduleFollowed(events: seq<FailoverEvent>, i: nat)
    requires i <= |RetryIntervals|
    ensures forall k :: 0 <= k < |Recovery(events, i).2| ==> Recovery(events, i).2[k] == i + k + 1
    ensures forall k :: 0 <= k < |Recovery(events, i).2| ==>
              Recovery(events, i).1[2 * k] == Timer(RetryIntervals[i + k]) &&
              Recovery(events, i).1[2 * k + 1] == Connect(DialTimeout)
    decreases |RetryIntervals| - i
  {
    var r := Recovery(events, i);
    if i < |RetryIntervals| && i < |events| && events[i].Elapsed? {
      if Retried(events[i].reply) {
        RetriedAttempt(events, i);
        ScheduleFollowed(events, i + 1);
        var later := Recovery(events, i + 1);
        ScheduleCons(later.1, later.2, i);
      } else {
        assert r.1 == [Timer(RetryIntervals[i]), Connect(DialTimeout)] && r.2 == [i + 1];
      }
    } else {
      assert r.2 == [];
    }
  }

  /** One more failed attempt in front of a schedule followed from `i + 1`
      gives a schedule followed from `i`. */
  lemma ScheduleCons(calls: seq<Call>, attempts: seq<int>, i: nat)
    requires i < |RetryIntervals| && i + 1 + |attempts| <= |RetryIntervals| && |calls| == 2 * |attempts|
    requires forall k :: 0 <= k < |attempts| ==> attempts[k] == i + k + 2
    requires forall k :: 0 <= k < |attempts| ==>
               calls[2 * k] == Timer(RetryIntervals[i + 1 + k]) && calls[2 * k + 1] == Connect(DialTimeout)
    ensures var c, a := [Timer(RetryIntervals[i]), Connect(DialTimeout)] + calls, [i + 1] + attempts;
            (forall k :: 0 <= k < |a| ==> a[k] == i + k + 1) &&
            (forall k :: 0 <= k < |a| ==> c[2 * k] == Timer(RetryIntervals[i + k]) && c[2 * k + 1] == Connect(DialTimeout))
  {
    var c, a := [Timer(RetryIntervals[i]), Connect(DialTimeout)] + calls, [i + 1] + attempts;
    forall k | 0 < k < |a|
      ensures a[k] == i + k + 1
      ensures c[2 * k] == Timer(RetryIntervals[i + k]) && c[2 * k + 1] == Connect(DialTimeout)
    {
      assert a[k] == attempts[k - 1];
      assert c[2 * k] == calls[2 * (k - 1)];
      assert c[2 * k + 1] == calls[2 * (k - 1) + 1];
    }
  }

  /** Why the loop ended: every attempt but the last was a logged failure,
      and the last attempt, the cancellation or the exhausted schedule
      explains the outcome. */
  lemma {:induction false} OutcomeExplained(events: seq<FailoverEvent>, i: nat)
    requires i <= |RetryIntervals|
    ensures var r := Recovery(events, i);
            var n := i + |r.2|;
            (forall j :: i <= j < n - 1 ==> j < |events| && events[j].Elapsed? && Retried(events[j].reply)) &&
            (r.0 == ToInit ==> n > i && events[n - 1].Elapsed? && Recovered(events[n - 1].reply)) &&
            (r.0.Crashed? ==> n > i && events[n - 1].Elapsed? && events[n - 1].reply.err.None? &&
                              r.0.reason == NilDereference) &&
            (r.0 == StillWaiting ==> |events| <= n < |RetryIntervals|) &&
            (r.0 == ToStopping ==>
               (n == |RetryIntervals| && (n == i || Retried(events[n - 1].reply))) ||
               (n < |events| && events[n] == Cancelled))
    decreases |RetryIntervals| - i
  {
    if i < |RetryIntervals| && i < |events| && events[i].Elapsed? && Retried(events[i].reply) {
      OutcomeExplained(events, i + 1);
    }
  }

  /** Failed attempts from `i + 1` to the last one lead to the Stopping
      state, and every one of them is logged. */
  lemma {:induction false} ExhaustedFrom(events: seq<FailoverEvent>, i: nat)
    requires i <= |RetryIntervals| <= |events|
    requires forall k :: i <= k < |RetryIntervals| ==> events[k].Elapsed? && Retried(events[k].reply)
    ensures Recovery(events, i).0 == ToStopping
    ensures Recovery(events, i).2 == NumbersFrom(i)
    decreases |RetryIntervals| - i
  {
    if i < |RetryIntervals| {
      ExhaustedFrom(events, i + 1);
      RetriedAttempt(events, i);
    }
  }

  /** Five failed attempts lead to the Stopping state, with all five
      attempts logged. */
  lemma ExhaustionStops(events: seq<FailoverEvent>)
    requires |events| >= |RetryIntervals|
    requires forall k :: 0 <= k < |RetryIntervals| ==> events[k].Elapsed? && Retried(events[k].reply)
    ensures Recovery(events, 0).0 == ToStopping
    ensures Recovery(events, 0).2 == [1, 2, 3, 4, 5]
  {
    ExhaustedFrom(events, 0);
    AllNumbers();
  }

  /** The attempt numbers `i + 1` to the last. */
  function NumbersFrom(i: nat): seq<int>
    requires i <= |RetryIntervals|
    decreases |RetryIntervals| - i
  {
    if i == |RetryIntervals| then [] else [i + 1] + NumbersFrom(i + 1)
  }

  /** All the attempt numbers, written out. */
  lemma AllNumbers()
    ensures NumbersFrom(0) == [1, 2, 3, 4, 5]
  {
  }

  /** The timer and dial calls of attempts `i + 1` to the last. */
  function ScheduleFrom(i: nat): seq<Call>
    requires i <= |RetryIntervals|
    decreases |RetryIntervals| - i
  {
    if i == |RetryIntervals| then []
    else [Timer(RetryIntervals[i]), Connect(DialTimeout)] + ScheduleFrom(i + 1)
  }

  /** Failed attempts from `i + 1` to the last make exactly the remaining
      timer and dial calls of the schedule. */
  lemma {:induction false} ExhaustedCalls(events: seq<FailoverEvent>, i: nat)
    requires i <= |RetryIntervals| <= |events|
    requires forall k :: i <= k < |RetryIntervals| ==> events[k].Elapsed? && Retried(events[k].reply)
    ensures Recovery(events, i).1 == ScheduleFrom(i)
    decreases |RetryIntervals| - i
  {
    if i < |RetryIntervals| {
      ExhaustedCalls(events, i + 1);
      RetriedAttempt(events, i);
    }
  }

  /** The five failed attempts wait 0, 1, 2, 5 and 10 seconds, each followed
      by a dial with the ten second timeout. */
  lemma ExhaustionWaitsFullSchedule(events: seq<FailoverEvent>)
    requires |events| >= |RetryIntervals|
    requires forall k :: 0 <= k < |RetryIntervals| ==> events[k].Elapsed? && Retried(events[k].reply)
    ensures Recovery(events, 0).1 ==
              [Timer(0), Connect(DialTimeout), Timer(1), Connect(DialTimeout), Timer(2), Connect(DialTimeout),
               Timer(5), Connect(DialTimeout), Timer(10), Connect(DialTimeout)]
  {
    ExhaustedCalls(events, 0);
    FullSchedule();
  }

  /** The whole schedule, written out. */
  lemma FullSchedule()
    ensures ScheduleFrom(0) ==
              [Timer(0), Connect(DialTimeout), Timer(1), Connect(DialTimeout), Timer(2), Connect(DialTimeout),
               Timer(5), Connect(DialTimeout), Timer(10), Connect(DialTimeout)]
  {
  }

  /** One logged failure: its timer and dial precede the later attempts. */
  lemma RetriedAttempt(events: seq<FailoverEvent>, i: nat)
    requires i < |RetryIntervals| && i < |events|
    requires events[i].Elapsed? && Retried(events[i].reply)
    ensures Recovery(events, i).0 == Recovery(events, i + 1).0
    ensures Recovery(events, i).1 == [Timer(RetryIntervals[i]), Connect(DialTimeout)] + Recovery(events, i + 1).1
    ensures Recovery(events, i).2 == [i + 1] + Recovery(events, i + 1).2
  {
  }

  /** A cancellation during the wait before attempt `j + 1`, after `j - i`
      logged failures, ends the state in Stopping with those attempts made. */
  lemma {:induction false} CancelledBackoffStops(events: seq<FailoverEvent>, i: nat, j: nat)
    requires i <= j < |RetryIntervals| && j < |events|
    requires forall k :: i <= k < j ==> events[k].Elapsed? && Retried(events[k].reply)
    requires events[j] == Cancelled
    ensures Recovery(events, i).0 == ToStopping
    ensures |Recovery(events, i).2| == j - i
    decreases j - i
  {
    if i < j {
      RetriedAttempt(events, i);
      CancelledBackoffStops(events, i + 1, j);
    }
  }

  /** The ordinary success reply of `zk.Connect` (a connection, no error)
      ends the state in a panic instead of recovery. */
  lemma SuccessfulConnectPanics(events: seq<FailoverEvent>, id: nat)
    requires |events| > 0 && events[0] == Elapsed(ConnectReply(Session(id), None))
    ensures Recovery(events, 0) == (Crashed(NilDereference), [Timer(0), Connect(DialTimeout)], [1])
  {
    assert !Recovered(events[0].reply);
  }

  /** The loop reaches Init exactly when the first attempt that is not a
      logged failure is answered with both a connection and an error. */
  lemma {:induction false} InitOnlyOnConnectionWithError(events: seq<FailoverEvent>, i: nat, j: nat)
    requires i <= j < |RetryIntervals| && j < |events|
    requires forall k :: i <= k < j ==> events[k].Elapsed? && Retried(events[k].reply)
    requires !(events[j].Elapsed? && Retried(events[j].reply))
    ensures Recovery(events, i).0 == ToInit <==> events[j].Elapsed? && Recovered(events[j].reply)
    decreases j - i
  {
    if i < j {
      assert Recovery(events, i).0 == Recovery(events, i + 1).0;
      InitOnlyOnConnectionWithError(events, i + 1, j);
    }
  }
}
