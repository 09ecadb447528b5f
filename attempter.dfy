/** The Attempter state: it joins the election with an ephemeral sequential
    znode under `/election`, then every five seconds lists the candidates,
    orders them by the sequence suffix after `guid-n_`, becomes Leader when
    its own znode is first, and otherwise watches the znode that
    `sort.SearchStrings` names as its predecessor. */
module Attempter {
  import opened Wrappers
  import opened Zk
  import opened Text
  import opened Sorting
  import opened Config
  import opened States
  import opened Depgraph

  const Marker := "guid-n_"
  const NodePrefix := ElectionPath + "/" + Marker
  /** The fixed poll delay in seconds; the configured attempter timeout is
      not used. */
  const PollSeconds := 5

  /** The reply of `CreateProtectedEphemeralSequential`: the created path. */
  datatype CreateReply = CreateReply(path: string, err: Option<Error>)
  /** The reply of `Children(/election)`: the child names. */
  datatype ChildrenReply = ChildrenReply(children: seq<string>, err: Option<Error>)
  /** What happens to a watch: `ExistsW` fails, or its event fires, or it
      never fires while the model looks. */
  datatype WatchReply = WatchFailed(err: Error) | WatchFired | WatchPending
  /** What one turn of the loop sees: a cancelled context, or the five
      second timer followed by the listing and, if a watch is set, its fate. */
  datatype AttemptEvent = Cancelled | Polled(listing: ChildrenReply, watch: WatchReply)

  // ----- the sort key and the order of candidates -----

  /** The child carries the `guid-n_` marker. */
  predicate Marked(child: string)
  {
    Index(child, Marker) != -1
  }

  /** `strings.Split(child, "guid-n_")[1]` for a marked child; an unmarked
      child makes the comparison panic, so its key is never used. */
  function SortKey(child: string): (k: string)
    ensures Marked(child) ==> Index(k, Marker) == -1
  {
    match SplitField1(child, Marker)
    case Some(field) => field
    case None => ""
  }

  /** The comparison handed to `sort.SliceStable`. */
  predicate BySuffix(a: string, b: string)
  {
    Less(SortKey(a), SortKey(b))
  }

  lemma BySuffixIsStrictWeakOrder()
    ensures StrictWeakOrder(BySuffix)
  {
    forall x, y, z | BySuffix(x, z)
      ensures BySuffix(x, y) || BySuffix(y, z)
    {
      if !BySuffix(x, y) {
        LessMixed(SortKey(y), SortKey(x), SortKey(z));
      }
    }
    forall x, y, z | BySuffix(x, y) && BySuffix(y, z)
      ensures BySuffix(x, z)
    {
      LessTransitive(SortKey(x), SortKey(y), SortKey(z));
    }
    forall x
      ensures !BySuffix(x, x)
    {
      LessIrreflexive(SortKey(x));
    }
  }

  /** `sort.SliceStable` compares every element of a list of two or more,
      so it panics when any of them lacks the marker. */
  predicate SortPanics(children: seq<string>)
  {
    |children| >= 2 && exists c :: c in children && !Marked(c)
  }

  /** The children after the stable sort by suffix. */
  function SortedChildren(children: seq<string>): seq<string>
  {
    InsertionSort(children, BySuffix)
  }

  // ----- sort.SearchStrings -----

  /** The binary search of `sort.Search` over `a[i..j]` for the first
      element that is not below `x`. */
  function SearchFrom(a: seq<string>, x: string, i: nat, j: nat): (r: nat)
    requires i <= j <= |a|
    ensures i <= r <= j
    ensures r == i || Less(a[r - 1], x)
    ensures r == j || !Less(a[r], x)
    decreases j - i
  {
    if i >= j then i
    else
      var h := (i + j) / 2;
      if Less(a[h], x) then SearchFrom(a, x, h + 1, j) else SearchFrom(a, x, i, h)
  }

  /** `sort.SearchStrings(a, x)`. On any list, the element before the
      result is below `x` and the element at it is not. */
  function SearchStrings(a: seq<string>, x: string): (r: nat)
    ensures r <= |a|
    ensures r == 0 || Less(a[r - 1], x)
    ensures r == |a| || !Less(a[r], x)
  {
    SearchFrom(a, x, 0, |a|)
  }

  /** The list is in ascending string order. */
  ghost predicate Ascending(a: seq<string>)
  {
    forall p, q :: 0 <= p < q < |a| ==> !Less(a[q], a[p])
  }

  lemma {:induction false} SearchFromSplits(a: seq<string>, x: string, i: nat, j: nat)
    requires i <= j <= |a| && Ascending(a)
    requires forall p :: 0 <= p < i ==> Less(a[p], x)
    requires forall p :: j <= p < |a| ==> !Less(a[p], x)
    ensures forall p :: 0 <= p < |a| ==> (p < SearchFrom(a, x, i, j) <==> Less(a[p], x))
    decreases j - i
  {
    if i < j {
      var h := (i + j) / 2;
      if Less(a[h], x) {
        forall p | 0 <= p <= h
          ensures Less(a[p], x)
        {
          if p < h {
            LessMixed(a[p], a[h], x);
          }
        }
        SearchFromSplits(a, x, h + 1, j);
      } else {
        forall p | h <= p < |a|
          ensures !Less(a[p], x)
        {
          if p > h {
            NotLessTransitive(x, a[h], a[p]);
          }
        }
        SearchFromSplits(a, x, i, h);
      }
    }
  }

  /** On an ascending list `sort.SearchStrings` is the lower bound: exactly
      the elements before the result are below `x`. */
  lemma SearchStringsIsLowerBound(a: seq<string>, x: string)
    requires Ascending(a)
    ensures forall p :: 0 <= p < |a| ==> (p < SearchStrings(a, x) <==> Less(a[p], x))
  {
    SearchFromSplits(a, x, 0, |a|);
  }

  // ----- one evaluation of the candidate list -----

  /** What a sorted listing means for the node that owns `znode`. */
  datatype Verdict = Lead | Watch(predecessor: string) | Unwatched | Crash(reason: string)

  /** The leader test and the predecessor search on a listing already sorted
      by suffix. */
  function Evaluate(znode: string, sorted: seq<string>): (v: Verdict)
    ensures v == Lead <==> |sorted| > 0 && znode == ElectionPath + "/" + sorted[0]
    ensures v == Crash(IndexOutOfRange) <==> |sorted| == 0
    ensures v == Crash(SliceOutOfRange) <==>
              |sorted| > 0 && znode != ElectionPath + "/" + sorted[0] && |znode| <= |ElectionPath|
    ensures v.Watch? ==> v.predecessor in sorted && Less(v.predecessor, znode[|ElectionPath| + 1..])
    ensures v.Unwatched? ==> |sorted| > 0 && !Less(sorted[0], znode[|ElectionPath| + 1..])
    // past the leader test, the search index alone decides the watch
    ensures v != Lead && !v.Crash? ==>
              |znode| > |ElectionPath| &&
              (v.Unwatched? <==> SearchStrings(sorted, znode[|ElectionPath| + 1..]) == 0)
    ensures v.Watch? ==>
              0 < SearchStrings(sorted, znode[|ElectionPath| + 1..]) &&
              v.predecessor == sorted[SearchStrings(sorted, znode[|ElectionPath| + 1..]) - 1]
  {
    if |sorted| == 0 then Crash(IndexOutOfRange)
    else if znode == ElectionPath + "/" + sorted[0] then Lead
    else if |znode| < |ElectionPath| + 1 then Crash(SliceOutOfRange)
    else
      var index := SearchStrings(sorted, znode[|ElectionPath| + 1..]);
      if index > 0 then Watch(sorted[index - 1]) else Unwatched
  }

  // ----- the retry loop -----

  /** How the Attempter's loop ends. */
  datatype Decision = ToFailover | ToStopping | ToLeader | Crashed(reason: string) | StillWaiting

  /** The outcome of one timer turn: go round again, or finish. */
  datatype Turn = Again | Finish(decision: Decision)

  /** One timer turn of the loop and the calls it makes. */
  function PollOnce(znode: string, listing: ChildrenReply, watch: WatchReply): (r: (Turn, seq<Call>))
    ensures |r.1| >= 2 && r.1[..2] == [Timer(PollSeconds), Children(ElectionPath)]
    ensures r.0 == Finish(ToLeader) <==>
              listing.err.None? && !SortPanics(listing.children) &&
              Evaluate(znode, SortedChildren(listing.children)) == Lead
    ensures listing.err.Some? ==> r == (Again, [Timer(PollSeconds), Children(ElectionPath)])
    // a watch is set on the predecessor; a failed watch is only logged
    ensures listing.err.None? && !SortPanics(listing.children) &&
            Evaluate(znode, SortedChildren(listing.children)).Watch? ==>
              r.1 == [Timer(PollSeconds), Children(ElectionPath),
                      ExistsW(ElectionPath + "/" + Evaluate(znode, SortedChildren(listing.children)).predecessor)] &&
              (watch.WatchFailed? ==> r.0 == Again) &&
              (watch.WatchFired? ==> r.0 == Again) &&
              (watch.WatchPending? ==> r.0 == Finish(StillWaiting))
    // every child must carry the marker once there are two to compare
    ensures listing.err.None? && SortPanics(listing.children) ==>
              r == (Finish(Crashed(IndexOutOfRange)), [Timer(PollSeconds), Children(ElectionPath)])
    // no watch at index 0: go round again without an `ExistsW`
    ensures listing.err.None? && !SortPanics(listing.children) &&
            Evaluate(znode, SortedChildren(listing.children)).Unwatched? ==>
              r == (Again, [Timer(PollSeconds), Children(ElectionPath)])
    ensures listing.err.None? && !SortPanics(listing.children) &&
            Evaluate(znode, SortedChildren(listing.children)).Crash? ==>
              r.0 == Finish(Crashed(Evaluate(znode, SortedChildren(listing.children)).reason))
    ensures r.0 != Finish(ToFailover) && r.0 != Finish(ToStopping)
  {
    var polled := [Timer(PollSeconds), Children(ElectionPath)];
    if listing.err.Some? then (Again, polled)
    else if SortPanics(listing.children) then (Finish(Crashed(IndexOutOfRange)), polled)
    else match Evaluate(znode, SortedChildren(listing.children))
      case Lead => (Finish(ToLeader), polled)
      case Crash(reason) => (Finish(Crashed(reason)), polled)
      case Unwatched => (Again, polled)
      case Watch(previous) =>
        var watched := polled + [ExistsW(ElectionPath + "/" + previous)];
        match watch
        case WatchFailed(_) => (Again, watched)
        case WatchFired => (Again, watched)
        case WatchPending => (Finish(StillWaiting), watched)
  }

  /** The loop after the znode is created, over the events it sees. */
  function Polls(znode: string, events: seq<AttemptEvent>): (r: (Decision, seq<Call>))
    ensures r.0 != ToFailover
    ensures |events| == 0 ==> r == (StillWaiting, [])
    // a cancelled context hands over to Stopping before any further call
    ensures |events| > 0 && events[0] == Cancelled ==> r == (ToStopping, [])
    decreases |events|
  {
    if |events| == 0 then (StillWaiting, [])
    else match events[0]
      case Cancelled => (ToStopping, [])
      case Polled(listing, watch) =>
        var (turn, calls) := PollOnce(znode, listing, watch);
        if turn.Finish? then (turn.decision, calls)
        else
          var (decision, later) := Polls(znode, events[1..]);
          (decision, calls + later)
  }

  /** A turn that goes round again (a listing error, no watch at index 0,
      a failed or fired watch) leaves the loop to the next event. */
  lemma PollsContinue(znode: string, events: seq<AttemptEvent>)
    requires |events| > 0 && events[0].Polled?
    requires PollOnce(znode, events[0].listing, events[0].watch).0 == Again
    ensures Polls(znode, events) ==
              (Polls(znode, events[1..]).0,
               PollOnce(znode, events[0].listing, events[0].watch).1 + Polls(znode, events[1..]).1)
  {
  }

  /** A cancellation after `k` turns that all went round again yields
      Stopping, whatever those turns saw. */
  lemma {:induction false} CancelledAfterRetriesStops(znode: string, events: seq<AttemptEvent>, k: nat)
    requires k < |events| && events[k] == Cancelled
    requires forall j :: 0 <= j < k ==> events[j].Polled? && PollOnce(znode, events[j].listing, events[j].watch).0 == Again
    ensures Polls(znode, events).0 == ToStopping
    decreases k
  {
    if k > 0 {
      PollsContinue(znode, events);
      CancelledAfterRetriesStops(znode, events[1..], k - 1);
    }
  }

  /** The whole of `Run` up to the factory call: its decision and calls. */
  function Attempt(create: CreateReply, events: seq<AttemptEvent>): (r: (Decision, seq<Call>))
    ensures |r.1| > 0 && r.1[0] == CreateProtectedEphemeralSequential(NodePrefix)
    ensures r.0 == ToFailover <==> create.err.Some?
    ensures create.err.Some? ==> |r.1| == 1
    ensures create.err.None? && |events| > 0 && events[0] == Cancelled ==>
              r == (ToStopping, [CreateProtectedEphemeralSequential(NodePrefix)])
  {
    var created := [CreateProtectedEphemeralSequential(NodePrefix)];
    if create.err.Some? then (ToFailover, created)
    else
      var (decision, later) := Polls(create.path, events);
      assert created + [] == created;
      (decision, created + later)
  }

  /** One `time.After` case of the loop: list, sort in place, test, and
      set a watch on the predecessor. */
  method Poll(znode: string, listing: ChildrenReply, watch: WatchReply) returns (turn: Turn, calls: seq<Call>)
    ensures (turn, calls) == PollOnce(znode, listing, watch)
  {
    calls := [Timer(PollSeconds), Children(ElectionPath)];
    if listing.err.Some? {
      return Again, calls;
    }
    var children := listing.children;
    if SortPanics(children) {
      return Finish(Crashed(IndexOutOfRange)), calls;
    }
    var a := new string[|children|](k requires 0 <= k < |children| => children[k]);
    assert a[..] == children;
    SortInPlace(a, BySuffix);
    var sorted := a[..];
    match Evaluate(znode, sorted)
    case Lead =>
      return Finish(ToLeader), calls;
    case Crash(reason) =>
      return Finish(Crashed(reason)), calls;
    case Unwatched =>
      return Again, calls;
    case Watch(previous) =>
      calls := calls + [ExistsW(ElectionPath + "/" + previous)];
      turn := if watch.WatchPending? then Finish(StillWaiting) else Again;
  }

  /** `Run` up to the factory call. */
  method Decide(create: CreateReply, events: seq<AttemptEvent>) returns (d: Decision, calls: seq<Call>)
    ensures (d, calls) == Attempt(create, events)
  {
    calls := [CreateProtectedEphemeralSequential(NodePrefix)];
    if create.err.Some? {
      return ToFailover, calls;
    }
    var znode := create.path;
    var i := 0;
    while i < |events|
      invariant 0 <= i <= |events|
      invariant Attempt(create, events) == (Polls(znode, events[i..]).0, calls + Polls(znode, events[i..]).1)
    {
      var done;
      done, d, calls := Round(znode, events, i, calls);
      if done {
        return;
      }
      i := i + 1;
    }
    assert events[i..] == [] && calls + [] == calls;
    d := StillWaiting;
  }

  /** One turn of the loop in `Decide`: it either finishes with what the
      rest of the loop decides, or leaves the rest to the next turn. */
  method Round(znode: string, events: seq<AttemptEvent>, i: nat, calls: seq<Call>)
    returns (done: bool, d: Decision, after: seq<Call>)
    requires i < |events|
    ensures done ==> (d, after) == (Polls(znode, events[i..]).0, calls + Polls(znode, events[i..]).1)
    ensures !done ==> (Polls(znode, events[i..]).0, calls + Polls(znode, events[i..]).1) ==
                      (Polls(znode, events[i + 1..]).0, after + Polls(znode, events[i + 1..]).1)
  {
    assert events[i..][0] == events[i] && events[i..][1..] == events[i + 1..];
    match events[i]
    case Cancelled =>
      assert calls + [] == calls;
      return true, ToStopping, calls;
    case Polled(listing, watch) =>
      var turn, more := Poll(znode, listing, watch);
      ghost var later := Polls(znode, events[i + 1..]).1;
      assert (calls + more) + later == calls + (more + later);
      after := calls + more;
      if turn.Finish? {
        return true, turn.decision, after;
      }
      done, d := false, StillWaiting;
  }

  /** The value `Run` returns for a decision, given the state the Stopping
      getter hands out and the configuration the Leader getter uses. */
  function Successor(d: Decision, stop: AutomataState, config: Config): StepResult
  {
    match d
    case ToFailover => Returned(Some(FailoverState), None)
    case ToStopping => Returned(Some(stop), None)
    case ToLeader => Returned(Some(LeaderState(config)), None)
    case Crashed(reason) => Panicked(reason)
    case StillWaiting => Blocked
  }

  /** `Run`: the decision, then the factory getter it names. */
  method Run(dg: DepGraph, create: CreateReply, events: seq<AttemptEvent>) returns (r: StepResult, calls: seq<Call>)
    requires dg.Valid()
    modifies dg
    ensures dg.Valid()
    ensures calls == Attempt(create, events).1
    ensures r == Successor(Attempt(create, events).0, old(dg.StoppingNext()), dg.config)
    ensures dg.conn == old(dg.conn) && dg.StoppingNext() == old(dg.StoppingNext())
    ensures r.Returned? ==> r.err.None? && r.next.Some? && r.next.value.Kind() in {Failover, Stopping, Leader}
  {
    var d;
    d, calls := Decide(create, events);
    match d
    case ToFailover =>
      var s, err := dg.GetFailoverState();
      r := Returned(s, err);
    case ToStopping =>
      var s, err := dg.GetStoppingState();
      r := Returned(s, err);
    case ToLeader =>
      var s, err := dg.GetLeaderState();
      r := Returned(s, err);
    case Crashed(reason) =>
      r := Panicked(reason);
    case StillWaiting =>
      r := Blocked;
  }

  // ----- what the leader test and the predecessor search mean -----

  /** A node that becomes Leader owns a listed child that no other child
      precedes by suffix. */
  lemma LeaderHoldsLeastSuffix(znode: string, children: seq<string>)
    requires Evaluate(znode, SortedChildren(children)) == Lead
    ensures exists c :: c in children && znode == ElectionPath + "/" + c &&
                        forall d :: d in children ==> !Less(SortKey(d), SortKey(c))
  {
    var sorted := SortedChildren(children);
    InsertionSortPermutes(children, BySuffix);
    BySuffixIsStrictWeakOrder();
    InsertionSortSorted(children, BySuffix);
    var c := sorted[0];
    assert c in multiset(children);
    forall d | d in children
      ensures !Less(SortKey(d), SortKey(c))
    {
      assert d in multiset(sorted);
      var q :| 0 <= q < |sorted| && sorted[q] == d;
      if q == 0 {
        LessIrreflexive(SortKey(c));
      }
    }
  }

  /** A node whose child has a suffix strictly below every other child's
      becomes Leader. */
  lemma LeastSuffixLeads(znode: string, children: seq<string>, c: string)
    requires c in children && znode == ElectionPath + "/" + c
    requires forall d :: d in children && d != c ==> Less(SortKey(c), SortKey(d))
    ensures Evaluate(znode, SortedChildren(children)) == Lead
  {
    var sorted := SortedChildren(children);
    InsertionSortPermutes(children, BySuffix);
    BySuffixIsStrictWeakOrder();
    InsertionSortSorted(children, BySuffix);
    assert c in multiset(sorted);
    var q :| 0 <= q < |sorted| && sorted[q] == c;
    assert sorted[0] in multiset(children);
    if q > 0 {
      assert !BySuffix(sorted[q], sorted[0]);
    }
  }

  /** When the suffix order of the listing agrees with the plain string order
      of the names, the watched znode is the one right before the own node. */
  lemma WatchTargetsPredecessor(znode: string, children: seq<string>, p: nat)
    requires p < |SortedChildren(children)| && Ascending(SortedChildren(children))
    requires znode == ElectionPath + "/" + SortedChildren(children)[p]
    requires forall q :: 0 <= q < p ==> SortedChildren(children)[q] != SortedChildren(children)[p]
    ensures Evaluate(znode, SortedChildren(children)) ==
              if p == 0 then Lead else Watch(SortedChildren(children)[p - 1])
  {
    var sorted := SortedChildren(children);
    var own := sorted[p];
    assert znode[|ElectionPath| + 1..] == own;
    if p > 0 {
      assert SearchStrings(sorted, own) == p by {
        SearchStringsIsLowerBound(sorted, own);
        LessIrreflexive(own);
        assert Less(sorted[p - 1], own) by {
          LessTotal(sorted[p - 1], own);
        }
      }
      assert znode != ElectionPath + "/" + sorted[0] by {
        assert sorted[0] != own;
        assert (ElectionPath + "/" + sorted[0])[|ElectionPath| + 1..] == sorted[0];
      }
    }
  }

  /** The key of a child made of a prefix without a `g`, the marker and one
      character is that character. */
  lemma KeyAfterMarker(prefix: string, c: char)
    requires forall j :: 0 <= j < |prefix| ==> prefix[j] != 'g'
    ensures SortKey(prefix + Marker + [c]) == [c]
  {
    var child := prefix + Marker + [c];
    var at := |prefix|;
    assert child[at..at + |Marker|] == Marker;
    assert OccursAt(child, Marker, at);
    forall j | 0 <= j < at
      ensures !OccursAt(child, Marker, j)
    {
      assert child[j..j + |Marker|][0] == prefix[j] != Marker[0];
    }
    assert Index(child, Marker) == at;
    assert child[at + |Marker|..] == [c];
  }

  /** Two protected znodes whose guids sort the other way round from their
      sequence numbers. */
  const EarlierChild: string := "_c_b-" + Marker + "1"
  const LaterChild: string := "_c_a-" + Marker + "2"

  lemma ExampleKeys()
    ensures SortKey(EarlierChild) == "1" && SortKey(LaterChild) == "2"
  {
    KeyAfterMarker("_c_b-", '1');
    KeyAfterMarker("_c_a-", '2');
  }

  lemma ExampleSorted()
    ensures SortedChildren([EarlierChild, LaterChild]) == [EarlierChild, LaterChild]
  {
    ExampleKeys();
    assert !Less("2", "1");
    SortTwo(EarlierChild, LaterChild, BySuffix);
  }

  lemma ExampleSearch()
    ensures SearchStrings([EarlierChild, LaterChild], LaterChild) == 0
  {
    LessIrreflexive(LaterChild);
    var a, b := EarlierChild, LaterChild;
    assert Less(a, b) == Less(a[1..], b[1..]);
    assert Less(a[1..], b[1..]) == Less(a[2..], b[2..]);
    assert Less(a[2..], b[2..]) == Less(a[3..], b[3..]);
    assert !Less(a[3..], b[3..]);
  }

  /** With protected names (`_c_<guid>-guid-n_<sequence>`) the suffix order
      and the name order can disagree, and the search then misses the
      predecessor: here the second node in line sets no watch at all. */
  lemma GuidOrderHidesPredecessor()
    ensures SortedChildren([EarlierChild, LaterChild]) == [EarlierChild, LaterChild]
    ensures Evaluate(ElectionPath + "/" + LaterChild, SortedChildren([EarlierChild, LaterChild])) == Unwatched
  {
    ExampleSorted();
    ExampleSearch();
    var znode := ElectionPath + "/" + LaterChild;
    assert znode[|ElectionPath| + 1..] == LaterChild;
    assert znode != ElectionPath + "/" + EarlierChild by {
      assert znode[13] != (ElectionPath + "/" + EarlierChild)[13];
    }
  }
}
