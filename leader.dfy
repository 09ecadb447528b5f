/** The Leader state: on every tick it writes a heartbeat file into the
    configured directory and then trims the directory to the storage
    capacity by deleting the files with the oldest modification times. */
module Leader {
  import opened Wrappers
  import opened Text
  import opened Sorting
  import opened Fs
  import opened Config
  import opened States
  import opened Depgraph

  const MarkerContent := "Leader active"

  /** The heartbeat file's name for the clock reading `now` (Unix seconds):
      `leader_`, the decimal reading, `.txt`. */
  function MarkerName(now: int): (r: string)
    ensures |r| > 11
    ensures r[..7] == "leader_" && r[|r| - 4..] == ".txt"
    ensures r[7..|r| - 4] == FormatInt(now)
  {
    "leader_" + FormatInt(now) + ".txt"
  }

  /** The heartbeat file a tick at `now` writes. */
  function Heartbeat(now: int): File
  {
    File(MarkerName(now), now, MarkerContent)
  }

  /** The panic of `time.NewTicker` on a non-positive interval. */
  const NonPositiveInterval := "non-positive interval for NewTicker"

  /** Two ticks at different seconds write two different files. */
  lemma MarkerNameInjective(a: int, b: int)
    requires MarkerName(a) == MarkerName(b)
    ensures a == b
  {
    FormatIntInjective(a, b);
  }

  /** `filepath.Join` of the directory and a file name, without path cleaning. */
  function JoinPath(dir: string, name: string): string
  {
    if |dir| == 0 then name else dir + "/" + name
  }

  /** The sort order of the retention pass: earlier modification time first. */
  predicate ModTimeBefore(a: File, b: File)
  {
    a.modTime < b.modTime
  }

  lemma ModTimeBeforeIsStrictWeakOrder()
    ensures StrictWeakOrder(ModTimeBefore)
  {
  }

  /** The filesystem faults of one tick: of the heartbeat write, of the
      directory listing, and of removing each named file. */
  datatype TickFaults = TickFaults(write: Option<Error>, readDir: Option<Error>, remove: map<string, Error>)

  function NoFaults(): TickFaults
  {
    TickFaults(None, None, map[])
  }

  function RemoveFailed(dir: string, name: string, cause: Error): Error
  {
    Wrapped("failed to remove file " + JoinPath(dir, name) + ": ", cause)
  }

  /** How a tick ended: quietly, with a logged error, or in a panic. */
  datatype PassEnd = Kept | Logged(err: Error) | Crashed(reason: string)

  /** The directory after a tick and how the tick ended. */
  datatype Retention = Retention(files: seq<File>, end: PassEnd)

  /** The position in the eviction order where the removal loop stops: the
      first file it cannot remove, `excess` when it removes them all, or the
      end of the listing when it runs past it. */
  function FirstRefused(order: seq<File>, excess: int, remove: map<string, Error>, i: nat): (k: nat)
    requires i <= |order|
    ensures i <= k <= |order|
    ensures i <= excess ==> k <= excess
    ensures forall j :: i <= j < k ==> j < excess && order[j].name !in remove
    ensures k >= excess || k == |order| || order[k].name in remove
    decreases |order| - i
  {
    if i >= excess || i == |order| || order[i].name in remove then i
    else FirstRefused(order, excess, remove, i + 1)
  }

  /** The eviction order: the listing sorted by modification time. */
  function Oldest(files: seq<File>): (r: seq<File>)
    ensures |r| == |files| && multiset(r) == multiset(files)
    ensures Sorted(r, ModTimeBefore)
  {
    InsertionSortPermutes(files, ModTimeBefore);
    ModTimeBeforeIsStrictWeakOrder();
    InsertionSortSorted(files, ModTimeBefore);
    InsertionSort(files, ModTimeBefore)
  }

  /** The removal loop over the eviction order `order`: the files it
      removes before it stops and how it stops. */
  function Evict(files: seq<File>, order: seq<File>, excess: int, dir: string, remove: map<string, Error>): (r: Retention)
    requires |order| == |files| && excess > 0
  {
    var k := FirstRefused(order, excess, remove, 0);
    var left := Without(files, NameSet(order[..k]));
    if k == excess then Retention(left, Kept)
    else if k == |order| then Retention(left, Crashed(IndexOutOfRange))
    else Retention(left, Logged(RemoveFailed(dir, order[k].name, remove[order[k].name])))
  }

  /** `manageFiles`: what remains of `files` and how the pass ended. */
  function RetentionPass(files: seq<File>, dir: string, capacity: int, faults: TickFaults): (r: Retention)
    ensures |r.files| <= |files|
    ensures faults.readDir.Some? ==> r == Retention(files, Logged(Wrapped("failed to read directory: ", faults.readDir.value)))
    // only a directory over capacity is touched
    ensures faults.readDir.None? && |files| <= capacity ==> r == Retention(files, Kept)
    ensures r.end.Crashed? ==> capacity < 0 && r.end.reason == IndexOutOfRange
  {
    if faults.readDir.Some? then
      Retention(files, Logged(Wrapped("failed to read directory: ", faults.readDir.value)))
    else if |files| <= capacity then
      Retention(files, Kept)
    else
      InsertionSortPermutes(files, ModTimeBefore);
      Evict(files, Oldest(files), |files| - capacity, dir, faults.remove)
  }

  /** The pass only removes files. */
  lemma RetentionOnlyRemoves(files: seq<File>, dir: string, capacity: int, faults: TickFaults)
    ensures forall f :: f in RetentionPass(files, dir, capacity, faults).files ==> f in files
  {
    if faults.readDir.None? && |files| > capacity {
      var order := Oldest(files);
      WithoutMembers(files, NameSet(order[..FirstRefused(order, |files| - capacity, faults.remove, 0)]));
    }
  }

  /** One tick: the heartbeat write, then the retention pass unless the write
      failed. */
  function Tick(files: seq<File>, cfg: Config, now: int, faults: TickFaults): (r: Retention)
    ensures faults.write.Some? ==> r == Retention(files, Logged(faults.write.value))
    // a successful write stays even when the listing then fails
    ensures faults.write.None? && faults.readDir.Some? ==>
              r == Retention(Written(files, Heartbeat(now)), Logged(Wrapped("failed to read directory: ", faults.readDir.value)))
    ensures faults.write.None? && faults.readDir.None? && |Written(files, Heartbeat(now))| <= cfg.storageCapacity ==>
              r == Retention(Written(files, Heartbeat(now)), Kept)
    ensures r.end.Crashed? ==> cfg.storageCapacity < 0 && r.end.reason == IndexOutOfRange
  {
    if faults.write.Some? then Retention(files, Logged(faults.write.value))
    else RetentionPass(Written(files, Heartbeat(now)), cfg.fileDir, cfg.storageCapacity, faults)
  }

  /** What the Leader loop sees: a cancelled context or a ticker tick with
      the clock reading and the tick's filesystem faults. */
  datatype LeaderEvent = Cancelled | Ticked(now: int, faults: TickFaults)

  /** How the Leader loop ends: asked to stop, panicked, or still running
      when the events run out. */
  datatype LeaderEnd = StopRequested | Crash(reason: string) | StillLeading

  /** The directory after the loop has consumed `events` and how it ended.
      The ticker is made before the loop and panics on a non-positive
      interval; the configuration never changes, so testing it before every
      turn is testing it once. */
  function Reign(files: seq<File>, cfg: Config, events: seq<LeaderEvent>): (r: (seq<File>, LeaderEnd))
    ensures cfg.leaderTimeout <= 0 ==> r == (files, Crash(NonPositiveInterval))
    ensures cfg.leaderTimeout > 0 && |events| > 0 && events[0] == Cancelled ==> r == (files, StopRequested)
    ensures cfg.leaderTimeout > 0 && |events| == 0 ==> r == (files, StillLeading)
    // only the ticker and a negative capacity make the Leader panic
    ensures r.1.Crash? ==>
              (cfg.leaderTimeout <= 0 && r.1.reason == NonPositiveInterval) ||
              (cfg.storageCapacity < 0 && r.1.reason == IndexOutOfRange)
    decreases |events|
  {
    if cfg.leaderTimeout <= 0 then (files, Crash(NonPositiveInterval))
    else if |events| == 0 then (files, StillLeading)
    else match events[0]
      case Cancelled => (files, StopRequested)
      case Ticked(now, faults) =>
        var t := Tick(files, cfg, now, faults);
        if t.end.Crashed? then (t.files, Crash(t.end.reason))
        else Reign(t.files, cfg, events[1..])
  }

  /** A tick that does not panic (its errors are only logged) leaves the
      loop running on the directory it produced. */
  lemma ReignContinuesAfterTick(files: seq<File>, cfg: Config, now: int, faults: TickFaults, rest: seq<LeaderEvent>)
    requires cfg.leaderTimeout > 0 && !Tick(files, cfg, now, faults).end.Crashed?
    ensures Reign(files, cfg, [Ticked(now, faults)] + rest) == Reign(Tick(files, cfg, now, faults).files, cfg, rest)
    ensures faults.write.Some? ==> Reign(files, cfg, [Ticked(now, faults)] + rest) == Reign(files, cfg, rest)
  {
    assert ([Ticked(now, faults)] + rest)[1..] == rest;
  }

  /** The heartbeat of a fault-free tick survives the retention pass when
      it is the newest file and the capacity leaves room for one file. */
  lemma HeartbeatSurvivesTick(files: seq<File>, cfg: Config, now: int)
    requires UniqueNames(files) && cfg.storageCapacity >= 1
    requires forall f :: f in files ==> f.modTime < now
    ensures Tick(files, cfg, now, NoFaults()).end == Kept
    ensures Heartbeat(now) in Tick(files, cfg, now, NoFaults()).files
  {
    var w := Written(files, Heartbeat(now));
    WrittenKeepsUniqueNames(files, Heartbeat(now));
    if |w| > cfg.storageCapacity {
      var left := Tick(files, cfg, now, NoFaults()).files;
      RetentionKeepsNewest(w, cfg.fileDir, cfg.storageCapacity, NoFaults());
      RetentionOnlyRemoves(w, cfg.fileDir, cfg.storageCapacity, NoFaults());
      WrittenFrom(files, Heartbeat(now));
      // a kept file is either the heartbeat or older than it
      assert left[0] in w;
    }
  }

  /** The value `Run` returns when the loop ends, given the state the
      Stopping getter hands out. */
  function Successor(end: LeaderEnd, stop: AutomataState): StepResult
  {
    match end
    case StopRequested => Returned(Some(stop), None)
    case Crash(reason) => Panicked(reason)
    case StillLeading => Blocked
  }

  /** `manageFiles` on the directory object. */
  method ManageFiles(dir: Directory, cfg: Config, faults: TickFaults) returns (end: PassEnd)
    requires dir.Valid()
    modifies dir
    ensures dir.Valid()
    ensures Retention(dir.files, end) == RetentionPass(old(dir.files), cfg.fileDir, cfg.storageCapacity, faults)
  {
    var files, err := dir.ReadDir(faults.readDir);
    if err.Some? {
      return Logged(Wrapped("failed to read directory: ", err.value));
    }
    if |files| > cfg.storageCapacity {
      var a := new File[|files|](k requires 0 <= k < |files| => files[k]);
      assert a[..] == files;
      SortInPlace(a, ModTimeBefore);
      InsertionSortPermutes(files, ModTimeBefore);
      end := RemoveOldest(dir, a[..], |files| - cfg.storageCapacity, cfg.fileDir, faults.remove);
    } else {
      end := Kept;
    }
  }

  /** The removal loop of `manageFiles`: deletes the first `excess` files of
      `order`, stopping at the first failure. */
  method RemoveOldest(dir: Directory, order: seq<File>, excess: int, path: string, remove: map<string, Error>)
    returns (end: PassEnd)
    requires dir.Valid() && |order| == |dir.files| && excess > 0
    modifies dir
    ensures dir.Valid()
    ensures Retention(dir.files, end) == Evict(old(dir.files), order, excess, path, remove)
  {
    ghost var goal := EvictFrom(dir.files, order, excess, path, remove, 0);
    EvictFromIsEvict(dir.files, order, excess, path, remove);
    var i := 0;
    while i < excess
      invariant 0 <= i <= |order|
      invariant dir.Valid()
      invariant EvictFrom(dir.files, order, excess, path, remove, i) == goal
    {
      if i == |order| {
        return Crashed(IndexOutOfRange);
      }
      var name := order[i].name;
      var fault := if name in remove then Some(remove[name]) else None;
      var e := dir.Remove(name, fault);
      if e.Some? {
        return Logged(RemoveFailed(path, name, e.value));
      }
      i := i + 1;
    }
    return Kept;
  }

  /** The removal loop from position `i` on, over the directory `now` it
      has left so far. */
  function EvictFrom(now: seq<File>, order: seq<File>, excess: int, dir: string, remove: map<string, Error>, i: nat): Retention
    requires i <= |order|
    decreases |order| - i
  {
    if i >= excess then Retention(now, Kept)
    else if i == |order| then Retention(now, Crashed(IndexOutOfRange))
    else if order[i].name in remove then Retention(now, Logged(RemoveFailed(dir, order[i].name, remove[order[i].name])))
    else EvictFrom(Without(now, {order[i].name}), order, excess, dir, remove, i + 1)
  }

  /** The loop, run turn by turn, does what `Evict` says. */
  lemma EvictFromIsEvict(files: seq<File>, order: seq<File>, excess: int, dir: string, remove: map<string, Error>)
    requires |order| == |files| && excess > 0
    ensures EvictFrom(files, order, excess, dir, remove, 0) == Evict(files, order, excess, dir, remove)
  {
    WithoutNothing(files);
    assert NameSet(order[..0]) == {};
    EvictFromAt(files, order, excess, dir, remove, 0);
  }

  lemma {:induction false} EvictFromAt(files: seq<File>, order: seq<File>, excess: int, dir: string,
                                       remove: map<string, Error>, i: nat)
    requires |order| == |files| && excess > 0
    requires i <= FirstRefused(order, excess, remove, 0)
    requires FirstRefused(order, excess, remove, i) == FirstRefused(order, excess, remove, 0)
    ensures EvictFrom(Without(files, NameSet(order[..i])), order, excess, dir, remove, i) == Evict(files, order, excess, dir, remove)
    decreases |order| - i
  {
    var k := FirstRefused(order, excess, remove, 0);
    if i < k {
      RemovalStep(files, order, excess, remove, i);
      EvictFromAt(files, order, excess, dir, remove, i + 1);
    }
  }

  /** A removal that succeeds moves the loop one file on. */
  lemma RemovalStep(files: seq<File>, order: seq<File>, excess: int, remove: map<string, Error>, i: nat)
    requires i < |order| && i < excess && order[i].name !in remove
    ensures FirstRefused(order, excess, remove, i) == FirstRefused(order, excess, remove, i + 1)
    ensures Without(Without(files, NameSet(order[..i])), {order[i].name}) == Without(files, NameSet(order[..i + 1]))
  {
    WithoutTwice(files, NameSet(order[..i]), order[i].name);
    NameSetPrefix(order, i);
  }

  /** One `ticker.C` case of `Run`: the heartbeat write, then `manageFiles`
      unless the write failed. */
  method OnTick(dir: Directory, cfg: Config, now: int, faults: TickFaults) returns (end: PassEnd)
    requires dir.Valid()
    modifies dir
    ensures dir.Valid()
    ensures Retention(dir.files, end) == Tick(old(dir.files), cfg, now, faults)
  {
    var err := dir.WriteFile(Heartbeat(now).name, MarkerContent, now, faults.write);
    if err.Some? {
      return Logged(err.value);
    }
    end := ManageFiles(dir, cfg, faults);
  }

  /** `Run`: ticks until the context is cancelled, then asks the resource
      graph for the Stopping state. Errors of a tick are logged and the loop
      goes on; a panic in the retention pass ends it. */
  method Run(cfg: Config, dir: Directory, dg: DepGraph, events: seq<LeaderEvent>) returns (r: StepResult)
    requires dir.Valid() && dg.Valid()
    modifies dir, dg
    ensures dir.Valid() && dg.Valid()
    ensures dir.files == Reign(old(dir.files), cfg, events).0
    ensures r == Successor(Reign(old(dir.files), cfg, events).1, old(dg.StoppingNext()))
    ensures dg.conn == old(dg.conn) && dg.StoppingNext() == old(dg.StoppingNext())
    ensures Reign(old(dir.files), cfg, events).1 != StopRequested ==> unchanged(dg)
    ensures cfg.leaderTimeout <= 0 ==> r == Panicked(NonPositiveInterval) && dir.files == old(dir.files)
    // cancellation hands over to the Stopping state the graph holds
    ensures cfg.leaderTimeout > 0 && |events| > 0 && events[0] == Cancelled ==>
              r == Returned(Some(old(dg.StoppingNext())), None) && dir.files == old(dir.files)
  {
    if cfg.leaderTimeout <= 0 {
      return Panicked(NonPositiveInterval);
    }
    var i := 0;
    while i < |events|
      invariant 0 <= i <= |events|
      invariant dir.Valid() && dg.Valid() && unchanged(dg)
      invariant Reign(old(dir.files), cfg, events) == Reign(dir.files, cfg, events[i..])
    {
      match events[i]
      case Cancelled =>
        var s, err := dg.GetStoppingState();
        return Returned(s, err);
      case Ticked(now, faults) =>
        var end := OnTick(dir, cfg, now, faults);
        if end.Crashed? {
          return Panicked(end.reason);
        }
      assert events[i..][1..] == events[i + 1..];
      i := i + 1;
    }
    r := Blocked;
  }

  // ----- what the retention pass achieves -----

  /** In a directory with distinct names a file occurs at most once. */
  lemma {:induction false} UniqueNamesOccurOnce(files: seq<File>, f: File)
    requires UniqueNames(files)
    ensures multiset(files)[f] <= 1
  {
    if |files| > 0 {
      var init := files[..|files| - 1];
      assert files == init + [files[|files| - 1]];
      UniqueNamesOccurOnce(init, f);
      if files[|files| - 1] == f {
        forall j | 0 <= j < |init|
          ensures init[j] != f
        {
          assert files[j].name != files[|files| - 1].name;
        }
      }
    }
  }

  /** How many copies of `f` survive `Without`. */
  lemma {:induction false} WithoutCount(files: seq<File>, gone: set<string>, f: File)
    ensures multiset(Without(files, gone))[f] == if f.name in gone then 0 else multiset(files)[f]
  {
    if |files| > 0 {
      var init, last := files[..|files| - 1], files[|files| - 1];
      assert files == init + [last];
      WithoutCount(init, gone, f);
    }
  }

  /** A file whose name is among the first `k` of a reordering of a
      directory with distinct names does not occur after them. */
  lemma EvictedNameNotAfter(files: seq<File>, order: seq<File>, k: nat, f: File)
    requires UniqueNames(files)
    requires multiset(order) == multiset(files) && k <= |order|
    requires f.name in NameSet(order[..k])
    ensures multiset(order[k..])[f] == 0
  {
    assert order == order[..k] + order[k..];
    assert multiset(order)[f] == multiset(order[..k])[f] + multiset(order[k..])[f];
    if f in files {
      var j := NameSetOwner(order[..k], f.name);
      var g := order[j];
      assert g in multiset(files);
      var x :| 0 <= x < |files| && files[x] == g;
      var y :| 0 <= y < |files| && files[y] == f;
      assert x == y;
      UniqueNamesOccurOnce(files, f);
    } else {
      assert multiset(files)[f] == 0;
    }
  }

  /** A file whose name is not among the first `k` occurs only after them. */
  lemma KeptNameAfter(order: seq<File>, k: nat, f: File)
    requires k <= |order| && f.name !in NameSet(order[..k])
    ensures multiset(order[k..])[f] == multiset(order)[f]
  {
    assert order == order[..k] + order[k..];
    assert f !in order[..k] by {
      forall j | 0 <= j < k
        ensures order[..k][j] != f
      {
        assert order[..k][j].name in NameSet(order[..k]);
      }
    }
    assert multiset(order)[f] == multiset(order[..k])[f] + multiset(order[k..])[f];
  }

  /** Removing the names of the first `k` files of any reordering of a
      directory with distinct names leaves exactly the remaining files. */
  lemma RemovingPrefixLeavesSuffix(files: seq<File>, order: seq<File>, k: nat)
    requires UniqueNames(files)
    requires multiset(order) == multiset(files) && k <= |order|
    ensures multiset(Without(files, NameSet(order[..k]))) == multiset(order[k..])
    ensures |Without(files, NameSet(order[..k]))| == |files| - k
  {
    var left := Without(files, NameSet(order[..k]));
    forall f
      ensures multiset(left)[f] == multiset(order[k..])[f]
    {
      WithoutCount(files, NameSet(order[..k]), f);
      if f.name in NameSet(order[..k]) {
        EvictedNameNotAfter(files, order, k, f);
      } else {
        KeptNameAfter(order, k, f);
      }
    }
    assert multiset(left) == multiset(order[k..]);
    assert |multiset(left)| == |left|;
  }

  /** In any modification-time order, a file in the first `e` positions is
      no newer than a file after them. */
  lemma EvictedAreOldest(order: seq<File>, e: nat)
    requires Sorted(order, ModTimeBefore) && e <= |order|
    ensures forall r, f :: r in order[..e] && f in order[e..] ==> r.modTime <= f.modTime
  {
    forall r, f | r in order[..e] && f in order[e..]
      ensures r.modTime <= f.modTime
    {
      var x :| 0 <= x < e && order[x] == r;
      var y :| e <= y < |order| && order[y] == f;
      assert !ModTimeBefore(order[y], order[x]);
    }
  }

  /** Evicting the first `e` files of ANY modification-time order of a
      directory (so also the order an unstable sort produces) leaves
      `|files| - e` files, none of them older than an evicted one. */
  lemma EvictionKeepsNewest(files: seq<File>, order: seq<File>, e: nat)
    requires UniqueNames(files) && multiset(order) == multiset(files)
    requires Sorted(order, ModTimeBefore) && e <= |order|
    ensures |Without(files, NameSet(order[..e]))| == |files| - e
    ensures forall r, f ::
              (r in files && r !in Without(files, NameSet(order[..e])) &&
               f in Without(files, NameSet(order[..e]))) ==> r.modTime <= f.modTime
  {
    var left := Without(files, NameSet(order[..e]));
    RemovingPrefixLeavesSuffix(files, order, e);
    EvictedAreOldest(order, e);
    forall r, f | r in files && r !in left && f in left
      ensures r.modTime <= f.modTime
    {
      assert f in multiset(order[e..]) by {
        assert f in multiset(left);
      }
      assert r !in multiset(order[e..]) by {
        assert r !in multiset(left);
      }
      InPrefixOrSuffix(order, e, r);
    }
  }

  /** Without removal faults the pass evicts exactly the excess. */
  lemma FaultFreeEvictionRemovesExcess(files: seq<File>, dir: string, capacity: int, faults: TickFaults)
    requires 0 <= capacity < |files| && faults.readDir.None?
    requires forall f :: f in files ==> f.name !in faults.remove
    ensures |Oldest(files)| == |files|
    ensures RetentionPass(files, dir, capacity, faults) ==
              Retention(Without(files, NameSet(Oldest(files)[..|files| - capacity])), Kept)
  {
    var order := Oldest(files);
    InsertionSortPermutes(files, ModTimeBefore);
    forall j | 0 <= j < |order|
      ensures order[j].name !in faults.remove
    {
      assert order[j] in multiset(files);
    }
  }

  /** A pass over a directory above capacity whose removals all succeed
      leaves exactly `capacity` files: the newest ones. */
  lemma RetentionKeepsNewest(files: seq<File>, dir: string, capacity: int, faults: TickFaults)
    requires UniqueNames(files) && 0 <= capacity < |files|
    requires faults.readDir.None?
    requires forall f :: f in files ==> f.name !in faults.remove
    ensures RetentionPass(files, dir, capacity, faults).end == Kept
    ensures |RetentionPass(files, dir, capacity, faults).files| == capacity
    ensures forall r, f ::
              (r in files && r !in RetentionPass(files, dir, capacity, faults).files &&
               f in RetentionPass(files, dir, capacity, faults).files) ==> r.modTime <= f.modTime
  {
    FaultFreeEvictionRemovesExcess(files, dir, capacity, faults);
    InsertionSortPermutes(files, ModTimeBefore);
    ModTimeBeforeIsStrictWeakOrder();
    InsertionSortSorted(files, ModTimeBefore);
    EvictionKeepsNewest(files, Oldest(files), |files| - capacity);
  }

  lemma InPrefixOrSuffix(s: seq<File>, k: nat, x: File)
    requires k <= |s| && x in multiset(s)
    ensures x in multiset(s[..k]) || x in multiset(s[k..])
  {
    assert s == s[..k] + s[k..];
  }

  /** A removal failure stops the pass: the `i` files evicted before it are
      gone, nothing else is, and the error names the file that could not be
      removed. */
  lemma RetentionStopsAtFirstFailure(files: seq<File>, dir: string, capacity: int, faults: TickFaults, i: nat)
    requires UniqueNames(files) && 0 <= capacity && i < |files| - capacity
    requires faults.readDir.None?
    requires forall j :: 0 <= j < i ==> Oldest(files)[j].name !in faults.remove
    requires Oldest(files)[i].name in faults.remove
    ensures RetentionPass(files, dir, capacity, faults) ==
              Retention(Without(files, NameSet(Oldest(files)[..i])),
                        Logged(RemoveFailed(dir, Oldest(files)[i].name, faults.remove[Oldest(files)[i].name])))
    ensures |RetentionPass(files, dir, capacity, faults).files| == |files| - i
  {
    var order, excess := Oldest(files), |files| - capacity;
    var name, left := order[i].name, Without(files, NameSet(order[..i]));
    assert RetentionPass(files, dir, capacity, faults) == Evict(files, order, excess, dir, faults.remove) by {
      PassIsEviction(files, dir, capacity, faults);
    }
    assert Evict(files, order, excess, dir, faults.remove) == Retention(left, Logged(RemoveFailed(dir, name, faults.remove[name]))) by {
      FirstRefusedAt(order, excess, faults.remove, 0, i);
      EvictionStopsAt(files, order, excess, dir, faults.remove, i);
    }
    assert |left| == |files| - i by {
      RemovingPrefixLeavesSuffix(files, order, i);
    }
  }

  /** Above capacity, a pass whose listing succeeds is the removal loop
      over the eviction order. */
  lemma PassIsEviction(files: seq<File>, dir: string, capacity: int, faults: TickFaults)
    requires faults.readDir.None? && |files| > capacity
    ensures |Oldest(files)| == |files|
    ensures RetentionPass(files, dir, capacity, faults) == Evict(files, Oldest(files), |files| - capacity, dir, faults.remove)
  {
  }

  /** A removal loop that stops at `i`, short of the excess and of the end
      of the order, reports the refused file. */
  lemma EvictionStopsAt(files: seq<File>, order: seq<File>, excess: int, dir: string, remove: map<string, Error>, i: nat)
    requires |order| == |files| && i < excess && i < |order|
    requires FirstRefused(order, excess, remove, 0) == i
    ensures order[i].name in remove
    ensures Evict(files, order, excess, dir, remove) ==
              Retention(Without(files, NameSet(order[..i])), Logged(RemoveFailed(dir, order[i].name, remove[order[i].name])))
  {
  }

  /** The removal loop stops at the first refused removal. */
  lemma {:induction false} FirstRefusedAt(order: seq<File>, excess: int, remove: map<string, Error>, from: nat, i: nat)
    requires from <= i < |order| && i < excess
    requires forall j :: from <= j < i ==> order[j].name !in remove
    requires order[i].name in remove
    ensures FirstRefused(order, excess, remove, from) == i
    decreases i - from
  {
    if from < i {
      FirstRefusedAt(order, excess, remove, from + 1, i);
    }
  }

  /** A negative capacity makes the pass run past the listing: it removes
      every file and then panics on the index. */
  lemma NegativeCapacityPanics(files: seq<File>, dir: string, capacity: int)
    requires UniqueNames(files) && capacity < 0
    ensures RetentionPass(files, dir, capacity, NoFaults()) == Retention([], Crashed(IndexOutOfRange))
  {
    var order := Oldest(files);
    InsertionSortPermutes(files, ModTimeBefore);
    var k := FirstRefused(order, |files| - capacity, map[], 0);
    assert k == |order|;
    RemovingPrefixLeavesSuffix(files, order, k);
  }

  /** A fault-free tick leaves at most `capacity` files, whatever the
      directory held before. */
  lemma FaultFreeTickBounds(files: seq<File>, cfg: Config, now: int)
    requires UniqueNames(files) && cfg.storageCapacity >= 0
    ensures Tick(files, cfg, now, NoFaults()).end == Kept
    ensures |Tick(files, cfg, now, NoFaults()).files| <= cfg.storageCapacity
    ensures UniqueNames(Tick(files, cfg, now, NoFaults()).files)
  {
    var w := Written(files, Heartbeat(now));
    WrittenKeepsUniqueNames(files, Heartbeat(now));
    if |w| > cfg.storageCapacity {
      RetentionKeepsNewest(w, cfg.fileDir, cfg.storageCapacity, NoFaults());
    }
    RetentionKeepsUniqueNames(w, cfg.fileDir, cfg.storageCapacity, NoFaults());
  }

  lemma RetentionKeepsUniqueNames(files: seq<File>, dir: string, capacity: int, faults: TickFaults)
    requires UniqueNames(files)
    ensures UniqueNames(RetentionPass(files, dir, capacity, faults).files)
  {
    if faults.readDir.None? && |files| > capacity {
      var order := Oldest(files);
      InsertionSortPermutes(files, ModTimeBefore);
      var k := FirstRefused(order, |files| - capacity, faults.remove, 0);
      WithoutKeepsUniqueNames(files, NameSet(order[..k]));
    }
  }

  /** While the Leader reigns without filesystem faults, a directory within
      capacity stays within capacity and the retention pass never panics. */
  lemma {:induction false} FaultFreeReignIsBounded(files: seq<File>, cfg: Config, events: seq<LeaderEvent>)
    requires UniqueNames(files) && 0 <= cfg.storageCapacity && |files| <= cfg.storageCapacity
    requires forall e :: e in events ==> e.Cancelled? || e.faults == NoFaults()
    ensures Reign(files, cfg, events).1 != Crash(IndexOutOfRange)
    ensures |Reign(files, cfg, events).0| <= cfg.storageCapacity
    decreases |events|
  {
    if |events| > 0 && events[0].Ticked? {
      var t := Tick(files, cfg, events[0].now, NoFaults());
      FaultFreeTickBounds(files, cfg, events[0].now);
      assert forall e :: e in events[1..] ==> e in events;
      FaultFreeReignIsBounded(t.files, cfg, events[1..]);
    }
  }
}
