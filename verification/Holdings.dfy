/** Where the keys a task asked for are, at every point of every run of the fetch protocol. */
module Holdings {
  import opened Bytes
  import opened ChunkLists
  import opened Lru
  import opened CacheRegions
  import opened FetchProtocol

  /** The keys that `t` prefetched in a run. */
  ghost function Asked(steps: seq<Step>, t: TaskId): set<Key> {
    set i, k | 0 <= i < |steps| && steps[i].Prefetch? && steps[i].t == t && k in steps[i].keys :: k
  }

  predicate Active(task: Task) {
    task.Ready? || task.Fetching? || task.Waiting?
  }

  ghost function Members(keys: seq<Key>): set<Key> {
    set k | k in keys
  }

  /** The keys a task still asks for, is fetching, waits for, or has. */
  ghost function Held(task: Task): set<Key>
    requires Active(task)
  {
    match task
    case Ready(requested, found) => Members(requested) + found.Keys
    case Fetching(_, batch, requested, found) => Members(batch) + Members(requested) + found.Keys
    case Waiting(awaited, found) => Members(KeysOf(awaited)) + found.Keys
  }

  ghost function HeldBy(s: State, t: TaskId): set<Key>
    requires t in s.tasks ==> Active(s.tasks[t])
  {
    if t in s.tasks then Held(s.tasks[t]) else {}
  }

  /** The task is as alive as before, and holds what it held and `more`. */
  ghost predicate Keeps(s: State, s': State, t: TaskId, more: set<Key>) {
    t in s'.tasks && Active(s'.tasks[t]) ==>
      && (t in s.tasks ==> Active(s.tasks[t]))
      && HeldBy(s', t) == HeldBy(s, t) + more
  }

  lemma PrefetchHolds(c: Config, s: State, t: TaskId, keys: seq<Key>)
    requires Enabled(c, s, Prefetch(t, keys))
    ensures Keeps(s, Do(c, s, Prefetch(t, keys)), t, Members(keys))
  {
    var task := if t in s.tasks then s.tasks[t] else Ready([], map[]);
    assert Members(task.requested + keys) == Members(task.requested) + Members(keys);
  }

  lemma ScanHolds(cache: seq<Entry>, found: map<Key, bytes>, keys: seq<Key>, pending: set<Key>, batchSize: nat)
    requires Distinct(cache)
    ensures var scan := ScanRequested(cache, found, keys, pending, batchSize);
            Members(scan.batch) + Members(scan.kept) + scan.found.Keys == Members(keys) + found.Keys
  {
    hide ScanRequested, LruSurvival.Run, Has, Distinct;
    ScanResult(cache, found, keys, pending, batchSize, 0);
  }

  lemma LockHolds(c: Config, s: State, t: TaskId)
    requires Inv(c, s) && Enabled(c, s, Lock(t))
    ensures Keeps(s, DoLock(c, s, t), t, {})
  {
    hide PendingInv, TaskInv, ScanRequested, LruSurvival.Run, Has;
    var task := s.tasks[t];
    var scan := ScanRequested(s.cache, task.found, task.requested, s.pending.Keys, c.batchSize);
    ScanHolds(s.cache, task.found, task.requested, s.pending.Keys, c.batchSize);
    if RegionOutcome(scan, s.pending).MustWait? {
      assert KeysOf(Awaited(scan.kept, s.pending)) == scan.kept;
    }
  }

  lemma FulfillHolds(c: Config, s: State, t: TaskId, chunks: seq<bytes>)
    requires Inv(c, s) && Enabled(c, s, Fulfill(t, chunks))
    ensures Keeps(s, DoFulfill(c, s, t, chunks), t, {})
  {
    hide CacheInv, PendingInv, LruSurvival.Run;
    FetchingFacts(c, s, t);
    var task := s.tasks[t];
    if |chunks| == |task.batch| {
      AddFinds(c.hash, task.found, task.batch, chunks);
    }
  }

  lemma RelockHolds(c: Config, s: State, t: TaskId)
    requires Inv(c, s) && Enabled(c, s, Relock(t))
    ensures Keeps(s, DoRelock(c, s, t), t, {})
  {
    hide PendingInv, TaskInv, Collect, LruSurvival.Run, Has;
    var task := s.tasks[t];
    CollectExact(s.cache, KeysOf(task.awaited), task.found, c.max);
  }

  lemma LockMovesOne(c: Config, s: State, t: TaskId)
    requires Enabled(c, s, Lock(t))
    ensures t in DoLock(c, s, t).tasks && DoLock(c, s, t).tasks == s.tasks[t := DoLock(c, s, t).tasks[t]]
  {
    hide ScanRequested, RegionOutcome, Uses;
  }

  lemma FulfillMovesOne(c: Config, s: State, t: TaskId, chunks: seq<bytes>)
    requires Enabled(c, s, Fulfill(t, chunks))
    ensures var s' := DoFulfill(c, s, t, chunks); t in s'.tasks && s'.tasks == s.tasks[t := s'.tasks[t]]
  {
    hide LruSurvival.Run, Add, Inserts, HashesMatch;
  }

  lemma RelockMovesOne(c: Config, s: State, t: TaskId)
    requires Enabled(c, s, Relock(t))
    ensures t in DoRelock(c, s, t).tasks && DoRelock(c, s, t).tasks == s.tasks[t := DoRelock(c, s, t).tasks[t]]
  {
    hide Collect, Uses;
  }

  /** A step moves the task that takes it, and no other. */
  lemma StepMovesOne(c: Config, s: State, step: Step)
    requires Enabled(c, s, step)
    ensures var s' := Do(c, s, step); step.t in s'.tasks && s'.tasks == s.tasks[step.t := s'.tasks[step.t]]
  {
    hide DoLock, DoFulfill, DoRelock;
    match step
    case Prefetch(_, _) =>
    case Lock(t) => LockMovesOne(c, s, t);
    case Fulfill(t, chunks) => FulfillMovesOne(c, s, t, chunks);
    case Abort(_) =>
    case Relock(t) => RelockMovesOne(c, s, t);
  }

  /** No step of any task loses a key of a task that goes on, or gives it one it did not ask for. */
  lemma StepHolds(c: Config, s: State, step: Step, t: TaskId)
    requires Inv(c, s) && Enabled(c, s, step)
    ensures Keeps(s, Do(c, s, step), t, if step.Prefetch? && step.t == t then Members(step.keys) else {})
  {
    hide Inv, DoLock, DoFulfill, DoRelock, Held;
    if step.t != t {
      StepMovesOne(c, s, step);
      KeepsSame(s, t);
    } else {
      match step
      case Prefetch(_, keys) => PrefetchHolds(c, s, t, keys);
      case Lock(_) => if !s.poisoned { LockHolds(c, s, t); }
      case Fulfill(_, chunks) => FulfillHolds(c, s, t, chunks);
      case Abort(_) =>
      case Relock(_) => if !s.poisoned { RelockHolds(c, s, t); }
    }
  }

  /** At every point of every run, what a task that goes on holds is what it held and all it asked for since. */
  lemma {:induction false} NothingIsLost(c: Config, s: State, steps: seq<Step>, t: TaskId)
    requires Inv(c, s) && After(c, s, steps).Some?
    ensures Keeps(s, After(c, s, steps).value, t, Asked(steps, t))
    decreases |steps|
  {
    hide Inv, Enabled, Do, Held, Asked;
    if steps == [] {
      AskedNothing(t);
      KeepsSame(s, t);
    } else {
      var first, s1 := steps[0], Do(c, s, steps[0]);
      StepKeeps(c, s, first);
      StepHolds(c, s, first, t);
      StepMovesOne(c, s, first);
      NothingIsLost(c, s1, steps[1..], t);
      AskedFirst(steps, t);
      assert first.Prefetch? && first.t == t ==> Members(first.keys) + Asked(steps[1..], t) == Asked(steps, t);
    }
  }

  lemma KeepsSame(s: State, t: TaskId)
    ensures Keeps(s, s, t, {})
  {
    assert t in s.tasks && Active(s.tasks[t]) ==> Held(s.tasks[t]) + {} == Held(s.tasks[t]);
  }

  lemma AskedNothing(t: TaskId)
    ensures Asked([], t) == {}
  {}

  lemma AskedFirst(steps: seq<Step>, t: TaskId)
    requires steps != []
    ensures var first := steps[0];
            Asked(steps, t) ==
              (if first.Prefetch? && first.t == t then Members(first.keys) else {}) + Asked(steps[1..], t)
  {
    forall k | k in Asked(steps, t)
      ensures k in Asked(steps[1..], t) || (steps[0].Prefetch? && steps[0].t == t && k in steps[0].keys)
    {
      var i :| 0 <= i < |steps| && steps[i].Prefetch? && steps[i].t == t && k in steps[i].keys;
      if i > 0 { assert steps[1..][i - 1] == steps[i]; }
    }
    forall k | k in Asked(steps[1..], t) ensures k in Asked(steps, t) {
      var i :| 0 <= i < |steps[1..]| && steps[1..][i].Prefetch? && steps[1..][i].t == t && k in steps[1..][i].keys;
      assert steps[i + 1] == steps[1..][i];
    }
  }

  /** A task that asks for nothing more has exactly the chunks it prefetched, each of the right content. */
  lemma FinishedHasAll(c: Config, s: State, steps: seq<Step>, t: TaskId)
    requires Starts(c, s) && After(c, s, steps).Some? && t in After(c, s, steps).value.tasks
    requires var task := After(c, s, steps).value.tasks[t]; task.Ready? && task.requested == []
    ensures var found := After(c, s, steps).value.tasks[t].found;
            found.Keys == Asked(steps, t) && forall k :: k in found ==> c.hash(found[k]) == k
  {
    hide After, Asked;
    StartsInv(c, s);
    NothingIsLost(c, s, steps, t);
    RunsKeep(c, s, steps);
    var s' := After(c, s, steps).value;
    assert TaskOk(c, t, s'.tasks[t], s'.open, s'.owner, s'.nextEvent, s'.log);
  }

  // ----- Who poisons the lock

  /** A task panicked while it held the lock. */
  predicate PanickedLocked(task: Task) {
    task == Panicked(NotPending) || task == Panicked(NotCached)
  }

  /** The lock is poisoned exactly by such a panic, and only a poisoned lock makes others panic. */
  ghost predicate PoisonOk(s: State) {
    && (s.poisoned <==> exists t :: t in s.tasks && PanickedLocked(s.tasks[t]))
    && (forall t :: t in s.tasks && s.tasks[t] == Panicked(Poisoned) ==> s.poisoned)
  }

  lemma StepPoisons(c: Config, s: State, step: Step)
    requires Enabled(c, s, step) && PoisonOk(s)
    ensures PoisonOk(Do(c, s, step))
  {
    hide Do, Enabled, PanickedLocked;
    var s' := Do(c, s, step);
    StepMovesOne(c, s, step);
    PanicPoisons(c, s, step);
    if s'.poisoned && !PanickedLocked(s'.tasks[step.t]) {
      var t :| t in s.tasks && PanickedLocked(s.tasks[t]);
      assert t in s'.tasks && PanickedLocked(s'.tasks[t]);
    }
  }

  lemma PanicPoisons(c: Config, s: State, step: Step)
    requires Enabled(c, s, step)
    ensures var s' := Do(c, s, step);
            && step.t in s'.tasks && (step.t in s.tasks ==> !PanickedLocked(s.tasks[step.t]))
            && s'.poisoned == (s.poisoned || PanickedLocked(s'.tasks[step.t]))
            && (s'.tasks[step.t] == Panicked(Poisoned) ==> s.poisoned)
  {
    hide ScanRequested, Collect, LruSurvival.Run, RegionOutcome, Add, Uses, Inserts;
  }

  /** In every reachable state the lock is poisoned exactly if a task failed an `expect` while holding it. */
  lemma {:induction false} PoisonedExactly(c: Config, s: State, steps: seq<Step>)
    requires PoisonOk(s) && After(c, s, steps).Some?
    ensures PoisonOk(After(c, s, steps).value)
    decreases |steps|
  {
    hide Do, Enabled, PoisonOk;
    if steps != [] {
      StepPoisons(c, s, steps[0]);
      PoisonedExactly(c, Do(c, s, steps[0]), steps[1..]);
    }
  }

  lemma ReachablePoison(c: Config, s: State, steps: seq<Step>)
    requires Starts(c, s) && After(c, s, steps).Some?
    ensures var s' := After(c, s, steps).value;
            && (s'.poisoned <==> exists t :: t in s'.tasks && PanickedLocked(s'.tasks[t]))
            && forall t :: t in s'.tasks && s'.tasks[t] == Panicked(Poisoned) ==> s'.poisoned
  {
    hide After;
    assert s.tasks == map[] && !s.poisoned;
    PoisonedExactly(c, s, steps);
  }
}
