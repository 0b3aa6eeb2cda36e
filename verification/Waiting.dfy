/** When a task that waits for others can be woken: exactly as long as nobody it waits for is gone. */
module Waiting {
  import opened Bytes
  import opened ChunkLists
  import opened Lru
  import opened LruSurvival
  import opened CacheRegions
  import opened FetchProtocol

  /** Nothing that is still awaited is lost: neither the lock nor the owner of an awaited batch. */
  ghost predicate Wakeable(s: State, t: TaskId)
    requires t in s.tasks && s.tasks[t].Waiting?
  {
    forall a :: a in s.tasks[t].awaited && a.1 in s.open ==> !s.poisoned && !Orphaned(s, a.1, s.open[a.1])
  }

  /** `t` waits for the open event `e`, and the lock or the owner of `e` is lost. */
  ghost predicate Stuck(s: State, t: TaskId, task: Task, e: Event) {
    && t in s.tasks && s.tasks[t] == task && task.Waiting? && (exists a :: a in task.awaited && a.1 == e)
    && e in s.open && (s.poisoned || Orphaned(s, e, s.open[e]))
  }

  /** `t` is stuck for good, or was dropped itself. */
  ghost predicate Lost(s: State, t: TaskId, task: Task, e: Event) {
    Stuck(s, t, task, e) || (t in s.tasks && s.tasks[t].Failed?)
  }

  lemma LostIsNotWoken(c: Config, s: State, t: TaskId, task: Task, e: Event)
    requires Lost(s, t, task, e)
    ensures !Enabled(c, s, Relock(t))
  {
    if Stuck(s, t, task, e) {
      var a :| a in task.awaited && a.1 == e;
      var i :| 0 <= i < |task.awaited| && task.awaited[i] == a;
    }
  }

  lemma StuckStays(c: Config, s: State, step: Step, t: TaskId, task: Task, e: Event)
    requires Inv(c, s) && Enabled(c, s, step) && Stuck(s, t, task, e) && step != Abort(t)
    ensures Stuck(Do(c, s, step), t, task, e)
  {
    hide Inv, Orphaned, ScanRequested, Collect;
    LostIsNotWoken(c, s, t, task, e);
    if s.poisoned {
      PoisonedStays(c, s, step);
    } else {
      OrphanStays(c, s, step, e, s.open[e]);
      OrphanIsOpen(Do(c, s, step), e, s.open[e]);
    }
  }

  lemma PoisonedStays(c: Config, s: State, step: Step)
    requires s.poisoned && Enabled(c, s, step)
    ensures Do(c, s, step).poisoned && Do(c, s, step).open == s.open
  {}

  lemma OrphanIsOpen(s: State, e: Event, keys: seq<Key>)
    requires Orphaned(s, e, keys)
    ensures e in s.open && s.open[e] == keys
  {}

  lemma FailedStays(c: Config, s: State, step: Step, t: TaskId)
    requires Enabled(c, s, step) && t in s.tasks && s.tasks[t].Failed?
    ensures t in Do(c, s, step).tasks && Do(c, s, step).tasks[t].Failed?
  {
    hide ScanRequested, RegionOutcome, Collect, Run, Inserts, Uses, KeysOf, HashesMatch, Add;
  }

  lemma AbortFails(c: Config, s: State, t: TaskId)
    requires Enabled(c, s, Abort(t))
    ensures t in Do(c, s, Abort(t)).tasks && Do(c, s, Abort(t)).tasks[t].Failed?
  {}

  lemma {:induction false} StuckForever(c: Config, s: State, steps: seq<Step>, t: TaskId, task: Task, e: Event)
    requires Inv(c, s) && Lost(s, t, task, e) && After(c, s, steps).Some?
    ensures Lost(After(c, s, steps).value, t, task, e)
    decreases |steps|
  {
    hide Inv, Stuck, Do, Enabled;
    if steps != [] {
      StepKeeps(c, s, steps[0]);
      if !Stuck(s, t, task, e) {
        FailedStays(c, s, steps[0], t);
      } else if steps[0] == Abort(t) {
        AbortFails(c, s, t);
      } else {
        StuckStays(c, s, steps[0], t, task, e);
      }
      StuckForever(c, Do(c, s, steps[0]), steps[1..], t, task, e);
    }
  }

  /** The genuine chunks of a batch. */
  function ChunksFor(content: Key -> bytes, batch: seq<Key>): (chunks: seq<bytes>)
    ensures |chunks| == |batch|
  {
    seq(|batch|, i requires 0 <= i < |batch| => content(batch[i]))
  }

  /** The owner of an awaited batch that is not lost can fulfill it, which leaves everything else as it was. */
  lemma OwnerFulfills(c: Config, s: State, t: TaskId, a: (Key, Event), content: Key -> bytes) returns (u: TaskId)
    requires Inv(c, s) && t in s.tasks && s.tasks[t].Waiting? && a in s.tasks[t].awaited && a.1 in s.open
    requires !s.poisoned && !Orphaned(s, a.1, s.open[a.1]) && forall k :: k in s.pending ==> c.hash(content(k)) == k
    ensures var step := Fulfill(u, ChunksFor(content, s.open[a.1]));
            && u != t && u in s.tasks && s.tasks[u].Fetching? && s.tasks[u].event == a.1 && Enabled(c, s, step)
            && var s' := Do(c, s, step);
               && s'.open == s.open - {a.1} && s'.poisoned == s.poisoned && s'.owner == s.owner
               && s'.tasks == s.tasks[u := s'.tasks[u]] && s'.nextEvent == s.nextEvent
               && forall k :: k in s'.pending ==> k in s.pending
  {
    hide CacheInv, TaskOk, Run, Inserts, Add;
    u := s.owner[a.1];
    assert OwnerOk(a.1, s.owner, s.tasks);
    FetchingFacts(c, s, u);
  }

  lemma StillWakeable(c: Config, s: State, s': State, t: TaskId, u: TaskId, e: Event)
    requires Inv(c, s) && t in s.tasks && s.tasks[t].Waiting? && Wakeable(s, t) && t != u
    requires u in s.tasks && s.tasks[u].Fetching? && s.tasks[u].event == e && u in s'.tasks
    requires s'.open == s.open - {e} && s'.poisoned == s.poisoned && s'.owner == s.owner &&
               s'.tasks == s.tasks[u := s'.tasks[u]]
    ensures Wakeable(s', t)
  {
    hide CacheInv, PendingInv, TaskOk;
    forall a | a in s.tasks[t].awaited && a.1 in s'.open ensures !s'.poisoned && !Orphaned(s', a.1, s'.open[a.1]) {
      assert OwnerOk(a.1, s.owner, s.tasks);
    }
  }

  /** While nothing awaited is lost, a run of fulfillments wakes the task. */
  lemma {:induction false} CanWake(c: Config, s: State, t: TaskId, content: Key -> bytes) returns (steps: seq<Step>)
    requires Inv(c, s) && t in s.tasks && s.tasks[t].Waiting? && Wakeable(s, t)
    requires forall k :: k in s.pending ==> c.hash(content(k)) == k
    ensures After(c, s, steps).Some? && Enabled(c, After(c, s, steps).value, Relock(t))
    decreases |s.open|
  {
    hide Inv, Do, After;
    if Enabled(c, s, Relock(t)) {
      steps := [];
      AfterNothing(c, s);
    } else {
      var i :| 0 <= i < |s.tasks[t].awaited| && !Closed(s, s.tasks[t].awaited[i].1);
      var a := s.tasks[t].awaited[i];
      WaitersAreServed(c, s, t, a);
      var u := OwnerFulfills(c, s, t, a, content);
      var step := Fulfill(u, ChunksFor(content, s.open[a.1]));
      var s' := Do(c, s, step);
      StepKeeps(c, s, step);
      StillWakeable(c, s, s', t, u, a.1);
      assert |s'.open| < |s.open| by { FewerOpen(s.open, a.1); }
      var rest := CanWake(c, s', t, content);
      steps := [step] + rest;
      AfterFirst(c, s, step, rest);
    }
  }

  lemma FewerOpen(open: map<Event, seq<Key>>, e: Event)
    requires e in open
    ensures |open - {e}| < |open|
  {
    assert open.Keys == (open - {e}).Keys + {e};
    assert |open.Keys| == |(open - {e}).Keys| + 1;
  }

  /** A waiting task can be woken exactly when neither the lock nor the owner of a batch it still awaits is lost. */
  lemma WakeExact(c: Config, s: State, t: TaskId, content: Key -> bytes)
    requires Inv(c, s) && t in s.tasks && s.tasks[t].Waiting?
    requires forall k :: k in s.pending ==> c.hash(content(k)) == k
    ensures (exists steps :: After(c, s, steps).Some? && Enabled(c, After(c, s, steps).value, Relock(t))) <==>
              Wakeable(s, t)
  {
    hide Inv, After, Enabled, Orphaned;
    if Wakeable(s, t) {
      var steps := CanWake(c, s, t, content);
    } else {
      var a :| a in s.tasks[t].awaited && a.1 in s.open && (s.poisoned || Orphaned(s, a.1, s.open[a.1]));
      forall steps | After(c, s, steps).Some? ensures !Enabled(c, After(c, s, steps).value, Relock(t)) {
        StuckForever(c, s, steps, t, s.tasks[t], a.1);
        LostIsNotWoken(c, After(c, s, steps).value, t, s.tasks[t], a.1);
      }
    }
  }

  lemma {:induction false} AfterConcat(c: Config, s: State, a: seq<Step>, b: seq<Step>)
    requires After(c, s, a).Some?
    ensures After(c, s, a + b) == After(c, After(c, s, a).value, b)
    decreases |a|
  {
    hide Do, Enabled;
    if a == [] {
      assert a + b == b;
    } else {
      assert (a + b)[1..] == a[1..] + b;
      AfterConcat(c, Do(c, s, a[0]), a[1..], b);
    }
  }

  /** The run in which the first of two tasks takes the batch and fails. */
  function Abandoning(k: Key): seq<Step> {
    [Prefetch(0, [k]), Lock(0), Prefetch(1, [k]), Lock(1), Abort(0)]
  }

  lemma AbandonedState(c: Config, k: Key) returns (s: State)
    requires c.batchSize > 0
    ensures After(c, INITIAL, Abandoning(k)) == Some(s)
    ensures Stuck(s, 1, Task.Waiting([(k, 0)], map[]), 0)
  {
    hide After, DoLock, Uses;
    assert [] + [k] == [k];
    var s1 := Do(c, INITIAL, Prefetch(0, [k]));
    FirstIsHandedIt(c, s1, k);
    var s2 := Do(c, s1, Lock(0));
    var s3 := Do(c, s2, Prefetch(1, [k]));
    SecondWaits(c, s3, k);
    var s4 := Do(c, s3, Lock(1));
    s := Do(c, s4, Abort(0));
    var r5 := [Abort(0)];
    var r4 := [Lock(1)] + r5;
    var r3 := [Prefetch(1, [k])] + r4;
    var r2 := [Lock(0)] + r3;
    assert Abandoning(k) == [Prefetch(0, [k])] + r2;
    AfterFirst(c, INITIAL, Prefetch(0, [k]), r2);
    AfterFirst(c, s1, Lock(0), r3);
    AfterFirst(c, s2, Prefetch(1, [k]), r4);
    AfterFirst(c, s3, Lock(1), r5);
    AfterFirst(c, s4, Abort(0), []);
    assert r5 == r5 + [];
    AfterNothing(c, s);
    assert (k, 0) in [(k, 0)];
  }

  /** Two tasks want the same chunk and the one that fetches it fails: the other waits until it is dropped itself. */
  lemma AbandonedWaiter(c: Config, k: Key, steps: seq<Step>)
    requires c.batchSize > 0 && After(c, INITIAL, Abandoning(k) + steps).Some?
    ensures var s := After(c, INITIAL, Abandoning(k) + steps).value;
            && 1 in s.tasks && (s.tasks[1] == Task.Waiting([(k, 0)], map[]) || s.tasks[1] == Failed)
            && !Enabled(c, s, Relock(1))
  {
    hide After, Inv, Enabled, Abandoning;
    var s := AbandonedState(c, k);
    AfterConcat(c, INITIAL, Abandoning(k), steps);
    ReachableInv(c, INITIAL, Abandoning(k));
    StuckForever(c, s, steps, 1, s.tasks[1], 0);
    LostIsNotWoken(c, After(c, s, steps).value, 1, s.tasks[1], 0);
  }
}
