/** What each lock region of the shared cache does. */
module CacheRegions {
  import opened Bytes
  import opened ChunkLists
  import opened Lru
  import opened LruSurvival

  // ----- The scan over the requested keys

  /** The cache, the batch, the keys kept and the chunks found, part way through the scan. */
  datatype Scan = Scan(cache: seq<Entry>, batch: seq<Key>, kept: seq<Key>, found: map<Key, bytes>)

  function ScanKey(s: Scan, key: Key, pending: set<Key>, batchSize: nat): Scan {
    match Lookup(s.cache, key)
    case Some(chunk) => s.(cache := Touch(s.cache, key), found := s.found[key := chunk])
    case None =>
      if key !in pending && |s.batch| < batchSize
      then s.(batch := if key in s.batch then s.batch else s.batch + [key])
      else s.(kept := s.kept + [key])
  }

  function ScanKeys(s: Scan, keys: seq<Key>, pending: set<Key>, batchSize: nat): Scan
    decreases |keys|
  {
    if keys == [] then s else ScanKeys(ScanKey(s, keys[0], pending, batchSize), keys[1..], pending, batchSize)
  }

  /** The cache operations of the scan, in order. */
  function Uses(keys: seq<Key>): (ops: seq<Op>)
    ensures |ops| == |keys|
  {
    seq(|keys|, i requires 0 <= i < |keys| => Use(keys[i]))
  }

  ghost predicate NoDuplicates(keys: seq<Key>) {
    forall i, j :: 0 <= i < j < |keys| ==> keys[i] != keys[j]
  }

  /** What holds at every point of a scan of `done` that started from `start`. */
  ghost predicate ScanInv(s: Scan, start: Scan, done: seq<Key>, pending: set<Key>, batchSize: nat) {
    && Distinct(s.cache) && Size(s.cache) == Size(start.cache)
    && (forall e :: e in s.cache <==> e in start.cache)
    && NoDuplicates(s.batch) && |s.batch| <= batchSize && |s.kept| + |s.batch| <= |done|
    && (forall k :: k in s.batch ==> k in done && !Has(start.cache, k) && k !in pending)
    && (forall k :: k in s.kept ==> k in done && !Has(start.cache, k) && (k in pending || |s.batch| == batchSize))
    && (forall k :: k in done ==> if Has(start.cache, k) then k in s.found else k in s.batch || k in s.kept)
    && (forall k :: k in start.found ==> k in s.found)
    && (forall k :: k in s.found ==>
          || (k in done && Entry(k, s.found[k]) in start.cache)
          || (k in start.found && s.found[k] == start.found[k]))
  }

  lemma UniqueEntry(es: seq<Entry>, k: Key, chunk: bytes)
    requires Distinct(es) && Entry(k, chunk) in es
    ensures forall e :: e in es && e.key == k ==> e == Entry(k, chunk)
  {}

  lemma TouchPermutes(es: seq<Entry>, k: Key)
    requires Distinct(es)
    ensures Distinct(Touch(es, k)) && Size(Touch(es, k)) == Size(es)
    ensures forall e :: e in Touch(es, k) <==> e in es
  {
    match Lookup(es, k)
    case None =>
    case Some(chunk) =>
      WithoutDistinct(es, k);
      WithoutSize(es, k);
      WithoutMembers(es, k);
      SnocDistinct(Without(es, k), Entry(k, chunk));
      SizeConcat(Without(es, k), [Entry(k, chunk)]);
      UniqueEntry(es, k, chunk);
  }

  lemma ScanKeyKeeps(s: Scan, key: Key, start: Scan, done: seq<Key>, pending: set<Key>, batchSize: nat)
    requires ScanInv(s, start, done, pending, batchSize)
    ensures ScanInv(ScanKey(s, key, pending, batchSize), start, done + [key], pending, batchSize)
  {
    hide Touch, Has, Lookup, Distinct, Size;
    TouchPermutes(s.cache, key);
    SameHas(s.cache, start.cache, key);
  }

  lemma SameHas(a: seq<Entry>, b: seq<Entry>, k: Key)
    requires forall e :: e in a <==> e in b
    ensures Has(a, k) <==> Has(b, k)
  {}

  lemma {:induction false} ScanKeysKeep(s: Scan, keys: seq<Key>, start: Scan, done: seq<Key>, pending: set<Key>,
                                        batchSize: nat, max: nat)
    requires ScanInv(s, start, done, pending, batchSize)
    ensures ScanInv(ScanKeys(s, keys, pending, batchSize), start, done + keys, pending, batchSize)
    ensures ScanKeys(s, keys, pending, batchSize).cache == Run(s.cache, Uses(keys), max)
    decreases |keys|
  {
    hide ScanInv, Touch;
    if keys == [] {
      assert done + keys == done;
    } else {
      ScanKeyKeeps(s, keys[0], start, done, pending, batchSize);
      ScanKeysKeep(ScanKey(s, keys[0], pending, batchSize), keys[1..], start, done + [keys[0]], pending, batchSize,
        max);
      assert done + [keys[0]] + keys[1..] == done + keys;
      assert Uses(keys)[1..] == Uses(keys[1..]);
      TouchMissing(s.cache, keys[0]);
    }
  }

  lemma TouchMissing(es: seq<Entry>, k: Key)
    ensures !Has(es, k) ==> Touch(es, k) == es
  {}

  function StartScan(cache: seq<Entry>, found: map<Key, bytes>): Scan {
    Scan(cache, [], [], found)
  }

  /** The scan of the first lock region, from end to end. */
  function ScanRequested(cache: seq<Entry>, found: map<Key, bytes>, keys: seq<Key>, pending: set<Key>,
                         batchSize: nat): Scan {
    ScanKeys(StartScan(cache, found), keys, pending, batchSize)
  }

  lemma ScanResult(cache: seq<Entry>, found: map<Key, bytes>, keys: seq<Key>, pending: set<Key>, batchSize: nat,
                   max: nat)
    requires Distinct(cache)
    ensures var s := ScanRequested(cache, found, keys, pending, batchSize);
            ScanInv(s, StartScan(cache, found), keys, pending, batchSize) && s.cache == Run(cache, Uses(keys), max)
  {
    ScanKeysKeep(StartScan(cache, found), keys, StartScan(cache, found), [], pending, batchSize, max);
    assert [] + keys == keys;
  }

  type Event = nat

  /**
   * What the first lock region hands back: a batch to fetch, a failed `expect`, nothing left to do, or events to
   * await.
   */
  datatype Region =
    | HandedOut(batch: seq<Key>, kept: seq<Key>, found: map<Key, bytes>)
    | Unpending
    | Served(found: map<Key, bytes>)
    | MustWait(awaited: seq<(Key, Event)>, found: map<Key, bytes>)

  function Awaited(kept: seq<Key>, pending: map<Key, Event>): (awaited: seq<(Key, Event)>)
    requires forall k :: k in kept ==> k in pending
    ensures |awaited| == |kept|
  {
    seq(|kept|, i requires 0 <= i < |kept| => (kept[i], pending[kept[i]]))
  }

  function RegionOutcome(scan: Scan, pending: map<Key, Event>): Region {
    if scan.batch != [] then HandedOut(scan.batch, scan.kept, scan.found)
    else if exists k :: k in scan.kept && k !in pending then Unpending
    else if scan.kept == [] then Served(scan.found)
    else MustWait(Awaited(scan.kept, pending), scan.found)
  }

  // ----- Fulfilling a batch

  function Inserts(keys: seq<Key>, chunks: seq<bytes>): (ops: seq<Op>)
    requires |keys| == |chunks|
    ensures |ops| == |keys|
  {
    seq(|keys|, i requires 0 <= i < |keys| => Ins(keys[i], chunks[i]))
  }

  lemma InsertsStep(es: seq<Entry>, keys: seq<Key>, chunks: seq<bytes>, i: nat, max: nat)
    requires |keys| == |chunks| && i < |keys|
    ensures var ops := Inserts(keys, chunks);
            Run(es, ops[i..], max) == Run(Insert(es, keys[i], chunks[i], max), ops[i + 1..], max)
  {
    hide Insert;
    var ops := Inserts(keys, chunks);
    assert ops[i..][1..] == ops[i + 1..];
  }

  lemma RunNothing(es: seq<Entry>, max: nat)
    ensures Run(es, [], max) == es
  {}

  /** Inserting a batch of new keys replaces nothing, and leaves a bounded cache of old and new entries. */
  lemma {:induction false} InsertBatch(cache: seq<Entry>, keys: seq<Key>, chunks: seq<bytes>, max: nat)
    requires |keys| == |chunks| && Distinct(cache) && Size(cache) <= max && NoDuplicates(keys)
    requires forall k :: k in keys ==> !Has(cache, k)
    ensures var cache' := Run(cache, Inserts(keys, chunks), max);
            && Distinct(cache') && Size(cache') <= max
            && (forall e :: e in cache' ==> e in cache || exists i :: 0 <= i < |keys| && e == Entry(keys[i], chunks[i]))
    ensures forall i :: 0 <= i < |keys| ==> !Has(Run(cache, Inserts(keys, chunks)[..i], max), keys[i])
    decreases |keys|
  {
    hide Insert;
    if keys != [] {
      var ops := Inserts(keys, chunks);
      var cache1 := Insert(cache, keys[0], chunks[0], max);
      InsertNewKey(cache, keys[0], chunks[0], max);
      assert ops[1..] == Inserts(keys[1..], chunks[1..]);
      forall k | k in keys[1..] ensures !Has(cache1, k) {
        var i :| 0 <= i < |keys[1..]| && keys[1..][i] == k;
        assert keys[i + 1] == k && k in keys && keys[0] != k;
      }
      InsertBatch(cache1, keys[1..], chunks[1..], max);
      forall i | 0 <= i < |keys| ensures !Has(Run(cache, ops[..i], max), keys[i]) {
        if i > 0 {
          assert ops[..i][1..] == ops[1..][..i - 1];
          assert keys[i] == keys[1..][i - 1];
        }
      }
    }
  }

  lemma InsertNewKey(cache: seq<Entry>, k: Key, chunk: bytes, max: nat)
    requires Distinct(cache) && !Has(cache, k)
    ensures Distinct(Insert(cache, k, chunk, max)) && Size(Insert(cache, k, chunk, max)) <= max
    ensures forall e :: e in Insert(cache, k, chunk, max) ==> e in cache || e == Entry(k, chunk)
  {
    WithoutAbsent(cache, k);
    SnocDistinct(cache, Entry(k, chunk));
    FitBounds(cache + [Entry(k, chunk)], max);
  }

  // ----- The second lock region

  /** Looks up every awaited key in turn; `None` is the failed `expect`. */
  function Collect(cache: seq<Entry>, keys: seq<Key>, found: map<Key, bytes>): Option<(seq<Entry>, map<Key, bytes>)>
    decreases |keys|
  {
    if keys == [] then Some((cache, found))
    else match Lookup(cache, keys[0])
      case None => None
      case Some(chunk) => Collect(Touch(cache, keys[0]), keys[1..], found[keys[0] := chunk])
  }

  lemma TouchHasSame(cache: seq<Entry>, k: Key)
    requires Distinct(cache)
    ensures forall x :: Has(Touch(cache, k), x) <==> Has(cache, x)
  {
    hide Touch;
    TouchPermutes(cache, k);
  }

  /** Collecting succeeds exactly when every awaited key is cached as the region starts. */
  lemma {:induction false} CollectExact(cache: seq<Entry>, keys: seq<Key>, found: map<Key, bytes>, max: nat)
    requires Distinct(cache)
    ensures Collect(cache, keys, found).Some? <==> forall k :: k in keys ==> Has(cache, k)
    ensures Collect(cache, keys, found).Some? ==>
              var (cache', found') := Collect(cache, keys, found).value;
              && cache' == Run(cache, Uses(keys), max) && Distinct(cache') && Size(cache') == Size(cache)
              && (forall e :: e in cache' <==> e in cache)
              && (forall k :: k in found ==> k in found') && (forall k :: k in keys ==> k in found')
              && (forall k :: k in found' ==>
                    || (k in keys && Entry(k, found'[k]) in cache)
                    || (k in found && found'[k] == found[k]))
    decreases |keys|
  {
    hide Touch, Lookup, Has, Size, Distinct;
    if keys != [] {
      var k := keys[0];
      TouchPermutes(cache, k);
      TouchHasSame(cache, k);
      assert Uses(keys)[1..] == Uses(keys[1..]);
      assert keys == [k] + keys[1..];
      if Has(cache, k) {
        CollectExact(Touch(cache, k), keys[1..], found[k := Lookup(cache, k).value], max);
      }
    }
  }

  lemma MarkOne(pending: map<Key, Event>, marked: seq<Key>, key: Key, event: Event)
    ensures (pending + (map k | k in marked :: event))[key := event] ==
            pending + (map k | k in marked + [key] :: event)
  {}

  /** The shared state behind the mutex; the methods are its lock regions. */
  class ChunkCache {
    const raw: RawChunkCache
    var pending: map<Key, Event>
    var nextEvent: Event

    constructor (maxSize: nat)
      ensures raw.Valid() && raw.chunks == [] && raw.maxSize == maxSize && pending == map[] && fresh(raw)
    {
      raw := new RawChunkCache(maxSize);
      pending := map[];
      nextEvent := 0;
    }

    /** The `retain` pass over the requested keys. */
    method Retain(requested: seq<Key>, found0: map<Key, bytes>, batchSize: nat)
      returns (batch: seq<Key>, kept: seq<Key>, found: map<Key, bytes>)
      requires raw.Valid()
      modifies raw
      ensures raw.Valid()
      ensures Scan(raw.chunks, batch, kept, found) ==
              ScanRequested(old(raw.chunks), found0, requested, pending.Keys, batchSize)
    {
      hide Touch;
      var batchSet: set<Key> := {};
      batch, kept, found := [], [], found0;
      for i := 0 to |requested|
        invariant raw.Valid() && batchSet == (set k | k in batch)
        invariant ScanKeys(Scan(raw.chunks, batch, kept, found), requested[i..], pending.Keys, batchSize) ==
                  ScanRequested(old(raw.chunks), found0, requested, pending.Keys, batchSize)
      {
        var key := requested[i];
        assert requested[i..][0] == key && requested[i..][1..] == requested[i + 1..];
        TouchMissing(raw.chunks, key);
        var chunk := raw.Get(key);
        if chunk.Some? {
          found := found[key := chunk.value];
        } else if key !in pending && |batch| < batchSize {
          if key !in batchSet {
            batchSet := batchSet + {key};
            batch := batch + [key];
          }
        } else {
          kept := kept + [key];
        }
      }
    }

    /** The first lock region of `get_chunks_batched`. */
    method FirstRegion(requested: seq<Key>, found0: map<Key, bytes>, batchSize: nat) returns (r: Region)
      requires raw.Valid()
      modifies this, raw
      ensures raw.Valid()
      ensures var scan := ScanRequested(old(raw.chunks), found0, requested, old(pending).Keys, batchSize);
              && raw.chunks == scan.cache
              && r == RegionOutcome(scan, old(pending))
              && (r.HandedOut? ==> pending == old(pending) + (map k | k in r.batch :: old(nextEvent)))
              && (!r.HandedOut? ==> pending == old(pending))
              && nextEvent == (if r.HandedOut? then old(nextEvent) + 1 else old(nextEvent))
    {
      hide ScanRequested, Awaited;
      var batch, kept, found := Retain(requested, found0, batchSize);
      if batch != [] {
        MarkPending(batch);
        return HandedOut(batch, kept, found);
      }
      var awaited := EventsOf(kept);
      if awaited.None? {
        return Unpending;
      }
      if awaited.value == [] {
        return Served(found);
      }
      r := MustWait(awaited.value, found);
    }

    /** Marks the batch as pending under a new event. */
    method MarkPending(batch: seq<Key>)
      modifies this
      ensures pending == old(pending) + (map k | k in batch :: old(nextEvent)) && nextEvent == old(nextEvent) + 1
    {
      var event := nextEvent;
      nextEvent := nextEvent + 1;
      for i := 0 to |batch|
        invariant nextEvent == event + 1 && pending == old(pending) + (map k | k in batch[..i] :: event)
      {
        assert batch[..i + 1] == batch[..i] + [batch[i]];
        MarkOne(old(pending), batch[..i], batch[i], event);
        pending := pending[batch[i] := event];
      }
      assert batch[..|batch|] == batch;
    }

    /** The events of keys that should all be pending; `None` is the failed `expect`. */
    method EventsOf(kept: seq<Key>) returns (awaited: Option<seq<(Key, Event)>>)
      ensures awaited.Some? <==> forall k :: k in kept ==> k in pending
      ensures awaited.Some? ==> awaited.value == Awaited(kept, pending)
    {
      var out: seq<(Key, Event)> := [];
      for i := 0 to |kept|
        invariant |out| == i && forall j :: 0 <= j < i ==> kept[j] in pending && out[j] == (kept[j], pending[kept[j]])
      {
        if kept[i] !in pending {
          return None;
        }
        out := out + [(kept[i], pending[kept[i]])];
      }
      awaited := Some(out);
    }

    /** `fulfill`: the check of the count, which is the panic if it fails, and the lock region. */
    method Fulfill(batch: seq<Key>, chunks: seq<bytes>) returns (ok: bool)
      requires raw.Valid()
      modifies this`pending, raw
      ensures raw.Valid()
      ensures ok <==> |batch| == |chunks|
      ensures ok ==> raw.chunks == Run(old(raw.chunks), Inserts(batch, chunks), raw.maxSize)
      ensures ok ==> pending == old(pending) - (set k | k in batch)
      ensures !ok ==> raw.chunks == old(raw.chunks) && pending == old(pending)
    {
      hide Insert, Run, Inserts;
      if |batch| != |chunks| {
        return false;
      }
      ghost var ops := Inserts(batch, chunks);
      for i := 0 to |batch|
        invariant raw.Valid() && pending == old(pending) - (set k | k in batch[..i])
        invariant Run(raw.chunks, ops[i..], raw.maxSize) == Run(old(raw.chunks), ops, raw.maxSize)
      {
        InsertsStep(raw.chunks, batch, chunks, i, raw.maxSize);
        raw.InsertChunk(batch[i], chunks[i]);
        pending := pending - {batch[i]};
      }
      RunNothing(raw.chunks, raw.maxSize);
      assert ops[|batch|..] == [];
      assert batch[..|batch|] == batch;
      ok := true;
    }

    /** The lock region after waiting; `None` is the failed `expect`. */
    method SecondRegion(keys: seq<Key>, found0: map<Key, bytes>) returns (found: Option<map<Key, bytes>>)
      requires raw.Valid()
      modifies raw
      ensures raw.Valid()
      ensures var r := Collect(old(raw.chunks), keys, found0);
              && found.Some? == r.Some?
              && (found.Some? ==> r.value == (raw.chunks, found.value))
    {
      hide Touch;
      var out: map<Key, bytes> := found0;
      for i := 0 to |keys|
        invariant raw.Valid()
        invariant Collect(raw.chunks, keys[i..], out) == Collect(old(raw.chunks), keys, found0)
      {
        assert keys[i..][0] == keys[i] && keys[i..][1..] == keys[i + 1..];
        var chunk := raw.Get(keys[i]);
        if chunk.None? {
          return None;
        }
        out := out[keys[i] := chunk.value];
      }
      found := Some(out);
    }
  }
}

/** Any number of tasks sharing one cache: the steps they interleave, and what every run keeps. */
module FetchProtocol {
  import opened Bytes
  import opened ChunkLists
  import opened Lru
  import opened LruSurvival
  import opened CacheRegions
  import CacheFile
  import Dedup

  type TaskId = nat

  datatype Panic = NotPending | WrongChunkCount | NotCached | Poisoned

  /** Where a task is in `fetch_chunk_batch`. */
  datatype Task =
    | Ready(requested: seq<Key>, found: map<Key, bytes>)
    | Fetching(event: Event, batch: seq<Key>, requested: seq<Key>, found: map<Key, bytes>)
    | Waiting(awaited: seq<(Key, Event)>, found: map<Key, bytes>)
    | Failed
    | Panicked(why: Panic)

  /**
   * `open` holds the batches handed out and not fulfilled; `owner` and `log` only record history. A panic under the
   * lock poisons it.
   */
  datatype State = State(
    cache: seq<Entry>,
    pending: map<Key, Event>,
    open: map<Event, seq<Key>>,
    nextEvent: Event,
    tasks: map<TaskId, Task>,
    owner: map<Event, TaskId>,
    log: seq<Op>,
    poisoned: bool)

  datatype Config = Config(hash: Hash, max: nat, batchSize: nat)

  datatype Step =
    | Prefetch(t: TaskId, keys: seq<Key>)
    | Lock(t: TaskId)
    | Fulfill(t: TaskId, chunks: seq<bytes>)
    | Abort(t: TaskId)
    | Relock(t: TaskId)

  predicate Closed(s: State, e: Event) {
    e < s.nextEvent && e !in s.open
  }

  function KeysOf(awaited: seq<(Key, Event)>): seq<Key> {
    seq(|awaited|, i requires 0 <= i < |awaited| => awaited[i].0)
  }

  /** The chunks received match the hashes of the batch, as far as both go. */
  predicate HashesMatch(h: Hash, batch: seq<Key>, chunks: seq<bytes>) {
    forall i :: 0 <= i < |batch| && i < |chunks| ==> h(chunks[i]) == batch[i]
  }

  predicate Enabled(c: Config, s: State, step: Step) {
    match step
    case Prefetch(t, _) => t !in s.tasks || s.tasks[t].Ready?
    case Lock(t) => t in s.tasks && s.tasks[t].Ready?
    case Fulfill(t, chunks) => t in s.tasks && s.tasks[t].Fetching? && HashesMatch(c.hash, s.tasks[t].batch, chunks)
    case Abort(t) => t in s.tasks && (s.tasks[t].Ready? || s.tasks[t].Fetching? || s.tasks[t].Waiting?)
    case Relock(t) =>
      t in s.tasks && s.tasks[t].Waiting? &&
      forall i :: 0 <= i < |s.tasks[t].awaited| ==> Closed(s, s.tasks[t].awaited[i].1)
  }

  function Add(found: map<Key, bytes>, batch: seq<Key>, chunks: seq<bytes>): map<Key, bytes>
    requires |batch| == |chunks|
    decreases |batch|
  {
    if batch == [] then found else Add(found[batch[0] := chunks[0]], batch[1..], chunks[1..])
  }

  /** Taking a poisoned lock panics. */
  function LockedOut(s: State, t: TaskId): State {
    s.(tasks := s.tasks[t := Panicked(Poisoned)])
  }

  /** The first lock region of `get_chunks_batched`. */
  function DoLock(c: Config, s: State, t: TaskId): State
    requires Enabled(c, s, Lock(t))
  {
    var task := s.tasks[t];
    var scan := ScanRequested(s.cache, task.found, task.requested, s.pending.Keys, c.batchSize);
    var s' := s.(cache := scan.cache, log := s.log + Uses(task.requested));
    match RegionOutcome(scan, s.pending)
    case HandedOut(batch, kept, found) =>
      s'.(pending := s.pending + (map k | k in batch :: s.nextEvent),
          open := s.open[s.nextEvent := batch],
          owner := s.owner[s.nextEvent := t],
          nextEvent := s.nextEvent + 1,
          tasks := s.tasks[t := Fetching(s.nextEvent, batch, kept, found)])
    case Unpending => s'.(tasks := s.tasks[t := Panicked(NotPending)], poisoned := true)
    case Served(found) => s'.(tasks := s.tasks[t := Ready([], found)])
    case MustWait(awaited, found) => s'.(tasks := s.tasks[t := Waiting(awaited, found)])
  }

  function DoFulfill(c: Config, s: State, t: TaskId, chunks: seq<bytes>): State
    requires Enabled(c, s, Fulfill(t, chunks))
  {
    var task := s.tasks[t];
    if |chunks| != |task.batch| then s.(tasks := s.tasks[t := Panicked(WrongChunkCount)])
    else if s.poisoned then LockedOut(s, t)
    else
      var ops := Inserts(task.batch, chunks);
      s.(cache := Run(s.cache, ops, c.max),
         log := s.log + ops,
         pending := s.pending - (set k | k in task.batch),
         open := s.open - {task.event},
         tasks := s.tasks[t := Ready(task.requested, Add(task.found, task.batch, chunks))])
  }

  /** The lock region after every awaited event was closed. */
  function DoRelock(c: Config, s: State, t: TaskId): State
    requires Enabled(c, s, Relock(t))
  {
    var task := s.tasks[t];
    var keys := KeysOf(task.awaited);
    match Collect(s.cache, keys, task.found)
    case None => s.(tasks := s.tasks[t := Panicked(NotCached)], poisoned := true)
    case Some((cache, found)) =>
      s.(cache := cache, log := s.log + Uses(keys), tasks := s.tasks[t := Ready([], found)])
  }

  function Do(c: Config, s: State, step: Step): State
    requires Enabled(c, s, step)
  {
    match step
    case Prefetch(t, keys) =>
      var task := if t in s.tasks then s.tasks[t] else Ready([], map[]);
      s.(tasks := s.tasks[t := Ready(task.requested + keys, task.found)])
    case Lock(t) => if s.poisoned then LockedOut(s, t) else DoLock(c, s, t)
    case Fulfill(t, chunks) => DoFulfill(c, s, t, chunks)
    case Abort(t) => s.(tasks := s.tasks[t := Failed])
    case Relock(t) => if s.poisoned then LockedOut(s, t) else DoRelock(c, s, t)
  }

  const INITIAL: State := State([], map[], map[], 0, map[], map[], [], false)

  /** The state after a run of steps, each taken when enabled. */
  function After(c: Config, s: State, steps: seq<Step>): Option<State>
    decreases |steps|
  {
    if steps == [] then Some(s)
    else if !Enabled(c, s, steps[0]) then None
    else After(c, Do(c, s, steps[0]), steps[1..])
  }

  // ----- What every run keeps

  /** The cache is bounded, duplicate-free, content-valid, and the outcome of the logged operations, as are those. */
  ghost predicate CacheInv(c: Config, cache: seq<Entry>, log: seq<Op>) {
    && Distinct(cache) && Size(cache) <= c.max
    && (forall e :: e in cache ==> c.hash(e.chunk) == e.key)
    && cache == Run([], log, c.max)
    && CacheFile.InsertsHash(c.hash, log)
  }

  /** Pending keys are exactly the keys of the open batches, which are duplicate-free and disjoint, and not cached. */
  ghost predicate PendingInv(cache: seq<Entry>, pending: map<Key, Event>, open: map<Event, seq<Key>>,
                             nextEvent: Event) {
    && (forall e :: e in open ==> e < nextEvent && NoDuplicates(open[e]))
    && (forall e, k :: e in open && k in open[e] ==> k in pending && pending[k] == e)
    && (forall k :: k in pending ==> pending[k] in open && k in open[pending[k]] && !Has(cache, k))
  }

  ghost predicate Valid(h: Hash, found: map<Key, bytes>) {
    forall k :: k in found ==> h(found[k]) == k
  }

  ghost predicate LoggedInsert(log: seq<Op>, k: Key) {
    exists i :: 0 <= i < |log| && log[i].Ins? && log[i].key == k
  }

  /** An awaited event is open and brings the key, or was closed after the key was inserted. */
  ghost predicate AwaitOk(a: (Key, Event), open: map<Event, seq<Key>>, nextEvent: Event, log: seq<Op>) {
    && a.1 < nextEvent
    && (if a.1 in open then a.0 in open[a.1] else LoggedInsert(log, a.0))
  }

  /** Chunks handed to a task are content-valid, a fetching task owns its batch, a waiting task waits for something. */
  ghost predicate TaskOk(c: Config, t: TaskId, task: Task, open: map<Event, seq<Key>>, owner: map<Event, TaskId>,
                         nextEvent: Event, log: seq<Op>) {
    match task
    case Ready(_, found) => Valid(c.hash, found)
    case Fetching(e, batch, _, found) =>
      Valid(c.hash, found) && e in open && open[e] == batch && e in owner && owner[e] == t
    case Waiting(awaited, found) =>
      Valid(c.hash, found) && forall a :: a in awaited ==> AwaitOk(a, open, nextEvent, log)
    case Failed => true
    case Panicked(why) => why == NotPending ==> c.batchSize == 0
  }

  /** The owner of an open batch is fetching it, or gone. */
  predicate OwnerOk(e: Event, owner: map<Event, TaskId>, tasks: map<TaskId, Task>) {
    && e in owner && owner[e] in tasks
    && var task := tasks[owner[e]];
       task.Failed? || task.Panicked? || (task.Fetching? && task.event == e)
  }

  ghost predicate TaskInv(c: Config, tasks: map<TaskId, Task>, open: map<Event, seq<Key>>, owner: map<Event, TaskId>,
                          nextEvent: Event, log: seq<Op>) {
    && (forall t :: t in tasks ==> TaskOk(c, t, tasks[t], open, owner, nextEvent, log))
    && (forall e :: e in open ==> OwnerOk(e, owner, tasks))
  }

  ghost predicate Inv(c: Config, s: State) {
    && CacheInv(c, s.cache, s.log)
    && PendingInv(s.cache, s.pending, s.open, s.nextEvent)
    && TaskInv(c, s.tasks, s.open, s.owner, s.nextEvent, s.log)
  }

  // ----- Each step keeps it

  lemma LogGrows(log: seq<Op>, more: seq<Op>, k: Key)
    requires LoggedInsert(log, k)
    ensures LoggedInsert(log + more, k)
  {
    var i :| 0 <= i < |log| && log[i].Ins? && log[i].key == k;
    assert (log + more)[i] == log[i];
  }

  lemma TaskOkLater(c: Config, t: TaskId, task: Task, open: map<Event, seq<Key>>, owner: map<Event, TaskId>,
                    nextEvent: Event, log: seq<Op>, more: seq<Op>)
    requires TaskOk(c, t, task, open, owner, nextEvent, log)
    ensures TaskOk(c, t, task, open, owner, nextEvent, log + more)
  {
    if task.Waiting? {
      forall a | a in task.awaited ensures AwaitOk(a, open, nextEvent, log + more) {
        assert AwaitOk(a, open, nextEvent, log);
        if a.1 !in open { LogGrows(log, more, a.0); }
      }
    }
  }

  /** One task moves on without touching any batch. */
  lemma OneTaskMoves(c: Config, s: State, t: TaskId, task: Task, more: seq<Op>)
    requires TaskInv(c, s.tasks, s.open, s.owner, s.nextEvent, s.log)
    requires TaskOk(c, t, task, s.open, s.owner, s.nextEvent, s.log + more)
    requires t in s.tasks && !s.tasks[t].Ready? && !s.tasks[t].Waiting? ==> task.Failed? || task.Panicked?
    ensures TaskInv(c, s.tasks[t := task], s.open, s.owner, s.nextEvent, s.log + more)
  {
    hide TaskOk;
    forall u | u in s.tasks && u != t
      ensures TaskOk(c, u, s.tasks[u], s.open, s.owner, s.nextEvent, s.log + more)
    {
      TaskOkLater(c, u, s.tasks[u], s.open, s.owner, s.nextEvent, s.log, more);
    }
  }

  lemma PrefetchKeeps(c: Config, s: State, t: TaskId, keys: seq<Key>)
    requires Inv(c, s) && Enabled(c, s, Prefetch(t, keys))
    ensures Inv(c, Do(c, s, Prefetch(t, keys)))
  {
    hide PendingInv, CacheInv;
    assert s.log + [] == s.log;
    assert t in s.tasks ==> TaskOk(c, t, s.tasks[t], s.open, s.owner, s.nextEvent, s.log);
    OneTaskMoves(c, s, t, Do(c, s, Prefetch(t, keys)).tasks[t], []);
  }

  lemma AbortKeeps(c: Config, s: State, t: TaskId)
    requires Inv(c, s) && Enabled(c, s, Abort(t))
    ensures Inv(c, Do(c, s, Abort(t)))
  {
    hide PendingInv, CacheInv, TaskInv;
    assert s.log + [] == s.log;
    OneTaskMoves(c, s, t, Failed, []);
  }

  /** Reordering the cache by lookups keeps its invariant and what is not cached. */
  lemma CacheReordered(c: Config, s: State, cache: seq<Entry>, ops: seq<Op>)
    requires CacheInv(c, s.cache, s.log) && PendingInv(s.cache, s.pending, s.open, s.nextEvent)
    requires Distinct(cache) && Size(cache) == Size(s.cache) && cache == Run(s.cache, ops, c.max)
    requires forall op :: op in ops ==> op.Use?
    requires forall e :: e in cache <==> e in s.cache
    ensures CacheInv(c, cache, s.log + ops) && PendingInv(cache, s.pending, s.open, s.nextEvent)
    ensures forall k :: Has(cache, k) <==> Has(s.cache, k)
  {
    hide Run;
    RunConcat([], s.log, ops, c.max);
  }

  lemma RelockKeeps(c: Config, s: State, t: TaskId)
    requires Inv(c, s) && Enabled(c, s, Relock(t))
    ensures Inv(c, DoRelock(c, s, t))
  {
    hide Collect, PendingInv, Run;
    var task := s.tasks[t];
    var keys := KeysOf(task.awaited);
    CollectExact(s.cache, keys, task.found, c.max);
    assert TaskOk(c, t, task, s.open, s.owner, s.nextEvent, s.log);
    match Collect(s.cache, keys, task.found)
    case None =>
      assert s.log + [] == s.log;
      OneTaskMoves(c, s, t, Panicked(NotCached), []);
    case Some((cache, found)) =>
      CacheReordered(c, s, cache, Uses(keys));
      OneTaskMoves(c, s, t, Ready([], found), Uses(keys));
  }

  lemma LockKeeps(c: Config, s: State, t: TaskId)
    requires Inv(c, s) && Enabled(c, s, Lock(t))
    ensures Inv(c, DoLock(c, s, t))
  {
    hide ScanRequested, PendingInv, Run, DoLock;
    var task := s.tasks[t];
    var scan := ScanRequested(s.cache, task.found, task.requested, s.pending.Keys, c.batchSize);
    ScanResult(s.cache, task.found, task.requested, s.pending.Keys, c.batchSize, c.max);
    assert TaskOk(c, t, task, s.open, s.owner, s.nextEvent, s.log);
    CacheReordered(c, s, scan.cache, Uses(task.requested));
    if scan.batch != [] {
      HandOut(c, s, t, scan);
    } else {
      NothingToHandOut(c, s, t, scan);
    }
  }

  /** Without a batch the task is served, or waits for keys that are all pending. */
  lemma NothingToHandOut(c: Config, s: State, t: TaskId, scan: Scan)
    requires Inv(c, s) && Enabled(c, s, Lock(t))
    requires scan == ScanRequested(s.cache, s.tasks[t].found, s.tasks[t].requested, s.pending.Keys, c.batchSize)
    requires scan.batch == [] && Valid(c.hash, scan.found)
    requires c.batchSize > 0 ==> forall k :: k in scan.kept ==> k in s.pending
    requires CacheInv(c, scan.cache, s.log + Uses(s.tasks[t].requested))
    requires PendingInv(scan.cache, s.pending, s.open, s.nextEvent)
    ensures Inv(c, DoLock(c, s, t))
  {
    hide ScanRequested, CacheInv, TaskInv;
    var task', log' := DoLock(c, s, t).tasks[t], s.log + Uses(s.tasks[t].requested);
    assert TaskOk(c, t, task', s.open, s.owner, s.nextEvent, log') by {
      hide PendingInv;
      WaitersAwaitPending(s, scan.kept, log');
    }
    OneTaskMoves(c, s, t, task', Uses(s.tasks[t].requested));
  }

  lemma WaitersAwaitPending(s: State, kept: seq<Key>, log: seq<Op>)
    requires PendingInv(s.cache, s.pending, s.open, s.nextEvent)
    ensures forall k :: k in kept && k in s.pending ==> AwaitOk((k, s.pending[k]), s.open, s.nextEvent, log)
  {}

  /** Handing out a batch of new keys under a new event. */
  lemma HandOut(c: Config, s: State, t: TaskId, scan: Scan)
    requires Inv(c, s) && Enabled(c, s, Lock(t))
    requires scan == ScanRequested(s.cache, s.tasks[t].found, s.tasks[t].requested, s.pending.Keys, c.batchSize)
    requires NoDuplicates(scan.batch) && scan.batch != [] && Valid(c.hash, scan.found)
    requires forall k :: k in scan.batch ==> k !in s.pending && !Has(s.cache, k)
    requires forall k :: Has(scan.cache, k) <==> Has(s.cache, k)
    requires CacheInv(c, scan.cache, s.log + Uses(s.tasks[t].requested))
    ensures Inv(c, DoLock(c, s, t))
  {
    hide ScanRequested, CacheInv, TaskOk, PendingInv, NoDuplicates, Has, Valid;
    var s', more := DoLock(c, s, t), Uses(s.tasks[t].requested);
    HandOutPending(s.cache, s.pending, s.open, s.nextEvent, scan.cache, scan.batch);
    forall u | u in s'.tasks ensures TaskOk(c, u, s'.tasks[u], s'.open, s'.owner, s'.nextEvent, s'.log) {
      if u == t {
        FetchingOk(c, t, s'.tasks[t], s'.open, s'.owner, s'.nextEvent, s'.log);
      } else {
        TaskOkLater(c, u, s.tasks[u], s.open, s.owner, s.nextEvent, s.log, more);
        NewBatchIrrelevant(c, u, s.tasks[u], s.open, s.owner, s.nextEvent, s'.log, scan.batch, t);
      }
    }
    assert s.nextEvent !in s.open;
  }

  lemma HandOutPending(cache: seq<Entry>, pending: map<Key, Event>, open: map<Event, seq<Key>>, nextEvent: Event,
                       cache': seq<Entry>, batch: seq<Key>)
    requires PendingInv(cache, pending, open, nextEvent) && NoDuplicates(batch)
    requires forall k :: k in batch ==> k !in pending && !Has(cache, k)
    requires forall k :: Has(cache', k) <==> Has(cache, k)
    ensures forall e :: e in open ==> e < nextEvent
    ensures PendingInv(cache', pending + (map k | k in batch :: nextEvent), open[nextEvent := batch], nextEvent + 1)
  {
    hide Has, NoDuplicates;
  }

  lemma FetchingOk(c: Config, t: TaskId, task: Task, open: map<Event, seq<Key>>, owner: map<Event, TaskId>,
                   nextEvent: Event, log: seq<Op>)
    requires task.Fetching? && Valid(c.hash, task.found)
    requires task.event in open && open[task.event] == task.batch && task.event in owner && owner[task.event] == t
    ensures TaskOk(c, t, task, open, owner, nextEvent, log)
  {}

  lemma NewBatchIrrelevant(c: Config, u: TaskId, task: Task, open: map<Event, seq<Key>>, owner: map<Event, TaskId>,
                           nextEvent: Event, log: seq<Op>, batch: seq<Key>, t: TaskId)
    requires TaskOk(c, u, task, open, owner, nextEvent, log)
    requires forall e :: e in open ==> e < nextEvent
    ensures TaskOk(c, u, task, open[nextEvent := batch], owner[nextEvent := t], nextEvent + 1, log)
  {
    if task.Waiting? {
      forall a | a in task.awaited ensures AwaitOk(a, open[nextEvent := batch], nextEvent + 1, log) {
        assert AwaitOk(a, open, nextEvent, log);
      }
    }
  }

  lemma {:induction false} AddFinds(h: Hash, found: map<Key, bytes>, batch: seq<Key>, chunks: seq<bytes>)
    requires |batch| == |chunks| && HashesMatch(h, batch, chunks) && Valid(h, found)
    ensures Valid(h, Add(found, batch, chunks))
    ensures Add(found, batch, chunks).Keys == found.Keys + (set k | k in batch)
    decreases |batch|
  {
    if batch != [] {
      assert batch == [batch[0]] + batch[1..];
      AddFinds(h, found[batch[0] := chunks[0]], batch[1..], chunks[1..]);
    }
  }

  lemma FulfillPending(c: Config, s: State, e: Event, cache': seq<Entry>, chunks: seq<bytes>)
    requires PendingInv(s.cache, s.pending, s.open, s.nextEvent) && e in s.open && |chunks| == |s.open[e]|
    requires forall x :: x in cache' ==>
               x in s.cache || exists i :: 0 <= i < |chunks| && x == Entry(s.open[e][i], chunks[i])
    ensures PendingInv(cache', s.pending - (set k | k in s.open[e]), s.open - {e}, s.nextEvent)
  {
    hide NoDuplicates;
    var batch := s.open[e];
    forall e', k | e' in s.open && e' != e && k in s.open[e'] ensures k !in batch {
      assert s.pending[k] == e';
    }
    forall k | k in s.pending && k !in batch ensures !Has(cache', k) {
      assert !Has(s.cache, k);
      assert forall x :: x in cache' && x.key == k ==> x in s.cache;
    }
  }

  lemma FulfilledForOthers(c: Config, u: TaskId, task: Task, s: State, e: Event, ops: seq<Op>)
    requires TaskOk(c, u, task, s.open, s.owner, s.nextEvent, s.log)
    requires task.Fetching? ==> task.event != e
    requires e in s.open && forall k :: k in s.open[e] ==> LoggedInsert(s.log + ops, k)
    ensures TaskOk(c, u, task, s.open - {e}, s.owner, s.nextEvent, s.log + ops)
  {
    hide LoggedInsert;
    if task.Waiting? {
      forall a | a in task.awaited ensures AwaitOk(a, s.open - {e}, s.nextEvent, s.log + ops) {
        assert AwaitOk(a, s.open, s.nextEvent, s.log);
        if a.1 !in s.open { LogGrows(s.log, ops, a.0); }
      }
    }
  }

  lemma BatchIsLogged(log: seq<Op>, batch: seq<Key>, chunks: seq<bytes>)
    requires |batch| == |chunks|
    ensures forall k :: k in batch ==> LoggedInsert(log + Inserts(batch, chunks), k)
  {
    forall k | k in batch ensures LoggedInsert(log + Inserts(batch, chunks), k) {
      var i :| 0 <= i < |batch| && batch[i] == k;
      assert (log + Inserts(batch, chunks))[|log| + i] == Ins(k, chunks[i]);
    }
  }

  lemma FulfillKeeps(c: Config, s: State, t: TaskId, chunks: seq<bytes>)
    requires Inv(c, s) && Enabled(c, s, Fulfill(t, chunks))
    ensures Inv(c, DoFulfill(c, s, t, chunks))
  {
    hide CacheInv, PendingInv, TaskOk;
    var task := s.tasks[t];
    if |chunks| != |task.batch| {
      assert s.log + [] == s.log;
      PanickedOk(c, s, t, WrongChunkCount, []);
      OneTaskMoves(c, s, t, Panicked(WrongChunkCount), []);
    } else if s.poisoned {
      LockedOutKeeps(c, s, t);
    } else {
      var s', e, ops := DoFulfill(c, s, t, chunks), task.event, Inserts(task.batch, chunks);
      FetchingFacts(c, s, t);
      FulfillCache(c, s, t, chunks);
      FulfillPending(c, s, e, s'.cache, chunks);
      BatchIsLogged(s.log, task.batch, chunks);
      AddFinds(c.hash, task.found, task.batch, chunks);
      ReadyOk(c, s', t);
      forall u | u in s.tasks && u != t ensures TaskOk(c, u, s.tasks[u], s'.open, s.owner, s.nextEvent, s'.log) {
        if s.tasks[u].Fetching? { FetchingFacts(c, s, u); }
        FulfilledForOthers(c, u, s.tasks[u], s, e, ops);
      }
    }
  }

  lemma LockedOutKeeps(c: Config, s: State, t: TaskId)
    requires Inv(c, s)
    ensures Inv(c, LockedOut(s, t))
  {
    hide CacheInv, PendingInv, TaskOk, TaskInv;
    assert s.log + [] == s.log;
    PanickedOk(c, s, t, Poisoned, []);
    OneTaskMoves(c, s, t, Panicked(Poisoned), []);
  }

  lemma PanickedOk(c: Config, s: State, t: TaskId, why: Panic, more: seq<Op>)
    requires why != NotPending
    ensures TaskOk(c, t, Panicked(why), s.open, s.owner, s.nextEvent, s.log + more)
  {}

  lemma ReadyOk(c: Config, s: State, t: TaskId)
    requires t in s.tasks && s.tasks[t].Ready? && Valid(c.hash, s.tasks[t].found)
    ensures TaskOk(c, t, s.tasks[t], s.open, s.owner, s.nextEvent, s.log)
  {}

  lemma FetchingFacts(c: Config, s: State, t: TaskId)
    requires TaskInv(c, s.tasks, s.open, s.owner, s.nextEvent, s.log) && t in s.tasks && s.tasks[t].Fetching?
    ensures var task := s.tasks[t];
            && Valid(c.hash, task.found) && task.event in s.open && s.open[task.event] == task.batch
            && task.event in s.owner && s.owner[task.event] == t
  {
    assert TaskOk(c, t, s.tasks[t], s.open, s.owner, s.nextEvent, s.log);
  }

  lemma FulfillCache(c: Config, s: State, t: TaskId, chunks: seq<bytes>)
    requires CacheInv(c, s.cache, s.log) && PendingInv(s.cache, s.pending, s.open, s.nextEvent)
    requires Enabled(c, s, Fulfill(t, chunks)) && |chunks| == |s.tasks[t].batch| && !s.poisoned
    requires s.tasks[t].event in s.open && s.open[s.tasks[t].event] == s.tasks[t].batch
    ensures var s' := DoFulfill(c, s, t, chunks);
            && CacheInv(c, s'.cache, s'.log)
            && forall x :: x in s'.cache ==>
                 x in s.cache || exists i :: 0 <= i < |chunks| && x == Entry(s.tasks[t].batch[i], chunks[i])
  {
    hide Run;
    var batch := s.tasks[t].batch;
    InsertBatch(s.cache, batch, chunks, c.max);
    RunConcat([], s.log, Inserts(batch, chunks), c.max);
  }

  // ----- Safety over every run

  lemma StepKeeps(c: Config, s: State, step: Step)
    requires Inv(c, s) && Enabled(c, s, step)
    ensures Inv(c, Do(c, s, step))
  {
    hide Inv, DoLock, DoFulfill, DoRelock, LockedOut;
    match step
    case Prefetch(t, keys) => PrefetchKeeps(c, s, t, keys);
    case Lock(t) => LockKeeps(c, s, t); LockedOutKeeps(c, s, t);
    case Fulfill(t, chunks) => FulfillKeeps(c, s, t, chunks);
    case Abort(t) => AbortKeeps(c, s, t);
    case Relock(t) => RelockKeeps(c, s, t); LockedOutKeeps(c, s, t);
  }

  lemma {:induction false} RunsKeep(c: Config, s: State, steps: seq<Step>)
    requires Inv(c, s) && After(c, s, steps).Some?
    ensures Inv(c, After(c, s, steps).value)
    decreases |steps|
  {
    hide Inv, Enabled, Do;
    if steps != [] {
      StepKeeps(c, s, steps[0]);
      RunsKeep(c, Do(c, s, steps[0]), steps[1..]);
    }
  }

  /** The state after `load_from_file`; the insertions that rebuilt the cache are its history. */
  ghost function Loaded(c: Config, file: bytes): State
    requires CacheFile.ReadCache(c.hash, file, c.max).Some?
  {
    INITIAL.(cache := CacheFile.ReadCache(c.hash, file, c.max).value,
             log := CacheFile.LoadOps(c.hash, file[4..], ReadLe32(file[..4])))
  }

  /** The cache starts empty or from any file that can be read. */
  ghost predicate Starts(c: Config, s: State) {
    s == INITIAL || exists file :: CacheFile.ReadCache(c.hash, file, c.max).Some? && s == Loaded(c, file)
  }

  lemma StartsInv(c: Config, s: State)
    requires Starts(c, s)
    ensures Inv(c, s)
  {
    hide Run, CacheFile.ReadEntries, CacheFile.LoadOps, ReadLe32;
    if s != INITIAL {
      var file :| CacheFile.ReadCache(c.hash, file, c.max).Some? && s == Loaded(c, file);
      CacheFile.LoadingInserts(c.hash, file[4..], ReadLe32(file[..4]), [], c.max);
      CacheFile.InsertsKeep(c.hash, [], s.log, c.max);
    }
    RunNothing([], c.max);
  }

  /** Every interleaving keeps the invariant, from the empty cache and from every loaded one. */
  lemma ReachableInv(c: Config, s: State, steps: seq<Step>)
    requires Starts(c, s) && After(c, s, steps).Some?
    ensures Inv(c, After(c, s, steps).value)
  {
    hide After, Inv, Starts;
    StartsInv(c, s);
    RunsKeep(c, s, steps);
  }

  /** Two batches out at the same time share no key, and no batch repeats one. */
  lemma OpenBatchesDisjoint(c: Config, s: State, e: Event, e': Event)
    requires Inv(c, s) && e in s.open && e' in s.open
    ensures NoDuplicates(s.open[e])
    ensures e != e' ==> forall k :: k in s.open[e] ==> k !in s.open[e']
    ensures forall k :: k in s.open[e] ==> k in s.pending && !Has(s.cache, k)
  {
    hide CacheInv, TaskInv, Has;
    forall k | k in s.open[e] && k in s.open[e'] ensures e == e' {
      assert s.pending[k] == e && s.pending[k] == e';
    }
  }

  /** The "Remaining chunk is not pending" panic: never with a positive batch size, and exactly when otherwise. */
  lemma NotPendingPanicExact(c: Config, s: State, t: TaskId)
    requires Inv(c, s) && Enabled(c, s, Lock(t))
    ensures DoLock(c, s, t).tasks[t] == Panicked(NotPending) <==>
            c.batchSize == 0 && exists k :: k in s.tasks[t].requested && !Has(s.cache, k) && k !in s.pending
  {
    hide ScanRequested, PendingInv, TaskInv, Run, RegionOutcome, Has;
    UnpendingExact(s.cache, s.tasks[t].found, s.tasks[t].requested, s.pending, c.batchSize);
  }

  lemma UnpendingExact(cache: seq<Entry>, found: map<Key, bytes>, keys: seq<Key>, pending: map<Key, Event>,
                       batchSize: nat)
    requires Distinct(cache)
    ensures RegionOutcome(ScanRequested(cache, found, keys, pending.Keys, batchSize), pending) == Unpending <==>
            batchSize == 0 && exists k :: k in keys && !Has(cache, k) && k !in pending
  {
    hide ScanRequested, Run, Has;
    var scan := ScanRequested(cache, found, keys, pending.Keys, batchSize);
    ScanResult(cache, found, keys, pending.Keys, batchSize, 0);
    if k :| batchSize == 0 && k in keys && !Has(cache, k) && k !in pending {
      assert k in scan.kept;
    }
  }

  /** Fulfilling inserts every key of its batch exactly once: none is cached when its turn comes. */
  lemma FulfillNeverReplaces(c: Config, s: State, t: TaskId, chunks: seq<bytes>, i: nat)
    requires Inv(c, s) && Enabled(c, s, Fulfill(t, chunks))
    requires |chunks| == |s.tasks[t].batch| && i < |chunks|
    ensures !Has(Run(s.cache, Inserts(s.tasks[t].batch, chunks)[..i], c.max), s.tasks[t].batch[i])
  {
    hide Run;
    FetchingFacts(c, s, t);
    InsertBatch(s.cache, s.tasks[t].batch, chunks, c.max);
  }

  // ----- Waiting

  /** `t` waits for a batch that `u` was handed. */
  ghost predicate WaitsFor(s: State, t: TaskId, u: TaskId) {
    && t in s.tasks && s.tasks[t].Waiting?
    && exists a :: a in s.tasks[t].awaited && a.1 in s.open && a.1 in s.owner && s.owner[a.1] == u
  }

  /** Whoever is waited for is not waiting itself, so waits never form a cycle or even a chain. */
  lemma WaitsDoNotChain(c: Config, s: State, t: TaskId, u: TaskId, v: TaskId)
    requires Inv(c, s) && WaitsFor(s, t, u)
    ensures !WaitsFor(s, u, v)
    ensures u in s.tasks && (s.tasks[u].Fetching? || s.tasks[u].Failed? || s.tasks[u].Panicked?)
  {
    hide CacheInv, PendingInv, TaskOk;
    var a :| a in s.tasks[t].awaited && a.1 in s.open && a.1 in s.owner && s.owner[a.1] == u;
    assert OwnerOk(a.1, s.owner, s.tasks);
  }

  /** A batch whose owner is gone. */
  ghost predicate Orphaned(s: State, e: Event, keys: seq<Key>) {
    && e in s.open && s.open[e] == keys && e in s.owner && s.owner[e] in s.tasks
    && (s.tasks[s.owner[e]].Failed? || s.tasks[s.owner[e]].Panicked?)
  }

  /** Every event a task waits for is closed, being fetched by its owner right now, or orphaned. */
  lemma WaitersAreServed(c: Config, s: State, t: TaskId, a: (Key, Event))
    requires Inv(c, s) && t in s.tasks && s.tasks[t].Waiting? && a in s.tasks[t].awaited
    ensures Closed(s, a.1) || (a.1 in s.open && a.0 in s.open[a.1])
    ensures a.1 in s.open ==>
              || Orphaned(s, a.1, s.open[a.1])
              || exists u :: WaitsFor(s, t, u) && u in s.tasks && s.tasks[u].Fetching? && s.tasks[u].event == a.1
  {
    hide CacheInv, PendingInv;
    assert TaskOk(c, t, s.tasks[t], s.open, s.owner, s.nextEvent, s.log);
    assert AwaitOk(a, s.open, s.nextEvent, s.log);
    if a.1 in s.open {
      assert OwnerOk(a.1, s.owner, s.tasks);
      assert WaitsFor(s, t, s.owner[a.1]);
    }
  }

  lemma OrphanStays(c: Config, s: State, step: Step, e: Event, keys: seq<Key>)
    requires Inv(c, s) && Enabled(c, s, step) && Orphaned(s, e, keys)
    ensures Orphaned(Do(c, s, step), e, keys)
  {
    hide CacheInv, ScanRequested, Collect, Run, TaskOk;
    assert e < s.nextEvent;
    if step.Fulfill? {
      FetchingFacts(c, s, step.t);
    }
  }

  /**
   * An error between taking a batch and fulfilling it is never repaired: in every later state its keys are pending
   * and not cached, and whoever waits for it is never woken.
   */
  lemma {:induction false} OrphanForever(c: Config, s: State, steps: seq<Step>, e: Event, keys: seq<Key>)
    requires Inv(c, s) && Orphaned(s, e, keys) && After(c, s, steps).Some?
    ensures var s' := After(c, s, steps).value;
            && Orphaned(s', e, keys)
            && (forall k :: k in keys ==> k in s'.pending && !Has(s'.cache, k))
            && (forall t :: t in s'.tasks && s'.tasks[t].Waiting? ==>
                  (exists a :: a in s'.tasks[t].awaited && a.1 == e) ==> !Enabled(c, s', Relock(t)))
    decreases |steps|
  {
    hide CacheInv, TaskInv, Do, TaskOk;
    if steps != [] {
      StepKeeps(c, s, steps[0]);
      OrphanStays(c, s, steps[0], e, keys);
      OrphanForever(c, Do(c, s, steps[0]), steps[1..], e, keys);
    }
  }

  /** Aborting while a batch is being fetched is what orphans it. */
  lemma AbortOrphans(c: Config, s: State, t: TaskId)
    requires Inv(c, s) && Enabled(c, s, Abort(t)) && s.tasks[t].Fetching?
    ensures Orphaned(Do(c, s, Abort(t)), s.tasks[t].event, s.tasks[t].batch)
  {
    FetchingFacts(c, s, t);
  }

  /** Since its last use, everything else that was inserted or found in the cache leaves room for `k`. */
  ghost predicate RoomFor(log: seq<Op>, k: Key, max: nat, sizes: Sizes) {
    forall i :: 0 <= i < |log| && log[i].key == k && k !in UsedKeys(log[i + 1..]) ==>
      sizes(k) + Total(sizes, UsedKeys(log[i + 1..])) <= max
  }

  lemma LastUse(log: seq<Op>, k: Key) returns (i: nat)
    requires k in UsedKeys(log)
    ensures i < |log| && log[i].key == k && k !in UsedKeys(log[i + 1..])
    decreases |log|
  {
    if k in UsedKeys(log[1..]) {
      var j := LastUse(log[1..], k);
      assert log[1..][j] == log[j + 1] && log[1..][j + 1..] == log[j + 2..];
      i := j + 1;
    } else {
      assert log == [log[0]] + log[1..];
      i := 0;
    }
  }

  /** Every chunk inserted in the history. */
  ghost function LoggedChunks(log: seq<Op>): set<bytes> {
    set op | op in log && op.Ins? :: op.chunk
  }

  /** The size of the chunk that the history inserted under `k`. */
  ghost function SizeIn(log: seq<Op>, k: Key): nat {
    if op :| op in log && op.Ins? && op.key == k then |op.chunk| else 0
  }

  ghost function SizesIn(log: seq<Op>): Sizes {
    (k: Key) => SizeIn(log, k)
  }

  /** As every insertion was checked against its key, sizes are a function of the key short of a collision. */
  lemma HistoryIsSized(c: Config, log: seq<Op>)
    requires CacheFile.InsertsHash(c.hash, log) && Dedup.CollisionFree(c.hash, LoggedChunks(log))
    ensures OpsSized(log, SizesIn(log))
  {
    forall op | op in log && op.Ins? ensures |op.chunk| == SizeIn(log, op.key) {
      var other :| other in log && other.Ins? && other.key == op.key && SizeIn(log, op.key) == |other.chunk|;
      assert op.chunk in LoggedChunks(log) && other.chunk in LoggedChunks(log);
    }
  }

  /** What the history says of `k`: the chunks inserted or found in the cache since its last use leave room for it. */
  ghost predicate HasRoom(c: Config, s: State, k: Key) {
    RoomFor(Hits([], s.log, c.max), k, c.max, SizesIn(s.log))
  }

  /** A key that was inserted is cached exactly when there is room for it. */
  lemma CachedIffRoom(c: Config, s: State, k: Key)
    requires CacheInv(c, s.cache, s.log) && LoggedInsert(s.log, k) && Dedup.CollisionFree(c.hash, LoggedChunks(s.log))
    ensures Has(s.cache, k) <==> HasRoom(c, s, k)
  {
    hide Run, Has, Total, Hits, AllHit, SizesIn;
    var log, sizes := Hits([], s.log, c.max), SizesIn(s.log);
    HistoryIsSized(c, s.log);
    HitsRunAlike([], s.log, c.max);
    var n :| 0 <= n < |s.log| && s.log[n].Ins? && s.log[n].key == k;
    assert s.log[n] in s.log && s.log[n] in log;
    var i := LastUse(log, k);
    ExactSurvival(log, i, c.max, sizes);
    forall j | 0 <= j < |log| && log[j].key == k && k !in UsedKeys(log[j + 1..])
      ensures Has(s.cache, k) <==> sizes(k) + Total(sizes, UsedKeys(log[j + 1..])) <= c.max
    {
      ExactSurvival(log, j, c.max, sizes);
    }
  }

  /** Every key awaited by a task that can go on was inserted. */
  lemma AwaitedWasInserted(c: Config, s: State, t: TaskId, k: Key)
    requires Inv(c, s) && Enabled(c, s, Relock(t)) && k in KeysOf(s.tasks[t].awaited)
    ensures LoggedInsert(s.log, k)
  {
    hide PendingInv, CacheInv, LoggedInsert;
    var awaited, keys := s.tasks[t].awaited, KeysOf(s.tasks[t].awaited);
    assert TaskOk(c, t, s.tasks[t], s.open, s.owner, s.nextEvent, s.log);
    var n :| 0 <= n < |keys| && keys[n] == k;
    assert awaited[n] in awaited && AwaitOk(awaited[n], s.open, s.nextEvent, s.log);
    assert Closed(s, awaited[n].1);
  }

  /**
   * The re-lock after waiting panics exactly when there was no room for an awaited chunk; otherwise it finds them all.
   */
  lemma NotCachedPanicExact(c: Config, s: State, t: TaskId)
    requires Inv(c, s) && Enabled(c, s, Relock(t)) && Dedup.CollisionFree(c.hash, LoggedChunks(s.log))
    ensures var keys, task := KeysOf(s.tasks[t].awaited), DoRelock(c, s, t).tasks[t];
            if forall k :: k in keys ==> HasRoom(c, s, k)
            then task.Ready? && forall k :: k in keys ==> k in task.found
            else task == Panicked(NotCached)
  {
    hide Collect, PendingInv, TaskInv, CacheInv, Run, Has, HasRoom, LoggedInsert;
    var keys := KeysOf(s.tasks[t].awaited);
    forall k | k in keys ensures Has(s.cache, k) <==> HasRoom(c, s, k) {
      AwaitedWasInserted(c, s, t, k);
      CachedIffRoom(c, s, k);
    }
    DistinctCache(c, s);
    CollectExact(s.cache, keys, s.tasks[t].found, c.max);
  }

  lemma DistinctCache(c: Config, s: State)
    requires CacheInv(c, s.cache, s.log)
    ensures Distinct(s.cache)
  {}

  /** A panic under the lock ends the cache for everybody: nothing is cached, handed out or fulfilled any more. */
  lemma {:induction false} PoisonedForever(c: Config, s: State, steps: seq<Step>)
    requires s.poisoned && After(c, s, steps).Some?
    ensures var s' := After(c, s, steps).value;
            s'.poisoned && s'.cache == s.cache && s'.pending == s.pending && s'.open == s.open
    decreases |steps|
  {
    if steps != [] {
      PoisonedForever(c, Do(c, s, steps[0]), steps[1..]);
    }
  }

  lemma AfterFirst(c: Config, s: State, step: Step, rest: seq<Step>)
    requires Enabled(c, s, step)
    ensures After(c, s, [step] + rest) == After(c, Do(c, s, step), rest)
  {
    hide Do, Enabled;
    assert ([step] + rest)[1..] == rest;
  }

  lemma ScanMiss(k: Key, pending: set<Key>, batchSize: nat)
    requires batchSize > 0
    ensures ScanRequested([], map[], [k], pending, batchSize) ==
            if k in pending then Scan([], [], [k], map[]) else Scan([], [k], [], map[])
  {
    var start := StartScan([], map[]);
    assert Lookup([], k) == None;
    assert ScanKeys(start, [k], pending, batchSize) ==
             ScanKeys(ScanKey(start, k, pending, batchSize), [k][1..], pending, batchSize);
  }

  lemma OversizedLeavesNothing(k: Key, chunk: bytes, max: nat)
    requires |chunk| > max
    ensures Run([], Inserts([k], [chunk]), max) == [] && Collect([], [k], map[]).None?
  {
    var ops, e := Inserts([k], [chunk]), Entry(k, chunk);
    assert Without([], k) + [e] == [e] && [e][1..] == [];
    assert Size([e]) == |chunk| && Fit([e], max) == Fit([e][1..], max);
    assert ops[1..] == [] && Apply([], ops[0], max) == [];
    assert Run([], ops, max) == Run([], ops[1..], max);
    assert Lookup([], k) == None;
  }

  lemma FirstIsHandedIt(c: Config, s: State, k: Key)
    requires c.batchSize > 0 && s == INITIAL.(tasks := map[0 := Ready([k], map[])])
    ensures Do(c, s, Lock(0)) ==
            State([], map[k := 0], map[0 := [k]], 1, map[0 := Fetching(0, [k], [], map[])], map[0 := 0], [] + Uses([k]),
              false)
  {
    hide ScanRequested, Uses;
    ScanMiss(k, {}, c.batchSize);
    assert s.pending.Keys == {};
    assert map[] + (map x | x in [k] :: 0) == map[k := 0];
  }

  lemma SecondWaits(c: Config, s: State, k: Key)
    requires c.batchSize > 0 && !s.poisoned && s.cache == [] && s.pending == map[k := 0]
    requires 1 in s.tasks && s.tasks[1] == Ready([k], map[])
    ensures Do(c, s, Lock(1)) == s.(tasks := s.tasks[1 := Waiting([(k, 0)], map[])], log := s.log + Uses([k]))
  {
    hide ScanRequested, Uses;
    ScanMiss(k, {k}, c.batchSize);
    assert s.pending.Keys == {k};
    assert Awaited([k], s.pending) == [(k, 0)];
  }

  lemma FulfilledInVain(c: Config, s: State, k: Key, chunk: bytes)
    requires c.hash(chunk) == k && |chunk| > c.max && !s.poisoned && s.cache == [] && s.open == map[0 := [k]] &&
               s.nextEvent == 1
    requires 0 in s.tasks && s.tasks[0] == Fetching(0, [k], [], map[]) && 1 in s.tasks &&
               s.tasks[1] == Waiting([(k, 0)], map[])
    ensures Enabled(c, s, Fulfill(0, [chunk]))
    ensures var s' := Do(c, s, Fulfill(0, [chunk]));
            && Enabled(c, s', Relock(1))
            && var s'' := Do(c, s', Relock(1));
               1 in s''.tasks && s''.tasks[1] == Panicked(NotCached) && s''.poisoned
  {
    hide Run, Inserts, Collect, Add;
    OversizedLeavesNothing(k, chunk, c.max);
    var s' := Do(c, s, Fulfill(0, [chunk]));
    assert s'.open == map[] && s'.cache == [];
    assert KeysOf([(k, 0)]) == [k];
  }

  /** Two tasks that want the same chunk, when it is larger than the whole cache: the one that waits panics. */
  lemma OversizedChunkPanics(c: Config, k: Key, chunk: bytes)
    requires c.hash(chunk) == k && |chunk| > c.max && c.batchSize > 0
    ensures var steps := [Prefetch(0, [k]), Lock(0), Prefetch(1, [k]), Lock(1), Fulfill(0, [chunk]), Relock(1)];
            var end := After(c, INITIAL, steps);
            end.Some? && 1 in end.value.tasks && end.value.tasks[1] == Panicked(NotCached) && end.value.poisoned
  {
    hide After, DoLock, DoFulfill, DoRelock, Uses;
    assert [] + [k] == [k];
    var s1 := Do(c, INITIAL, Prefetch(0, [k]));
    FirstIsHandedIt(c, s1, k);
    var s2 := Do(c, s1, Lock(0));
    var s3 := Do(c, s2, Prefetch(1, [k]));
    SecondWaits(c, s3, k);
    var s4 := Do(c, s3, Lock(1));
    FulfilledInVain(c, s4, k, chunk);
    var s5 := Do(c, s4, Fulfill(0, [chunk]));
    var r6 := [Relock(1)];
    var r5 := [Fulfill(0, [chunk])] + r6;
    var r4 := [Lock(1)] + r5;
    var r3 := [Prefetch(1, [k])] + r4;
    var r2 := [Lock(0)] + r3;
    assert [Prefetch(0, [k]), Lock(0), Prefetch(1, [k]), Lock(1), Fulfill(0, [chunk]), Relock(1)] ==
             [Prefetch(0, [k])] + r2;
    AfterFirst(c, INITIAL, Prefetch(0, [k]), r2);
    AfterFirst(c, s1, Lock(0), r3);
    AfterFirst(c, s2, Prefetch(1, [k]), r4);
    AfterFirst(c, s3, Lock(1), r5);
    AfterFirst(c, s4, Fulfill(0, [chunk]), r6);
    AfterFirst(c, s5, Relock(1), []);
    assert r6 == r6 + [];
    AfterNothing(c, Do(c, s5, Relock(1)));
  }

  lemma AfterNothing(c: Config, s: State)
    ensures After(c, s, []) == Some(s)
  {}
}
