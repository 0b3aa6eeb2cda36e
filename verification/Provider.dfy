/** Reading a chunk tree through the shared cache and the server, one batch at a time. */
module Provider {
  import opened Bytes
  import opened ChunkLists
  import opened Dedup
  import opened Lru
  import opened CacheRegions
  import opened FetchProtocol

  const BATCH_SIZE: nat := 512

  /**
   * What the other tasks and the server let one round of `fetch_chunk_batch` see: whether the lock is poisoned, the
   * shared cache and the pending table at the first lock, whether the lock is poisoned and the cache at the second one,
   * and the reply to a request (`None` for a transport error).
   */
  datatype Round = Round(
    poisoned: bool,
    cache: seq<Entry>,
    pending: map<Key, Event>,
    poisonedLater: bool,
    woken: seq<Entry>,
    reply: seq<Key> -> Option<seq<bytes>>)

  datatype Fetch =
    | Fetched
    | TransportError
    | HashMismatch
    | WrongCount
    | NotCachedPanic
    | PoisonedPanic
    | NotPrefetched
    | BadList

  /** A round that was made: the batch it requested, or else the keys it awaited. */
  datatype Turn = Turn(round: nat, batch: seq<Key>, kept: seq<Key>)

  /** The reply to a request that the server can answer. */
  function Provide(server: map<Key, bytes>, keys: seq<Key>): Option<seq<bytes>> {
    if exists k :: k in keys && k !in server then None
    else Some(seq(|keys|, i requires 0 <= i < |keys| => server[keys[i]]))
  }

  /** The lookup of a request; `None` is the "chunk that we don't have" error, met exactly for keys outside the map. */
  method ProvideChunks(server: map<Key, bytes>, keys: seq<Key>) returns (reply: Option<seq<bytes>>)
    ensures reply == Provide(server, keys)
    ensures reply.Some? <==> forall k :: k in keys ==> k in server
    ensures reply.Some? ==> |reply.value| == |keys| && forall i :: 0 <= i < |keys| ==> reply.value[i] == server[keys[i]]
  {
    var chunks: seq<bytes> := [];
    for i := 0 to |keys|
      invariant |chunks| == i && forall j :: 0 <= j < i ==> keys[j] in server && chunks[j] == server[keys[j]]
    {
      if keys[i] !in server {
        return None;
      }
      chunks := chunks + [server[keys[i]]];
    }
    assert Provide(server, keys).Some? && Provide(server, keys).value == chunks;
    reply := Some(chunks);
  }

  /** Both cache snapshots are duplicate-free, which the fetch protocol keeps. */
  ghost predicate RoundOk(r: Round) {
    Distinct(r.cache) && Distinct(r.woken)
  }

  /** `content` is every chunk there is, under its hash. An entry is genuine if it is one of them. */
  ghost predicate GenuineEntry(content: map<Key, bytes>, e: Entry) {
    e.key in content && e.chunk == content[e.key]
  }

  /** Cached chunks are genuine, and so are received ones that hash to the key they are received for. */
  ghost predicate Authentic(h: Hash, content: map<Key, bytes>, r: Round) {
    && RoundOk(r)
    && (forall e :: e in r.cache || e in r.woken ==> GenuineEntry(content, e))
    && (forall keys :: r.reply(keys).Some? ==> GenuineReply(h, content, keys, r.reply(keys).value))
  }

  ghost predicate GenuineReply(h: Hash, content: map<Key, bytes>, keys: seq<Key>, chunks: seq<bytes>) {
    forall i :: 0 <= i < |keys| && i < |chunks| && h(chunks[i]) == keys[i] ==>
      keys[i] in content && chunks[i] == content[keys[i]]
  }

  /**
   * The round could do what it set out to do: the lock is sound, the reply to the batch is its chunks, and the keys
   * awaited are still cached at the second lock.
   */
  ghost predicate Succeeds(content: map<Key, bytes>, r: Round, t: Turn) {
    && !r.poisoned
    && (t.batch != [] ==> !r.poisonedLater && r.reply(t.batch).Some? && r.reply(t.batch) == Provide(content, t.batch))
    && (t.batch == [] && t.kept != [] ==> !r.poisonedLater && forall k :: k in t.kept ==> Has(r.woken, k))
  }

  /** The turn that a round takes for what is at hand and queued. */
  function TurnOf(n: nat, r: Round, local: map<Key, bytes>, queued: seq<Key>): Turn {
    if r.poisoned then Turn(n, [], [])
    else
      var scan := ScanRequested(r.cache, local, queued, r.pending.Keys, BATCH_SIZE);
      Turn(n, scan.batch, scan.kept)
  }

  /** Every chunk at hand is genuine. */
  ghost predicate Genuine(content: map<Key, bytes>, local: map<Key, bytes>) {
    forall k :: k in local ==> k in content && local[k] == content[k]
  }

  /** What the first lock region does for a provider: nothing tracked is lost, and the request shrinks. */
  lemma ScanServes(h: Hash, content: map<Key, bytes>, r: Round, local: map<Key, bytes>, keys: seq<Key>)
    requires Authentic(h, content, r) && Genuine(content, local)
    ensures var scan := ScanRequested(r.cache, local, keys, r.pending.Keys, BATCH_SIZE);
            && Genuine(content, scan.found)
            && (forall k :: k in local ==> k in scan.found)
            && (forall k :: k in keys ==> k in scan.found || k in scan.batch || k in scan.kept)
            && (forall k :: k in scan.batch || k in scan.kept ==> k in keys)
            && |scan.kept| + |scan.batch| <= |keys| && |scan.batch| <= 512
            && (|scan.batch| < 512 ==> forall k :: k in scan.kept ==> k in r.pending)
  {
    ScanResult(r.cache, local, keys, r.pending.Keys, BATCH_SIZE, 0);
  }

  lemma CollectServes(content: map<Key, bytes>, woken: seq<Entry>, found: map<Key, bytes>, keys: seq<Key>)
    requires Distinct(woken) && (forall e :: e in woken ==> GenuineEntry(content, e)) && Genuine(content, found)
    ensures Collect(woken, keys, found).Some? <==> forall k :: k in keys ==> Has(woken, k)
    ensures Collect(woken, keys, found).Some? ==>
              var found' := Collect(woken, keys, found).value.1;
              && Genuine(content, found')
              && (forall k :: k in found || k in keys ==> k in found')
  {
    CollectExact(woken, keys, found, 0);
  }

  lemma RoundIsGenuine(h: Hash, content: map<Key, bytes>, r: Round, batch: seq<Key>)
    requires Authentic(h, content, r)
    ensures Distinct(r.woken) && forall e :: e in r.woken ==> GenuineEntry(content, e)
    ensures r.reply(batch).Some? ==> GenuineReply(h, content, batch, r.reply(batch).value)
  {}

  /** A reply passes the checks for a batch exactly if it is the chunks of the batch. */
  lemma CheckedReply(h: Hash, content: map<Key, bytes>, batch: seq<Key>, chunks: seq<bytes>)
    requires HashConsistent(h, content) && GenuineReply(h, content, batch, chunks)
    ensures |chunks| == |batch| && (forall i :: 0 <= i < |batch| ==> h(chunks[i]) == batch[i]) <==>
            Some(chunks) == Provide(content, batch)
  {
    if Some(chunks) == Provide(content, batch) {
      assert forall i :: 0 <= i < |batch| ==> batch[i] in batch && chunks[i] == content[batch[i]];
    }
    if |chunks| == |batch| && forall i :: 0 <= i < |batch| ==> h(chunks[i]) == batch[i] {
      assert forall i :: 0 <= i < |batch| ==> batch[i] in content && chunks[i] == content[batch[i]];
      assert Provide(content, batch).Some? && chunks == Provide(content, batch).value;
    }
  }

  /** `server` has some of the chunks. */
  ghost predicate Submap(server: map<Key, bytes>, content: map<Key, bytes>) {
    forall k :: k in server ==> k in content && content[k] == server[k]
  }

  /** For a batch of its keys, the server's reply is the chunks of the batch. */
  lemma ServerAnswers(server: map<Key, bytes>, content: map<Key, bytes>, batch: seq<Key>)
    requires Submap(server, content) && forall k :: k in batch ==> k in server
    ensures Provide(server, batch).Some? && Provide(server, batch) == Provide(content, batch)
  {
    assert Provide(content, batch).Some?;
    assert Provide(server, batch).value == Provide(content, batch).value;
  }

  lemma MembersSnoc(keys: seq<Key>, key: Key)
    ensures (set k | k in keys + [key]) == (set k | k in keys) + {key}
  {}

  /** Queuing a key that is not at hand tracks one more key. */
  lemma QueueOne(local: set<Key>, queue: seq<Key>, key: Key)
    ensures var queue' := if key in local then queue else queue + [key];
            local + (set k | k in queue') == local + (set k | k in queue) + {key}
  {
    MembersSnoc(queue, key);
  }

  class ChunkFetcherProvider {
    const h: Hash
    ghost const content: map<Key, bytes>
    ghost const server: map<Key, bytes>
    const env: nat -> Round
    var round: nat
    var localCache: map<Key, bytes>
    var pendingChunks: seq<Key>
    ghost var turns: seq<Turn>

    /** Nothing but genuine chunks is at hand. */
    ghost predicate Valid()
      reads this
    {
      && HashConsistent(h, content) && Submap(server, content)
      && Genuine(content, localCache)
      && forall n :: Authentic(h, content, env(n))
    }

    /** The server has everything that is queued or was requested. */
    ghost predicate Known()
      reads this`pendingChunks, this`turns
    {
      && (forall k :: k in pendingChunks ==> k in server)
      && forall t, k :: t in turns && k in t.batch ==> k in server
    }

    /** Every round so far succeeded. */
    ghost predicate Smooth()
      reads this`turns
    {
      forall t :: t in turns ==> Succeeds(content, env(t.round), t)
    }

    /** After success so far, all rounds since succeeded exactly if `ok`. */
    twostate predicate Reports(ok: bool)
      reads this
    {
      old(turns) <= turns && (old(Smooth()) ==> (Smooth() <==> ok))
    }

    /** The keys at hand or queued. */
    ghost function Tracked(): set<Key>
      reads this
    {
      localCache.Keys + (set k | k in pendingChunks)
    }

    constructor (h: Hash, ghost content: map<Key, bytes>, ghost server: map<Key, bytes>, env: nat -> Round)
      requires HashConsistent(h, content) && Submap(server, content) && forall n :: Authentic(h, content, env(n))
      ensures Valid() && Known() && Smooth() && localCache == map[] && pendingChunks == [] && turns == []
      ensures this.h == h && this.content == content && this.server == server && this.env == env
    {
      this.h := h;
      this.content := content;
      this.server := server;
      this.env := env;
      round := 0;
      localCache := map[];
      pendingChunks := [];
      turns := [];
    }

    /** Queues the keys that are not at hand; every key given is tracked from then on. */
    method Prefetch(keys: seq<Key>)
      requires Valid()
      modifies this`pendingChunks
      ensures Valid()
      ensures Tracked() == old(Tracked()) + (set k | k in keys)
      ensures old(Known()) && (forall k :: k in keys ==> k in server) ==> Known()
    {
      hide Authentic, Genuine, Submap, HashConsistent;
      for i := 0 to |keys|
        invariant Valid()
        invariant old(Known()) && (forall k :: k in keys[..i] ==> k in server) ==> Known()
        invariant Tracked() == old(Tracked()) + (set k | k in keys[..i])
      {
        assert keys[..i + 1] == keys[..i] + [keys[i]];
        QueueOne(localCache.Keys, pendingChunks, keys[i]);
        MembersSnoc(keys[..i], keys[i]);
        if keys[i] !in localCache {
          pendingChunks := pendingChunks + [keys[i]];
        }
      }
      assert keys[..|keys|] == keys;
    }

    /** Checks the received chunks against the batch and keeps them, up to the first mismatch. */
    method Receive(batch: seq<Key>, chunks: seq<bytes>) returns (ok: bool)
      requires Valid()
      requires GenuineReply(h, content, batch, chunks)
      modifies this`localCache
      ensures Valid()
      ensures old(Tracked()) <= Tracked()
      ensures old(localCache.Keys) <= localCache.Keys
      ensures ok <==> forall i :: 0 <= i < |batch| && i < |chunks| ==> h(chunks[i]) == batch[i]
      ensures ok && |chunks| >= |batch| ==> forall k :: k in batch ==> k in localCache
    {
      hide Authentic;
      var n := if |batch| < |chunks| then |batch| else |chunks|;
      for i := 0 to n
        invariant Valid()
        invariant old(Tracked()) <= Tracked()
        invariant old(localCache.Keys) <= localCache.Keys
        invariant forall j :: 0 <= j < i ==> h(chunks[j]) == batch[j] && batch[j] in localCache
      {
        if h(chunks[i]) != batch[i] {
          return false;
        }
        localCache := localCache[batch[i] := chunks[i]];
      }
      ok := true;
    }

    /** Serves what the cache has and fetches a batch, or waits for the tasks that are fetching the rest. */
    method FetchChunkBatch() returns (status: Fetch)
      requires Valid()
      modifies this`localCache, this`pendingChunks, this`round, this`turns
      ensures Valid() && status != NotPrefetched && status != BadList
      ensures status == Fetched ==> old(Tracked()) <= Tracked()
      ensures old(localCache.Keys) <= localCache.Keys
      ensures status == Fetched && old(pendingChunks) != [] ==> |pendingChunks| < |old(pendingChunks)|
      ensures turns == old(turns + [TurnOf(round, env(round), localCache, pendingChunks)])
      ensures Reports(status == Fetched) && (old(Known()) ==> Known())
    {
      hide Authentic, Succeeds, ScanRequested, Collect, Genuine, Submap, HashConsistent, Has, Provide;
      var r := env(round);
      ghost var turn := TurnOf(round, r, localCache, pendingChunks);
      turns := turns + [turn];
      round := round + 1;
      TurnSucceeds(content, r, turn);
      if r.poisoned {
        return PoisonedPanic;
      }
      ScanServes(h, content, r, localCache, pendingChunks);
      var scan := ScanRequested(r.cache, localCache, pendingChunks, r.pending.Keys, BATCH_SIZE);
      localCache := scan.found;
      if scan.batch != [] {
        pendingChunks := scan.kept;
        assert Valid();
        status := FetchFromServer(r, scan.batch);
      } else {
        pendingChunks := [];
        if scan.kept != [] {
          if r.poisonedLater {
            return PoisonedPanic;
          }
          RoundIsGenuine(h, content, r, []);
          CollectServes(content, r.woken, scan.found, scan.kept);
          var collected := Collect(r.woken, scan.kept, scan.found);
          if collected.None? {
            return NotCachedPanic;
          }
          localCache := collected.value.1;
        }
        status := Fetched;
      }
    }

    /** Requests a batch and takes in the reply. */
    method FetchFromServer(r: Round, batch: seq<Key>) returns (status: Fetch)
      requires Valid() && Authentic(h, content, r)
      modifies this`localCache
      ensures Valid() && status != NotPrefetched && status != NotCachedPanic && status != BadList
      ensures status == Fetched ==> old(Tracked()) + (set k | k in batch) <= Tracked()
      ensures old(localCache.Keys) <= localCache.Keys
      ensures status == Fetched <==>
              !r.poisonedLater && r.reply(batch).Some? && r.reply(batch) == Provide(content, batch)
      ensures status == TransportError <==> r.reply(batch).None?
      ensures r.reply(batch).Some? ==>
                var chunks := r.reply(batch).value;
                && (status == HashMismatch <==> !HashesMatch(h, batch, chunks))
                && (status == WrongCount <==> HashesMatch(h, batch, chunks) && |chunks| != |batch|)
    {
      hide Provide, Authentic;
      var reply := r.reply(batch);
      if reply.None? {
        return TransportError;
      }
      RoundIsGenuine(h, content, r, batch);
      CheckedReply(h, content, batch, reply.value);
      var ok := Receive(batch, reply.value);
      if !ok {
        return HashMismatch;
      }
      if |reply.value| != |batch| {
        return WrongCount;
      }
      if r.poisonedLater {
        return PoisonedPanic;
      }
      status := Fetched;
    }

    /** Fetches batches until the chunk is at hand; a tracked key never meets the "without being prefetched" panic. */
    method GetChunk(key: Key) returns (status: Fetch, chunk: bytes)
      requires Valid()
      modifies this`localCache, this`pendingChunks, this`round, this`turns
      ensures Valid()
      ensures status == Fetched ==> key in content && chunk == content[key]
      ensures status == Fetched ==> old(Tracked()) <= Tracked()
      ensures status == Fetched ==> key in localCache
      ensures old(localCache.Keys) <= localCache.Keys
      ensures status != BadList
      ensures key in old(Tracked()) ==> status != NotPrefetched
      ensures old(Known()) ==> Known()
      ensures key in old(Tracked()) ==> Reports(status == Fetched)
    {
      hide Authentic, Smooth;
      while key !in localCache
        invariant Valid() && Reports(true) && (old(Known()) ==> Known())
        invariant old(Tracked()) <= Tracked()
        invariant old(localCache.Keys) <= localCache.Keys
        decreases |pendingChunks|
      {
        if pendingChunks == [] {
          return NotPrefetched, [];
        }
        status := FetchChunkBatch();
        if status != Fetched {
          return status, [];
        }
      }
      return Fetched, localCache[key];
    }

    /**
     * Reads a tree: whatever the interleaving and the cache, what is yielded, and whether a malformed list ends it,
     * is what reading `content` directly yields. For a tree of the server's, only keys of the server are requested.
     */
    method Reconstruct(leaf: bool, keys: seq<Key>, ghost depth: nat) returns (status: Fetch, pieces: seq<bytes>)
      requires Valid() && Finite(content, leaf, keys, depth)
      modifies this`localCache, this`pendingChunks, this`round, this`turns
      ensures Valid() && status != NotPrefetched
      ensures status == Fetched ==> Read(content, leaf, keys, depth) == Outcome(pieces, Done)
      ensures status == BadList ==> Read(content, leaf, keys, depth) == Outcome(pieces, Malformed)
      ensures pieces <= Read(content, leaf, keys, depth).pieces
      ensures status == Fetched ==> old(Tracked()) <= Tracked()
      ensures Reports(status == Fetched || status == BadList)
      ensures old(Known()) && Reaches(server, leaf, keys, depth) ==> Known()
      decreases depth, 1
    {
      hide Authentic, Read, Reaches, Finite, Smooth, Known, Genuine, Submap, HashConsistent;
      ghost var ours := Reaches(server, leaf, keys, depth);
      if ours {
        AllInMap(server, leaf, keys, depth);
      }
      Prefetch(keys);
      pieces := [];
      ReadNothing(content, leaf, depth);
      for i := 0 to |keys|
        invariant Valid() && Reports(true) && (old(Known()) && ours ==> Known())
        invariant old(Tracked()) + (set k | k in keys) <= Tracked()
        invariant Read(content, leaf, keys[..i], depth) == Outcome(pieces, Done)
      {
        var sub;
        ReadNext(content, leaf, keys, i, depth, pieces);
        status, sub := ReconstructOne(leaf, keys, i, depth);
        pieces := pieces + sub;
        if status != Fetched {
          return;
        }
      }
      assert keys[..|keys|] == keys;
      status := Fetched;
    }

    /** One key of a list: its chunk, or everything below it. */
    method ReconstructOne(leaf: bool, keys: seq<Key>, i: nat, ghost depth: nat)
      returns (status: Fetch, pieces: seq<bytes>)
      requires Valid() && Finite(content, leaf, keys, depth) && i < |keys| && keys[i] in Tracked()
      modifies this`localCache, this`pendingChunks, this`round, this`turns
      ensures Valid() && status != NotPrefetched
      ensures status == Fetched ==> ReadOne(content, leaf, keys[i], depth) == Outcome(pieces, Done)
      ensures status == BadList ==> ReadOne(content, leaf, keys[i], depth) == Outcome(pieces, Malformed)
      ensures pieces <= ReadOne(content, leaf, keys[i], depth).pieces
      ensures status == Fetched ==> old(Tracked()) <= Tracked()
      ensures Reports(status == Fetched || status == BadList)
      ensures old(Known()) && Reaches(server, leaf, keys, depth) ==> Known()
      decreases depth, 0
    {
      hide Authentic, Decode, Read, Reaches, Finite, Smooth, Known, Genuine, Submap, HashConsistent;
      var chunk;
      pieces := [];
      status, chunk := GetChunk(keys[i]);
      if status != Fetched {
        return;
      }
      if leaf {
        return Fetched, [chunk];
      }
      var child := DecodeList(chunk);
      if child.None? {
        return BadList, [];
      }
      ChildOfBoth(server, content, keys, depth, keys[i]);
      status, pieces := Reconstruct(child.value.isLeaf, child.value.chunks, depth - 1);
    }

    /**
     * Walks the lists of several trees level by level. Afterwards every inner node is at hand and every data chunk is
     * at hand or queued; it ends early only at a malformed list.
     */
    method PrefetchMetadata(lists: seq<ChunkList>, ghost depths: seq<nat>) returns (status: Fetch)
      requires Valid() && ListsFinite(content, lists, depths)
      modifies this`localCache, this`pendingChunks, this`round, this`turns
      ensures Valid() && status != NotPrefetched
      ensures status == Fetched ==> AllCovered(content, localCache.Keys, Tracked(), lists, depths)
      ensures status == BadList ==> !AllReadable(content, lists, depths)
      ensures Reports(status == Fetched || status == BadList)
      ensures old(Known()) && ListsReach(server, lists, depths) ==> Known()
    {
      hide Authentic, Reaches, Finite, AllCovered, Expanded, Suffices, AllReadable, Smooth, Known, ListsReach;
      CoveringSuffices(content, localCache.Keys, Tracked(), lists, depths);
      var current := lists;
      ghost var at, bound, ours := depths, Bound(depths), ListsReach(server, lists, depths);
      status := Fetched;
      while current != []
        invariant Valid() && Reports(true) && status == Fetched && ListsFinite(content, current, at)
        invariant ours ==> ListsReach(server, current, at) && (old(Known()) ==> Known())
        invariant forall i :: 0 <= i < |at| ==> at[i] < bound
        invariant Suffices(content, localCache.Keys, Tracked(), current, at, lists, depths)
        invariant AllReadable(content, lists, depths) ==> AllReadable(content, current, at)
        decreases bound
      {
        assert at[0] < bound;
        status, current, at := NextLevel(current, at, bound, lists, depths);
        if status != Fetched {
          return;
        }
        bound := bound - 1;
      }
      NothingLeft(content, localCache.Keys, Tracked(), at, lists, depths);
    }

    /** One level of the walk: prefetches all keys of the level and expands its lists. */
    method NextLevel(current: seq<ChunkList>, ghost at: seq<nat>, ghost bound: nat, ghost lists: seq<ChunkList>,
                     ghost depths: seq<nat>)
      returns (status: Fetch, next: seq<ChunkList>, ghost nextAt: seq<nat>)
      requires Valid() && ListsFinite(content, current, at) && bound > 0
      requires forall i :: 0 <= i < |at| ==> at[i] < bound
      requires Suffices(content, localCache.Keys, Tracked(), current, at, lists, depths)
      modifies this`localCache, this`pendingChunks, this`round, this`turns
      ensures Valid() && status != NotPrefetched && ListsFinite(content, next, nextAt)
      ensures forall i :: 0 <= i < |nextAt| ==> nextAt[i] < bound - 1
      ensures status == Fetched ==> Suffices(content, localCache.Keys, Tracked(), next, nextAt, lists, depths)
      ensures AllReadable(content, current, at) ==> status != BadList && AllReadable(content, next, nextAt)
      ensures Reports(status == Fetched || status == BadList)
      ensures ListsReach(server, current, at) ==> ListsReach(server, next, nextAt) && (old(Known()) ==> Known())
    {
      hide Authentic, Reaches, Finite, AllCovered, Expanded, Suffices, Readable, Smooth, Known, Valid;
      ghost var tracked0 := Tracked();
      PrefetchLists(current, at);
      SufficesLater(content, localCache.Keys, tracked0, localCache.Keys, Tracked(), current, at, lists, depths);
      next, nextAt, status := [], [], Fetched;
      for i := 0 to |current|
        invariant Valid() && Reports(true) && status == Fetched && ListsFinite(content, next, nextAt)
        invariant ListsReach(server, current, at) ==> ListsReach(server, next, nextAt) && (old(Known()) ==> Known())
        invariant forall j :: 0 <= j < |nextAt| ==> nextAt[j] < bound - 1
        invariant forall j, k :: 0 <= j < |current| && k in current[j].chunks ==> k in Tracked()
        invariant forall j :: 0 <= j < i ==> Expanded(content, localCache.Keys, current[j], at[j], next, nextAt)
        invariant Suffices(content, localCache.Keys, Tracked(), current, at, lists, depths)
        invariant AllReadable(content, current, at) ==> AllReadable(content, next, nextAt)
      {
        ghost var next1, nextAt1, local1, tracked1 := next, nextAt, localCache.Keys, Tracked();
        status, next, nextAt := ExpandList(current[i], at[i], next, nextAt);
        if status != Fetched {
          return;
        }
        SufficesLater(content, local1, tracked1, localCache.Keys, Tracked(), current, at, lists, depths);
        forall j | 0 <= j < i ensures Expanded(content, localCache.Keys, current[j], at[j], next, nextAt) {
          StillExpanded(content, local1, localCache.Keys, current[j], at[j], next1, nextAt1, next, nextAt);
        }
      }
      NextLevelSuffices(content, localCache.Keys, Tracked(), current, at, next, nextAt, lists, depths);
    }

    method PrefetchLists(lists: seq<ChunkList>, ghost depths: seq<nat>)
      requires Valid()
      modifies this`pendingChunks
      ensures Valid() && old(Tracked()) <= Tracked()
      ensures ListsReach(server, lists, depths) && old(Known()) ==> Known()
      ensures forall j, k :: 0 <= j < |lists| && k in lists[j].chunks ==> k in Tracked()
    {
      hide Authentic, Reaches, Known;
      ghost var ours := ListsReach(server, lists, depths);
      for i := 0 to |lists|
        invariant Valid() && old(Tracked()) <= Tracked() && (ours && old(Known()) ==> Known())
        invariant forall j, k :: 0 <= j < i && k in lists[j].chunks ==> k in Tracked()
      {
        if ours {
          AllInMap(server, lists[i].isLeaf, lists[i].chunks, depths[i]);
        }
        Prefetch(lists[i].chunks);
      }
    }

    /** Fetches one child of a list. */
    method FetchChild(l: ChunkList, ghost d: nat, key: Key) returns (status: Fetch, child: ChunkList)
      requires Valid() && Finite(content, l.isLeaf, l.chunks, d) && !l.isLeaf && key in l.chunks && key in Tracked()
      modifies this`localCache, this`pendingChunks, this`round, this`turns
      ensures Valid() && status != NotPrefetched && Reports(status == Fetched || status == BadList)
      ensures old(Known()) ==> Known()
      ensures old(localCache.Keys) <= localCache.Keys && (status == Fetched ==> old(Tracked()) <= Tracked())
      ensures status == Fetched ==> key in localCache && key in content && Decode(content[key]) == Some(child)
      ensures status == Fetched ==> d > 0 && Finite(content, child.isLeaf, child.chunks, d - 1)
      ensures status == Fetched && Reaches(server, l.isLeaf, l.chunks, d) ==>
                Reaches(server, child.isLeaf, child.chunks, d - 1)
      ensures Readable(content, l, d) ==> status != BadList
      ensures Readable(content, l, d) && status == Fetched ==> Readable(content, child, d - 1)
    {
      hide Authentic, Decode, Reaches, Finite, Readable, Smooth, Known;
      child := ChunkList(true, []);
      var chunk;
      status, chunk := GetChunk(key);
      if status == Fetched {
        ChildOfBoth(server, content, l.chunks, d, key);
        ReadableChild(content, l, d, key);
        var decoded := DecodeList(chunk);
        if decoded.None? {
          status := BadList;
        } else {
          child := decoded.value;
        }
      }
    }

    /** Fetches the children of one list and adds them to the next level. */
    method ExpandList(l: ChunkList, ghost d: nat, next0: seq<ChunkList>, ghost depths0: seq<nat>)
      returns (status: Fetch, next: seq<ChunkList>, ghost depths: seq<nat>)
      requires Valid() && Finite(content, l.isLeaf, l.chunks, d) && ListsFinite(content, next0, depths0)
      requires forall k :: k in l.chunks ==> k in Tracked()
      modifies this`localCache, this`pendingChunks, this`round, this`turns
      ensures Valid() && status != NotPrefetched && Reports(status == Fetched || status == BadList)
      ensures old(Known()) ==> Known()
      ensures ListsFinite(content, next, depths) && next0 <= next && depths0 <= depths
      ensures Reaches(server, l.isLeaf, l.chunks, d) && ListsReach(server, next0, depths0) ==>
                ListsReach(server, next, depths)
      ensures status == Fetched ==> old(localCache.Keys) <= localCache.Keys && old(Tracked()) <= Tracked()
      ensures status == Fetched ==> Expanded(content, localCache.Keys, l, d, next, depths)
      ensures forall i :: |depths0| <= i < |depths| ==> depths[i] < d
      ensures Readable(content, l, d) ==> status != BadList
      ensures Readable(content, l, d) && AllReadable(content, next0, depths0) ==> AllReadable(content, next, depths)
    {
      hide Authentic, Decode, Reaches, Finite, HasChild, Readable, Smooth, Known, Valid;
      next, depths, status := next0, depths0, Fetched;
      if !l.isLeaf {
        for i := 0 to |l.chunks|
          invariant Valid() && Reports(true) && status == Fetched && (old(Known()) ==> Known())
          invariant ListsFinite(content, next, depths) && next0 <= next && depths0 <= depths
          invariant Reaches(server, l.isLeaf, l.chunks, d) && ListsReach(server, next0, depths0) ==>
                      ListsReach(server, next, depths)
          invariant old(localCache.Keys) <= localCache.Keys && old(Tracked()) <= Tracked()
          invariant forall j :: |depths0| <= j < |depths| ==> depths[j] < d
          invariant forall j :: 0 <= j < i ==> HasChild(content, localCache.Keys, l.chunks[j], d, next, depths)
          invariant Readable(content, l, d) && AllReadable(content, next0, depths0) ==>
                      AllReadable(content, next, depths)
        {
          ghost var next1, depths1, local1 := next, depths, localCache.Keys;
          var child;
          status, child := FetchChild(l, d, l.chunks[i]);
          if status != Fetched {
            return;
          }
          next := next + [child];
          depths := depths + [d - 1];
          NewChild(content, localCache.Keys, l.chunks[i], d, next1, depths1, child);
          forall j | 0 <= j < i ensures HasChild(content, localCache.Keys, l.chunks[j], d, next, depths) {
            StillHasChild(content, local1, localCache.Keys, l.chunks[j], d, next1, depths1, next, depths);
          }
        }
      }
    }
  }

  // ----- Prefetching the metadata

  ghost predicate ListsReach(server: map<Key, bytes>, lists: seq<ChunkList>, depths: seq<nat>) {
    |lists| == |depths| && forall i :: 0 <= i < |lists| ==> Reaches(server, lists[i].isLeaf, lists[i].chunks, depths[i])
  }

  ghost predicate ListsFinite(content: map<Key, bytes>, lists: seq<ChunkList>, depths: seq<nat>) {
    |lists| == |depths| && forall i :: 0 <= i < |lists| ==> Finite(content, lists[i].isLeaf, lists[i].chunks, depths[i])
  }

  /** The tree has no missing chunk and no malformed list. */
  ghost predicate Readable(server: map<Key, bytes>, l: ChunkList, d: nat) {
    Read(server, l.isLeaf, l.chunks, d).status == Done
  }

  ghost predicate AllReadable(server: map<Key, bytes>, lists: seq<ChunkList>, depths: seq<nat>) {
    |lists| == |depths| && forall i :: 0 <= i < |lists| ==> Readable(server, lists[i], depths[i])
  }

  lemma {:induction false} ReadableKeys(server: map<Key, bytes>, keys: seq<Key>, d: nat, key: Key)
    requires Read(server, false, keys, d).status == Done && key in keys
    ensures ReadOne(server, false, key, d).status == Done
    decreases |keys|
  {
    if key != keys[0] {
      ReadableKeys(server, keys[1..], d, key);
    }
  }

  lemma ReadableChild(server: map<Key, bytes>, l: ChunkList, d: nat, key: Key)
    requires !l.isLeaf && key in l.chunks && key in server
    ensures Readable(server, l, d) ==>
              Decode(server[key]).Some? && d > 0 && Readable(server, Decode(server[key]).value, d - 1)
  {
    hide Decode;
    if Readable(server, l, d) {
      ReadableKeys(server, l.chunks, d, key);
    }
  }

  lemma AllInMap(server: map<Key, bytes>, leaf: bool, keys: seq<Key>, d: nat)
    requires Reaches(server, leaf, keys, d)
    ensures forall k :: k in keys ==> k in server
  {
    hide Decode;
  }

  /** `key` is at hand and its list is one of `next`, one level down. */
  ghost predicate HasChild(server: map<Key, bytes>, local: set<Key>, key: Key, d: nat, next: seq<ChunkList>,
                           depths: seq<nat>)
    requires |next| == |depths|
  {
    && key in local && key in server && d > 0
    && exists i :: 0 <= i < |next| && Decode(server[key]) == Some(next[i]) && depths[i] == d - 1
  }

  ghost predicate Expanded(server: map<Key, bytes>, local: set<Key>, l: ChunkList, d: nat, next: seq<ChunkList>,
                           depths: seq<nat>)
    requires |next| == |depths|
  {
    !l.isLeaf ==> forall j :: 0 <= j < |l.chunks| ==> HasChild(server, local, l.chunks[j], d, next, depths)
  }

  /** A list that is fetched is one level lower, and the server's if its parent is. */
  lemma ChildOfBoth(server: map<Key, bytes>, content: map<Key, bytes>, keys: seq<Key>, d: nat, key: Key)
    requires Finite(content, false, keys, d) && key in keys && key in content && Submap(server, content)
    ensures Decode(content[key]).Some? ==>
              var child := Decode(content[key]).value;
              && d > 0 && Finite(content, child.isLeaf, child.chunks, d - 1)
              && (Reaches(server, false, keys, d) ==> Reaches(server, child.isLeaf, child.chunks, d - 1))
  {
    hide Decode;
    if Reaches(server, false, keys, d) {
      assert key in server && content[key] == server[key];
    }
  }

  lemma NewChild(server: map<Key, bytes>, local: set<Key>, key: Key, d: nat, next: seq<ChunkList>, depths: seq<nat>,
                 child: ChunkList)
    requires |next| == |depths| && key in local && key in server && d > 0 && Decode(server[key]) == Some(child)
    ensures HasChild(server, local, key, d, next + [child], depths + [d - 1])
  {
    hide Decode;
    assert (next + [child])[|next|] == child && (depths + [d - 1])[|next|] == d - 1;
  }

  lemma StillExpanded(server: map<Key, bytes>, local: set<Key>, local': set<Key>, l: ChunkList, d: nat,
                      next: seq<ChunkList>, depths: seq<nat>, next': seq<ChunkList>, depths': seq<nat>)
    requires |next| == |depths| && |next'| == |depths'| && next <= next' && depths <= depths' && local <= local'
    requires Expanded(server, local, l, d, next, depths)
    ensures Expanded(server, local', l, d, next', depths')
  {
    hide HasChild;
    if !l.isLeaf {
      forall j | 0 <= j < |l.chunks| ensures HasChild(server, local', l.chunks[j], d, next', depths') {
        StillHasChild(server, local, local', l.chunks[j], d, next, depths, next', depths');
      }
    }
  }

  function Bound(depths: seq<nat>): (b: nat)
    ensures forall i :: 0 <= i < |depths| ==> depths[i] < b
  {
    if depths == [] then 0
    else
      var b := Bound(depths[1..]);
      assert forall i :: 1 <= i < |depths| ==> depths[i] == depths[1..][i - 1];
      if depths[0] < b then b else depths[0] + 1
  }

  /** Every key of the tree is tracked, and the keys of its inner nodes are at hand. */
  ghost predicate Covered(server: map<Key, bytes>, local: set<Key>, tracked: set<Key>, leaf: bool, keys: seq<Key>,
                          d: nat)
    decreases d
  {
    && (forall k :: k in keys ==> k in tracked)
    && (!leaf ==> forall k :: k in keys ==>
          && d > 0 && k in local && k in server && Decode(server[k]).Some?
          && Covered(server, local, tracked, Decode(server[k]).value.isLeaf, Decode(server[k]).value.chunks, d - 1))
  }

  ghost predicate AllCovered(server: map<Key, bytes>, local: set<Key>, tracked: set<Key>, lists: seq<ChunkList>,
                             depths: seq<nat>) {
    |lists| == |depths| &&
    forall i :: 0 <= i < |lists| ==> Covered(server, local, tracked, lists[i].isLeaf, lists[i].chunks, depths[i])
  }

  /** From here on, covering the `current` lists covers the `roots`. */
  ghost predicate Suffices(server: map<Key, bytes>, local: set<Key>, tracked: set<Key>, current: seq<ChunkList>,
                           at: seq<nat>, roots: seq<ChunkList>, depths: seq<nat>) {
    forall local', tracked' :: local <= local' && tracked <= tracked' ==>
      AllCovered(server, local', tracked', current, at) ==> AllCovered(server, local', tracked', roots, depths)
  }

  lemma CoveringSuffices(server: map<Key, bytes>, local: set<Key>, tracked: set<Key>, lists: seq<ChunkList>,
                         depths: seq<nat>)
    ensures Suffices(server, local, tracked, lists, depths, lists, depths)
  {
    hide AllCovered;
  }

  lemma NothingLeft(server: map<Key, bytes>, local: set<Key>, tracked: set<Key>, at: seq<nat>, roots: seq<ChunkList>,
                    depths: seq<nat>)
    requires at == [] && Suffices(server, local, tracked, [], at, roots, depths)
    ensures AllCovered(server, local, tracked, roots, depths)
  {
    hide Covered;
    assert AllCovered(server, local, tracked, [], at);
  }

  lemma SufficesLater(server: map<Key, bytes>, local: set<Key>, tracked: set<Key>, local': set<Key>, tracked': set<Key>,
                      current: seq<ChunkList>, at: seq<nat>, roots: seq<ChunkList>, depths: seq<nat>)
    requires Suffices(server, local, tracked, current, at, roots, depths) && local <= local' && tracked <= tracked'
    ensures Suffices(server, local', tracked', current, at, roots, depths)
  {
    hide AllCovered;
  }

  lemma NextLevelSuffices(server: map<Key, bytes>, local: set<Key>, tracked: set<Key>, current: seq<ChunkList>,
                          at: seq<nat>, next: seq<ChunkList>, nextAt: seq<nat>, roots: seq<ChunkList>, depths: seq<nat>)
    requires |current| == |at| && |next| == |nextAt|
    requires Suffices(server, local, tracked, current, at, roots, depths)
    requires forall j, k :: 0 <= j < |current| && k in current[j].chunks ==> k in tracked
    requires forall j :: 0 <= j < |current| ==> Expanded(server, local, current[j], at[j], next, nextAt)
    ensures Suffices(server, local, tracked, next, nextAt, roots, depths)
  {
    forall local', tracked' | local <= local' && tracked <= tracked' &&
      AllCovered(server, local', tracked', next, nextAt)
      ensures AllCovered(server, local', tracked', roots, depths)
    {
      forall i | 0 <= i < |current|
        ensures Covered(server, local', tracked', current[i].isLeaf, current[i].chunks, at[i])
      {
        ParentCovered(server, local, local', tracked', current[i], at[i], next, nextAt);
      }
      assert AllCovered(server, local', tracked', current, at);
    }
  }

  lemma ParentCovered(server: map<Key, bytes>, local: set<Key>, local': set<Key>, tracked: set<Key>, l: ChunkList,
                      d: nat, next: seq<ChunkList>, nextAt: seq<nat>)
    requires |next| == |nextAt| && local <= local' && Expanded(server, local, l, d, next, nextAt)
    requires forall k :: k in l.chunks ==> k in tracked
    requires AllCovered(server, local', tracked, next, nextAt)
    ensures Covered(server, local', tracked, l.isLeaf, l.chunks, d)
  {
    hide Decode;
    if !l.isLeaf {
      forall k | k in l.chunks
        ensures k in local' && k in server && Decode(server[k]).Some? && d > 0
        ensures Covered(server, local', tracked, Decode(server[k]).value.isLeaf, Decode(server[k]).value.chunks, d - 1)
      {
        var j :| 0 <= j < |l.chunks| && l.chunks[j] == k;
        assert HasChild(server, local, l.chunks[j], d, next, nextAt);
        var i :| 0 <= i < |next| && Decode(server[k]) == Some(next[i]) && nextAt[i] == d - 1;
        assert Covered(server, local', tracked, next[i].isLeaf, next[i].chunks, nextAt[i]);
      }
    }
  }

  lemma StillHasChild(server: map<Key, bytes>, local: set<Key>, local': set<Key>, key: Key, d: nat,
                      next: seq<ChunkList>, depths: seq<nat>, next': seq<ChunkList>, depths': seq<nat>)
    requires |next| == |depths| && |next'| == |depths'| && next <= next' && depths <= depths' && local <= local'
    requires HasChild(server, local, key, d, next, depths)
    ensures HasChild(server, local', key, d, next', depths')
  {
    var i :| 0 <= i < |next| && Decode(server[key]) == Some(next[i]) && depths[i] == d - 1;
    assert next'[i] == next[i] && depths'[i] == depths[i];
  }

  /** A covered tree has no malformed list. */
  lemma {:induction false} CoveredIsReadable(server: map<Key, bytes>, local: set<Key>, tracked: set<Key>, leaf: bool,
                                             keys: seq<Key>, d: nat)
    requires Covered(server, local, tracked, leaf, keys, d) && Reaches(server, leaf, keys, d)
    ensures Read(server, leaf, keys, d).status == Done
    decreases d, |keys|
  {
    hide Decode;
    if keys != [] {
      var key := keys[0];
      if !leaf {
        var child := Decode(server[key]).value;
        CoveredIsReadable(server, local, tracked, child.isLeaf, child.chunks, d - 1);
      }
      assert forall k :: k in keys[1..] ==> k in keys;
      CoveredIsReadable(server, local, tracked, leaf, keys[1..], d);
    }
  }

  // ----- The protocol as environment

  /**
   * Cache snapshots taken from any run of the fetch protocol are authentic, if nothing in them collides with the
   * server.
   */
  lemma ProtocolRoundsAreAuthentic(c: Config, s: State, s': State, content: map<Key, bytes>,
                                   reply: seq<Key> -> Option<seq<bytes>>)
    requires FetchProtocol.Inv(c, s) && FetchProtocol.Inv(c, s')
    requires forall e :: e in s.cache || e in s'.cache ==> InContent(c.hash, content, e.chunk)
    requires forall keys, i :: reply(keys).Some? && 0 <= i < |reply(keys).value| ==>
               InContent(c.hash, content, reply(keys).value[i])
    ensures Authentic(c.hash, content, RoundBetween(s, s', reply))
  {
    hide PendingInv, TaskInv;
  }

  /** `x` is one of the chunks there are. */
  ghost predicate InContent(h: Hash, content: map<Key, bytes>, x: bytes) {
    h(x) in content && content[h(x)] == x
  }

  /** A round whose first lock region is taken in `s` and whose second one in `s'`. */
  ghost function RoundBetween(s: State, s': State, reply: seq<Key> -> Option<seq<bytes>>): Round {
    Round(s.poisoned, s.cache, s.pending, s'.poisoned, s'.cache, reply)
  }

  /** Some task that waited for `keys` can go on in `s`, and the history of `s` has room for all of them. */
  ghost predicate WokenWithRoom(c: Config, s: State, keys: seq<Key>) {
    && FetchProtocol.Inv(c, s) && CollisionFree(c.hash, LoggedChunks(s.log))
    && (exists t :: Enabled(c, s, Relock(t)) && KeysOf(s.tasks[t].awaited) == keys)
    && forall k :: k in keys ==> HasRoom(c, s, k)
  }

  /**
   * A round of the fetch protocol is served if the lock is sound, the server answers its batch, and the state in
   * which it is woken has room for the keys it awaited.
   */
  lemma ProtocolRoundsSucceed(c: Config, s: State, s': State, server: map<Key, bytes>, content: map<Key, bytes>,
                              reply: seq<Key> -> Option<seq<bytes>>, t: Turn)
    requires !s.poisoned && !s'.poisoned && Submap(server, content) && forall k :: k in t.batch ==> k in server
    requires t.batch != [] ==> reply(t.batch) == Provide(server, t.batch)
    requires t.batch == [] && t.kept != [] ==> WokenWithRoom(c, s', t.kept)
    ensures Succeeds(content, RoundBetween(s, s', reply), t)
  {
    hide Has, WokenWithRoom, Provide;
    ServerAnswers(server, content, t.batch);
    if t.batch == [] && t.kept != [] {
      forall k | k in t.kept ensures Has(s'.cache, k) {
        WokenFindsCached(c, s', t.kept, k);
      }
    }
  }

  lemma WokenFindsCached(c: Config, s: State, keys: seq<Key>, k: Key)
    requires WokenWithRoom(c, s, keys) && k in keys
    ensures Has(s.cache, k)
  {
    hide Has, HasRoom, LoggedInsert, PendingInv, TaskInv, CacheInv;
    var t :| Enabled(c, s, Relock(t)) && KeysOf(s.tasks[t].awaited) == keys;
    AwaitedWasInserted(c, s, t, k);
    CachedIffRoom(c, s, k);
  }

  lemma TurnSucceeds(content: map<Key, bytes>, r: Round, t: Turn)
    ensures r.poisoned ==> !Succeeds(content, r, t)
    ensures !r.poisoned && t.batch != [] ==>
              var answered := r.reply(t.batch).Some? && r.reply(t.batch) == Provide(content, t.batch);
              Succeeds(content, r, t) <==> !r.poisonedLater && answered
    ensures !r.poisoned && t.batch == [] ==>
              var found := forall k :: k in t.kept ==> Has(r.woken, k);
              Succeeds(content, r, t) <==> t.kept == [] || (!r.poisonedLater && found)
  {
    hide Has, Provide;
  }

  lemma ReadNothing(server: map<Key, bytes>, leaf: bool, depth: nat)
    ensures Read(server, leaf, [], depth) == Outcome([], Done)
  {}

  /** Reading one more key of a list, and where a malformed one ends it. */
  /** Reading one more key: what it yields comes next, and if it fails all ends there. */
  lemma ReadNext(m: map<Key, bytes>, leaf: bool, keys: seq<Key>, i: nat, depth: nat, pieces: seq<bytes>)
    requires i < |keys| && Read(m, leaf, keys[..i], depth) == Outcome(pieces, Done)
    ensures var one := ReadOne(m, leaf, keys[i], depth);
            var all := Outcome(pieces + one.pieces, one.status);
            && Read(m, leaf, keys[..i + 1], depth) == all
            && (one.status != Done ==> Read(m, leaf, keys, depth) == all)
            && all.pieces <= Read(m, leaf, keys, depth).pieces
  {
    hide Read, ReadOne;
    ReadSingle(m, leaf, keys[i], depth);
    assert keys[..i + 1] == keys[..i] + [keys[i]];
    ReadConcat(m, leaf, keys[..i], [keys[i]], depth);
    assert keys == keys[..i + 1] + keys[i + 1..];
    ReadConcat(m, leaf, keys[..i + 1], keys[i + 1..], depth);
  }

  lemma ReadSingle(server: map<Key, bytes>, leaf: bool, key: Key, depth: nat)
    ensures Read(server, leaf, [key], depth) == ReadOne(server, leaf, key, depth)
  {
    hide ReadOne;
    var one := ReadOne(server, leaf, key, depth);
    assert [key][1..] == [] && one.pieces + [] == one.pieces;
    assert Read(server, leaf, [key], depth) == Then(one, Read(server, leaf, [], depth));
  }
}
