/** The chunk cache on disk, before compression. */
module CacheFile {
  import opened Bytes
  import opened ChunkLists
  import opened Lru
  import opened LruSurvival

  const CHUNK_LENGTH_LIMIT: nat := 20_000_000

  function WriteEntry(e: Entry): bytes
    requires |e.chunk| < U32_LIMIT
  {
    e.key + Le32(|e.chunk|) + e.chunk
  }

  predicate Writable(es: seq<Entry>) {
    |es| < U32_LIMIT && forall e :: e in es ==> |e.chunk| < U32_LIMIT
  }

  function WriteEntries(es: seq<Entry>): bytes
    requires forall e :: e in es ==> |e.chunk| < U32_LIMIT
  {
    if es == [] then [] else WriteEntry(es[0]) + WriteEntries(es[1..])
  }

  function WriteCache(es: seq<Entry>): bytes
    requires Writable(es)
  {
    Le32(|es|) + WriteEntries(es)
  }

  /** One record of the file and what follows it; `None` stands for a short or oversized record. */
  function ReadEntry(b: bytes): (r: Option<(Entry, bytes)>) {
    if |b| < 36 then None
    else
      var n := ReadLe32(b[32..36]);
      if n > CHUNK_LENGTH_LIMIT || |b| < 36 + n then None
      else Some((Entry(b[..32], b[36..36 + n]), b[36 + n..]))
  }

  /** Records whose chunk does not hash to its key are skipped. */
  function ReadEntries(h: Hash, b: bytes, n: nat, es: seq<Entry>, max: nat): Option<seq<Entry>>
    decreases n
  {
    if n == 0 then Some(es)
    else match ReadEntry(b)
      case None => None
      case Some((e, rest)) =>
        ReadEntries(h, rest, n - 1, if h(e.chunk) == e.key then Insert(es, e.key, e.chunk, max) else es, max)
  }

  function ReadCache(h: Hash, b: bytes, max: nat): Option<seq<Entry>> {
    if |b| < 4 then None else ReadEntries(h, b[4..], ReadLe32(b[..4]), [], max)
  }

  ghost predicate HashesToKeys(h: Hash, es: seq<Entry>) {
    forall e :: e in es ==> h(e.chunk) == e.key
  }

  predicate Loadable(es: seq<Entry>) {
    forall e :: e in es ==> |e.chunk| <= 20_000_000
  }

  /** A file starts with the count, a record with key and length, both numbers with their low byte first. */
  lemma FileBytes(es: seq<Entry>, e: Entry)
    requires Writable(es) && |e.chunk| < U32_LIMIT
    ensures |WriteCache(es)| >= 4 && LowFirst(WriteCache(es)[..4]) == |es|
    ensures |WriteEntry(e)| == 36 + |e.chunk| && LowFirst(WriteEntry(e)[32..36]) == |e.chunk|
    ensures WriteEntry(e)[..32] == e.key && WriteEntry(e)[36..] == e.chunk
  {
    hide WriteEntries, Le32, LowFirst;
    assert WriteCache(es)[..4] == Le32(|es|) && WriteEntry(e)[32..36] == Le32(|e.chunk|);
    FieldValue(|es|);
    FieldValue(|e.chunk|);
  }

  lemma ReadEntryInverts(e: Entry, tail: bytes)
    requires |e.chunk| < U32_LIMIT
    ensures ReadEntry(WriteEntry(e) + tail) == if |e.chunk| <= CHUNK_LENGTH_LIMIT then Some((e, tail)) else None
  {
    var b := WriteEntry(e) + tail;
    assert b[..32] == e.key && b[32..36] == Le32(|e.chunk|);
    ReadLe32Inverts(|e.chunk|);
    assert b[36..36 + |e.chunk|] == e.chunk && b[36 + |e.chunk|..] == tail;
  }

  /** The entries that are what they claim to be. */
  function Intact(h: Hash, es: seq<Entry>): seq<Entry> {
    if es == [] then [] else (if h(es[0].chunk) == es[0].key then [es[0]] else []) + Intact(h, es[1..])
  }

  lemma {:induction false} AllIntact(h: Hash, es: seq<Entry>)
    requires HashesToKeys(h, es)
    ensures Intact(h, es) == es
  {
    if es != [] {
      AllIntact(h, es[1..]);
      assert es == [es[0]] + es[1..];
    }
  }

  lemma {:induction false} ReadEntriesInverts(h: Hash, done: seq<Entry>, todo: seq<Entry>, tail: bytes, max: nat)
    requires Distinct(done + todo) && forall e :: e in todo ==> |e.chunk| < U32_LIMIT
    ensures ReadEntries(h, WriteEntries(todo) + tail, |todo|, Fit(done, max), max) ==
            if Loadable(todo) then Some(Fit(done + Intact(h, todo), max)) else None
    decreases |todo|
  {
    hide ReadEntries, WriteEntries, Insert, Fit, WriteEntry, Distinct, Loadable;
    if todo == [] {
      NoEntries(h, tail, Fit(done, max), max);
      assert done + [] == done;
    } else {
      var e, rest := todo[0], todo[1..];
      WriteFirst(todo, tail);
      ReadFirst(h, e, WriteEntries(rest) + tail, |rest|, Fit(done, max), max);
      assert todo == [e] + rest;
      if |e.chunk| <= CHUNK_LENGTH_LIMIT {
        assert done + todo == done + [e] + rest;
        if h(e.chunk) == e.key {
          DistinctFront(done + [e], rest);
          InsertNew(done, e, max);
          ReadEntriesInverts(h, done + [e], rest, tail, max);
          assert done + ([e] + Intact(h, rest)) == done + [e] + Intact(h, rest);
        } else {
          DistinctWithout(done, e, rest);
          ReadEntriesInverts(h, done, rest, tail, max);
          assert [] + Intact(h, rest) == Intact(h, rest);
        }
      }
    }
  }

  lemma NoEntries(h: Hash, tail: bytes, es: seq<Entry>, max: nat)
    ensures ReadEntries(h, WriteEntries([]) + tail, 0, es, max) == Some(es) && Loadable([])
  {}

  lemma WriteFirst(es: seq<Entry>, tail: bytes)
    requires es != [] && forall e :: e in es ==> |e.chunk| < U32_LIMIT
    ensures WriteEntries(es) + tail == WriteEntry(es[0]) + (WriteEntries(es[1..]) + tail)
    ensures Loadable(es) <==> |es[0].chunk| <= CHUNK_LENGTH_LIMIT && Loadable(es[1..])
  {
    hide WriteEntry;
    assert es == [es[0]] + es[1..];
  }

  lemma ReadFirst(h: Hash, e: Entry, rest: bytes, n: nat, es: seq<Entry>, max: nat)
    requires |e.chunk| < U32_LIMIT
    ensures var es' := if h(e.chunk) == e.key then Insert(es, e.key, e.chunk, max) else es;
            ReadEntries(h, WriteEntry(e) + rest, n + 1, es, max) ==
            if |e.chunk| <= CHUNK_LENGTH_LIMIT then ReadEntries(h, rest, n, es', max) else None
  {
    hide ReadEntry, WriteEntry, Insert;
    ReadEntryInverts(e, rest);
  }

  lemma DistinctWithout(a: seq<Entry>, e: Entry, b: seq<Entry>)
    requires Distinct(a + [e] + b)
    ensures Distinct(a + b)
  {
    var all := a + [e] + b;
    forall i, j | 0 <= i < j < |a + b| ensures (a + b)[i].key != (a + b)[j].key {
      var i', j' := if i < |a| then i else i + 1, if j < |a| then j else j + 1;
      assert all[i'] == (a + b)[i] && all[j'] == (a + b)[j];
    }
  }

  lemma DistinctFront(a: seq<Entry>, b: seq<Entry>)
    requires Distinct(a + b)
    ensures Distinct(a)
  {
    assert a == (a + b)[..|a|];
  }

  lemma InsertNew(done: seq<Entry>, e: Entry, max: nat)
    requires Distinct(done + [e])
    ensures Insert(Fit(done, max), e.key, e.chunk, max) == Fit(done + [e], max)
  {
    assert done == (done + [e])[..|done|];
    var i := FitIsLongest(done, max);
    assert !Has(Fit(done, max), e.key) by {
      forall x | x in done ensures x.key != e.key {
        var j :| 0 <= j < |done| && done[j] == x;
        assert (done + [e])[j] == x && (done + [e])[|done|] == e;
      }
    }
    WithoutAbsent(Fit(done, max), e.key);
    FitTwice(done, [e], max);
  }

  /**
   * Loading a written cache, whatever follows it, skips entries that are not what they claim to be and keeps the newest
   * of the others that fit, in order; it fails exactly on oversized chunks.
   */
  lemma PersistRoundTrip(h: Hash, es: seq<Entry>, tail: bytes, max: nat)
    requires Distinct(es) && Writable(es)
    ensures ReadCache(h, WriteCache(es) + tail, max) == if Loadable(es) then Some(Fit(Intact(h, es), max)) else None
  {
    hide ReadEntries, WriteEntries, Le32, ReadLe32;
    var b := WriteCache(es) + tail;
    assert b[..4] == Le32(|es|) && b[4..] == WriteEntries(es) + tail;
    ReadLe32Inverts(|es|);
    assert Fit([], max) == [] && [] + es == es && [] + Intact(h, es) == Intact(h, es);
    ReadEntriesInverts(h, [], es, tail, max);
  }

  /** Under the limit it was kept with, a loadable cache comes back whole. */
  lemma PersistWhole(h: Hash, es: seq<Entry>, max: nat)
    requires Distinct(es) && HashesToKeys(h, es) && Writable(es)
    requires Size(es) <= max && Loadable(es)
    ensures ReadCache(h, WriteCache(es), max) == Some(es)
  {
    hide ReadCache, WriteCache;
    PersistRoundTrip(h, es, [], max);
    AllIntact(h, es);
    assert WriteCache(es) + [] == WriteCache(es);
  }

  lemma ShortEntry(e: Entry, n: nat)
    requires |e.chunk| < U32_LIMIT && n < |WriteEntry(e)|
    ensures ReadEntry(WriteEntry(e)[..n]).None?
  {
    hide Le32, ReadLe32;
    if n >= 36 {
      var b := WriteEntry(e)[..n];
      assert b[32..36] == Le32(|e.chunk|);
      ReadLe32Inverts(|e.chunk|);
    }
  }

  lemma {:induction false} ShortEntries(h: Hash, es: seq<Entry>, n: nat, done: seq<Entry>, max: nat)
    requires (forall e :: e in es ==> |e.chunk| < U32_LIMIT) && n < |WriteEntries(es)|
    ensures ReadEntries(h, WriteEntries(es)[..n], |es|, done, max).None?
    decreases |es|
  {
    hide ReadEntry, Insert, WriteEntry;
    var e, rest := es[0], es[1..];
    var k := |WriteEntry(e)|;
    if n < k {
      ShortEntry(e, n);
      assert WriteEntries(es)[..n] == WriteEntry(e)[..n];
    } else {
      var tail := WriteEntries(rest)[..n - k];
      ReadEntryInverts(e, tail);
      assert WriteEntries(es)[..n] == WriteEntry(e) + tail;
      ShortEntries(h, rest, n - k, if h(e.chunk) == e.key then Insert(done, e.key, e.chunk, max) else done, max);
    }
  }

  /** A file that was cut short anywhere is refused. */
  lemma TruncatedIsRefused(h: Hash, es: seq<Entry>, n: nat, max: nat)
    requires Writable(es) && n < |WriteCache(es)|
    ensures ReadCache(h, WriteCache(es)[..n], max).None?
  {
    hide ReadEntries, WriteEntries, Le32, ReadLe32;
    if n >= 4 {
      var b := WriteCache(es)[..n];
      assert b[..4] == Le32(|es|) && b[4..] == WriteEntries(es)[..n - 4];
      ReadLe32Inverts(|es|);
      ShortEntries(h, es, n - 4, [], max);
    }
  }

  /** The insertions that loading a file makes. */
  function LoadOps(h: Hash, b: bytes, n: nat): seq<Op>
    decreases n
  {
    if n == 0 then []
    else match ReadEntry(b)
      case None => []
      case Some((e, rest)) => (if h(e.chunk) == e.key then [Ins(e.key, e.chunk)] else []) + LoadOps(h, rest, n - 1)
  }

  ghost predicate InsertsHash(h: Hash, ops: seq<Op>) {
    forall op :: op in ops && op.Ins? ==> h(op.chunk) == op.key
  }

  /** Loading is a run of insertions, each of a chunk that hashes to its key. */
  lemma {:induction false} LoadingInserts(h: Hash, b: bytes, n: nat, es: seq<Entry>, max: nat)
    requires ReadEntries(h, b, n, es, max).Some?
    ensures ReadEntries(h, b, n, es, max).value == Run(es, LoadOps(h, b, n), max)
    ensures InsertsHash(h, LoadOps(h, b, n)) && forall op :: op in LoadOps(h, b, n) ==> op.Ins?
    decreases n
  {
    hide ReadEntry, Insert;
    if n > 0 {
      var (e, rest) := ReadEntry(b).value;
      var es' := if h(e.chunk) == e.key then Insert(es, e.key, e.chunk, max) else es;
      LoadingInserts(h, rest, n - 1, es', max);
      if h(e.chunk) == e.key {
        var ops := LoadOps(h, b, n);
        assert ops[0] == Ins(e.key, e.chunk) && ops[1..] == LoadOps(h, rest, n - 1);
      } else {
        assert LoadOps(h, b, n) == LoadOps(h, rest, n - 1);
      }
    }
  }

  /** Insertions of chunks that hash to their keys keep a bounded, duplicate-free, content-valid cache. */
  lemma {:induction false} InsertsKeep(h: Hash, es: seq<Entry>, ops: seq<Op>, max: nat)
    requires Distinct(es) && Size(es) <= max && HashesToKeys(h, es)
    requires InsertsHash(h, ops) && forall op :: op in ops ==> op.Ins?
    ensures var es' := Run(es, ops, max); Distinct(es') && Size(es') <= max && HashesToKeys(h, es')
    decreases |ops|
  {
    hide Without, Fit, Size, Distinct;
    if ops != [] {
      var k, e := ops[0].key, Entry(ops[0].key, ops[0].chunk);
      assert ops[0] in ops;
      WithoutDistinct(es, k);
      WithoutMembers(es, k);
      SnocDistinct(Without(es, k), e);
      FitBounds(Without(es, k) + [e], max);
      InsertsKeep(h, Apply(es, ops[0], max), ops[1..], max);
    }
  }

  /** `None` stands for a count or a length that does not fit 32 bits. */
  method WriteChunkCache(cache: RawChunkCache) returns (r: Option<bytes>)
    ensures r.Some? <==> Writable(cache.chunks)
    ensures r.Some? ==> r.value == WriteCache(cache.chunks)
  {
    hide Le32;
    var es := cache.chunks;
    if |es| >= U32_LIMIT {
      return None;
    }
    var file := Le32(|es|);
    for i := 0 to |es|
      invariant forall j :: 0 <= j < i ==> |es[j].chunk| < U32_LIMIT
      invariant Writable(es) ==> file + WriteEntries(es[i..]) == WriteCache(es)
    {
      assert es[i..][1..] == es[i + 1..] && es[i] in es;
      file := file + es[i].key;
      if |es[i].chunk| >= U32_LIMIT {
        return None;
      }
      file := file + Le32(|es[i].chunk|);
      file := file + es[i].chunk;
    }
    r := Some(file);
  }

  method ReadChunkCache(h: Hash, file: bytes, cache: RawChunkCache) returns (ok: bool)
    requires cache.Valid() && cache.chunks == []
    modifies cache
    ensures cache.Valid()
    ensures ok <==> ReadCache(h, file, cache.maxSize).Some?
    ensures ok ==> cache.chunks == ReadCache(h, file, cache.maxSize).value
  {
    hide Insert, ReadLe32;
    if |file| < 4 {
      return false;
    }
    var count := ReadLe32(file[..4]);
    var b := file[4..];
    for i := 0 to count
      invariant cache.Valid()
      invariant ReadEntries(h, b, count - i, cache.chunks, cache.maxSize) == ReadCache(h, file, cache.maxSize)
    {
      if |b| < 36 {
        return false;
      }
      var key, length := b[..32], ReadLe32(b[32..36]);
      if length > CHUNK_LENGTH_LIMIT || |b| < 36 + length {
        return false;
      }
      var chunk := b[36..36 + length];
      b := b[36 + length..];
      if h(chunk) == key {
        cache.InsertChunk(key, chunk);
      }
    }
    ok := true;
  }
}
