/** The size-bounded chunk cache: entries in order of use, oldest first. */
module Lru {
  import opened Bytes
  import opened ChunkLists

  datatype Entry = Entry(key: Key, chunk: bytes)

  predicate Distinct(es: seq<Entry>) {
    forall i, j :: 0 <= i < j < |es| ==> es[i].key != es[j].key
  }

  function Size(es: seq<Entry>): nat {
    if es == [] then 0 else |es[0].chunk| + Size(es[1..])
  }

  predicate Has(es: seq<Entry>, k: Key) {
    exists e :: e in es && e.key == k
  }

  function Lookup(es: seq<Entry>, k: Key): (r: Option<bytes>)
    ensures r.Some? <==> Has(es, k)
    ensures r.Some? ==> Entry(k, r.value) in es
  {
    if es == [] then None else if es[0].key == k then Some(es[0].chunk) else Lookup(es[1..], k)
  }

  function Without(es: seq<Entry>, k: Key): seq<Entry> {
    if es == [] then [] else (if es[0].key == k then [] else [es[0]]) + Without(es[1..], k)
  }

  /** What eviction from the front leaves. */
  function Fit(es: seq<Entry>, max: nat): seq<Entry> {
    if Size(es) <= max then es else Fit(es[1..], max)
  }

  function Insert(es: seq<Entry>, k: Key, chunk: bytes, max: nat): seq<Entry> {
    Fit(Without(es, k) + [Entry(k, chunk)], max)
  }

  /** A lookup makes the entry found the newest. */
  function Touch(es: seq<Entry>, k: Key): seq<Entry> {
    match Lookup(es, k)
    case None => es
    case Some(chunk) => Without(es, k) + [Entry(k, chunk)]
  }

  // ----- Sizes

  lemma {:induction false} SizeConcat(a: seq<Entry>, b: seq<Entry>)
    ensures Size(a + b) == Size(a) + Size(b)
  {
    if a == [] {
      assert a + b == b;
    } else {
      assert (a + b)[1..] == a[1..] + b;
      SizeConcat(a[1..], b);
    }
  }

  lemma {:induction false} WithoutConcat(a: seq<Entry>, b: seq<Entry>, k: Key)
    ensures Without(a + b, k) == Without(a, k) + Without(b, k)
  {
    if a == [] {
      assert a + b == b;
    } else {
      assert (a + b)[1..] == a[1..] + b;
      WithoutConcat(a[1..], b, k);
    }
  }

  lemma {:induction false} WithoutMembers(es: seq<Entry>, k: Key)
    ensures forall e :: e in Without(es, k) <==> e in es && e.key != k
  {
    if es != [] {
      WithoutMembers(es[1..], k);
      assert es == [es[0]] + es[1..];
    }
  }

  lemma WithoutOther(e: Entry, k: Key)
    requires e.key != k
    ensures Without([e], k) == [e]
  {}

  lemma {:induction false} WithoutAbsent(es: seq<Entry>, k: Key)
    requires !Has(es, k)
    ensures Without(es, k) == es
  {
    if es != [] {
      assert es[0] in es;
      WithoutAbsent(es[1..], k);
    }
  }

  lemma {:induction false} WithoutDistinct(es: seq<Entry>, k: Key)
    requires Distinct(es)
    ensures Distinct(Without(es, k)) && !Has(Without(es, k), k)
  {
    WithoutMembers(es, k);
    if es != [] {
      WithoutDistinct(es[1..], k);
      WithoutMembers(es[1..], k);
    }
  }

  lemma {:induction false} WithoutSize(es: seq<Entry>, k: Key)
    requires Distinct(es)
    ensures Size(es) == Size(Without(es, k)) + |Lookup(es, k).GetOr([])|
  {
    if es != [] {
      WithoutSize(es[1..], k);
      if es[0].key == k {
        WithoutAbsent(es[1..], k);
        assert Without(es, k) == es[1..];
      } else {
        SizeConcat([es[0]], Without(es[1..], k));
      }
    }
  }

  lemma SnocDistinct(es: seq<Entry>, e: Entry)
    requires Distinct(es) && !Has(es, e.key)
    ensures Distinct(es + [e])
  {}

  // ----- Eviction

  /** Eviction leaves the longest suffix that fits. */
  lemma {:induction false} FitIsLongest(es: seq<Entry>, max: nat) returns (i: nat)
    ensures i <= |es| && Fit(es, max) == es[i..] && Size(es[i..]) <= max
    ensures forall j :: 0 <= j < i ==> Size(es[j..]) > max
    ensures forall j :: 0 <= j <= |es| && Size(es[j..]) <= max ==> i <= j
  {
    if Size(es) <= max {
      i := 0;
      assert es[0..] == es;
    } else {
      var i' := FitIsLongest(es[1..], max);
      i := i' + 1;
      assert es[1..][i'..] == es[i..];
      forall j | 0 <= j < i ensures Size(es[j..]) > max {
        if j > 0 {
          assert es[1..][j - 1..] == es[j..];
        } else {
          assert es[0..] == es;
        }
      }
    }
  }

  lemma FitBounds(es: seq<Entry>, max: nat)
    requires Distinct(es)
    ensures Size(Fit(es, max)) <= max && Distinct(Fit(es, max))
    ensures forall e :: e in Fit(es, max) ==> e in es
  {
    var i := FitIsLongest(es, max);
  }

  /** Evicting early or late makes no difference to what is left. */
  lemma {:induction false} FitTwice(a: seq<Entry>, b: seq<Entry>, max: nat)
    ensures Fit(Fit(a, max) + b, max) == Fit(a + b, max)
  {
    if Size(a) > max {
      SizeConcat(a, b);
      assert (a + b)[1..] == a[1..] + b;
      FitTwice(a[1..], b, max);
    }
  }

  // ----- Lookups

  lemma LookupIs(es: seq<Entry>, e: Entry)
    requires Distinct(es) && e in es
    ensures Lookup(es, e.key) == Some(e.chunk)
  {
    var i :| 0 <= i < |es| && es[i] == e;
    var found := Entry(e.key, Lookup(es, e.key).value);
    var j :| 0 <= j < |es| && es[j] == found;
  }

  /** An insertion replaces what was cached under its key, unless it is larger than the cache; others stay or go. */
  lemma InsertLookup(es: seq<Entry>, k: Key, chunk: bytes, max: nat, x: Key)
    requires Distinct(es)
    ensures Lookup(Insert(es, k, chunk, max), k) == if |chunk| <= max then Some(chunk) else None
    ensures x != k ==> Lookup(Insert(es, k, chunk, max), x) in {None, Lookup(es, x)}
  {
    hide Lookup, Without, Size, Fit;
    var e, all := Entry(k, chunk), Without(es, k) + [Entry(k, chunk)];
    WithoutDistinct(es, k);
    WithoutMembers(es, k);
    SnocDistinct(Without(es, k), e);
    FitBounds(all, max);
    FitKeepsLast(Without(es, k), e, max);
    var es' := Insert(es, k, chunk, max);
    if |chunk| <= max {
      assert e in es';
      LookupIs(es', e);
    }
    if x != k && Lookup(es', x).Some? {
      var kept := Entry(x, Lookup(es', x).value);
      assert kept in es' && kept in all && kept in es;
      LookupIs(es, kept);
    }
  }

  lemma FitKeepsLast(es: seq<Entry>, e: Entry, max: nat)
    ensures Fit(es + [e], max) == [] || Fit(es + [e], max)[|Fit(es + [e], max)| - 1] == e
    ensures Fit(es + [e], max) == [] <==> |e.chunk| > max
  {
    var i := FitIsLongest(es + [e], max);
    var n := |es|;
    assert (es + [e])[n..] == [e] && Size([e]) == |e.chunk|;
    if i <= n {
      SizeConcat(es[i..], [e]);
      assert (es + [e])[i..] == es[i..] + [e];
    }
  }

  class RawChunkCache {
    var chunks: seq<Entry>
    var totalSize: nat
    const maxSize: nat

    /** The running total is the exact sum of the entry sizes and within the limit. */
    ghost predicate Valid()
      reads this
    {
      Distinct(chunks) && totalSize == Size(chunks) && totalSize <= maxSize
    }

    constructor (maxSize: nat)
      ensures Valid() && chunks == [] && this.maxSize == maxSize
    {
      chunks := [];
      totalSize := 0;
      this.maxSize := maxSize;
    }

    method InsertChunk(key: Key, chunk: bytes)
      requires Valid()
      modifies this
      ensures Valid() && chunks == Insert(old(chunks), key, chunk, maxSize)
    {
      WithoutDistinct(chunks, key);
      WithoutSize(chunks, key);
      SnocDistinct(Without(chunks, key), Entry(key, chunk));
      SizeConcat(Without(chunks, key), [Entry(key, chunk)]);
      totalSize := totalSize + |chunk|;
      var replaced := Lookup(chunks, key);
      chunks := Without(chunks, key) + [Entry(key, chunk)];
      if replaced.Some? {
        totalSize := totalSize - |replaced.value|;
      }
      ghost var full := chunks;
      while totalSize > maxSize
        invariant Distinct(chunks) && totalSize == Size(chunks)
        invariant Fit(chunks, maxSize) == Fit(full, maxSize)
        decreases |chunks|
      {
        var evicted := chunks[0].chunk;
        chunks := chunks[1..];
        totalSize := totalSize - |evicted|;
      }
    }

    method Get(key: Key) returns (chunk: Option<bytes>)
      requires Valid()
      modifies this`chunks
      ensures Valid() && chunk == Lookup(old(chunks), key) && chunks == Touch(old(chunks), key)
    {
      WithoutDistinct(chunks, key);
      WithoutSize(chunks, key);
      chunk := Lookup(chunks, key);
      if chunk.Some? {
        SnocDistinct(Without(chunks, key), Entry(key, chunk.value));
        SizeConcat(Without(chunks, key), [Entry(key, chunk.value)]);
        chunks := Without(chunks, key) + [Entry(key, chunk.value)];
      }
    }
  }
}

/** How long an entry survives. */
module LruSurvival {
  import opened Bytes
  import opened ChunkLists
  import opened Lru

  datatype Op = Ins(key: Key, chunk: bytes) | Use(key: Key)

  function Apply(es: seq<Entry>, op: Op, max: nat): seq<Entry> {
    match op
    case Ins(k, c) => Insert(es, k, c, max)
    case Use(k) => Touch(es, k)
  }

  function Run(es: seq<Entry>, ops: seq<Op>, max: nat): seq<Entry>
    decreases |ops|
  {
    if ops == [] then es else Run(Apply(es, ops[0], max), ops[1..], max)
  }

  /** The chunk inserted last under `k`. */
  function LastInserted(ops: seq<Op>, k: Key): Option<bytes>
    decreases |ops|
  {
    if ops == [] then None
    else
      var last := ops[|ops| - 1];
      if last.Ins? && last.key == k then Some(last.chunk) else LastInserted(ops[..|ops| - 1], k)
  }

  /** Whatever was inserted, looked up and evicted, a lookup finds the chunk inserted last under its key, or nothing. */
  lemma {:induction false} LookupsAreLatest(ops: seq<Op>, k: Key, max: nat)
    ensures Distinct(Run([], ops, max)) && Lookup(Run([], ops, max), k) in {None, LastInserted(ops, k)}
    decreases |ops|
  {
    hide Insert, Touch, Lookup;
    if ops == [] {
      assert !Has([], k);
    } else {
      var n := |ops| - 1;
      var es, last := Run([], ops[..n], max), ops[n];
      LookupsAreLatest(ops[..n], k, max);
      RunLast(ops, max);
      match last
      case Ins(x, chunk) =>
        InsertDistinct(es, x, chunk, max);
        InsertLookup(es, x, chunk, max, k);
      case Use(x) => TouchLookup(es, x, k);
    }
  }

  lemma RunLast(ops: seq<Op>, max: nat)
    requires ops != []
    ensures var n := |ops| - 1; Run([], ops, max) == Apply(Run([], ops[..n], max), ops[n], max)
  {
    hide Apply;
    var n := |ops| - 1;
    RunConcat([], ops[..n], [ops[n]], max);
    assert ops == ops[..n] + [ops[n]] && [ops[n]][1..] == [];
  }

  lemma InsertDistinct(es: seq<Entry>, k: Key, chunk: bytes, max: nat)
    requires Distinct(es)
    ensures Distinct(Insert(es, k, chunk, max))
  {
    WithoutDistinct(es, k);
    SnocDistinct(Without(es, k), Entry(k, chunk));
    FitBounds(Without(es, k) + [Entry(k, chunk)], max);
  }

  lemma TouchLookup(es: seq<Entry>, x: Key, k: Key)
    requires Distinct(es)
    ensures Distinct(Touch(es, x)) && Lookup(Touch(es, x), k) == Lookup(es, k)
  {
    hide Lookup, Without;
    if Lookup(es, x).Some? {
      var e := Entry(x, Lookup(es, x).value);
      WithoutDistinct(es, x);
      WithoutMembers(es, x);
      SnocDistinct(Without(es, x), e);
      SameLookup(es, Touch(es, x), e, k);
    }
  }

  lemma SameLookup(a: seq<Entry>, b: seq<Entry>, e: Entry, k: Key)
    requires Distinct(a) && Distinct(b) && e in a && e in b
    requires forall x: Entry :: x.key != e.key ==> (x in a <==> x in b)
    ensures Lookup(a, k) == Lookup(b, k)
  {
    hide Lookup;
    LookupIs(a, e);
    LookupIs(b, e);
    if k != e.key && Lookup(a, k).Some? { LookupIs(b, Entry(k, Lookup(a, k).value)); }
    if k != e.key && Lookup(b, k).Some? { LookupIs(a, Entry(k, Lookup(b, k).value)); }
  }

  function UsedKeys(ops: seq<Op>): set<Key> {
    set op | op in ops :: op.key
  }

  /** Chunk sizes are a function of the key. */
  type Sizes = Key -> nat

  ghost predicate Sized(es: seq<Entry>, sizes: Sizes) {
    forall e :: e in es ==> |e.chunk| == sizes(e.key)
  }

  ghost predicate OpsSized(ops: seq<Op>, sizes: Sizes) {
    forall op :: op in ops && op.Ins? ==> |op.chunk| == sizes(op.key)
  }

  ghost function Total(sizes: Sizes, s: set<Key>): nat {
    if s == {} then 0 else var k :| k in s; sizes(k) + Total(sizes, s - {k})
  }

  lemma {:induction false} TotalWithout(sizes: Sizes, s: set<Key>, k: Key)
    requires k in s
    ensures Total(sizes, s) == sizes(k) + Total(sizes, s - {k})
    decreases |s|
  {
    var p :| p in s && Total(sizes, s) == sizes(p) + Total(sizes, s - {p});
    if p != k {
      TotalWithout(sizes, s - {p}, k);
      TotalWithout(sizes, s - {k}, p);
      assert s - {p} - {k} == s - {k} - {p};
    }
  }

  lemma {:induction false} DistinctEntriesWithin(es: seq<Entry>, sizes: Sizes, s: set<Key>)
    requires Distinct(es) && Sized(es, sizes)
    requires forall e :: e in es ==> e.key in s
    ensures Size(es) <= Total(sizes, s)
    decreases |es|
  {
    if es != [] {
      TotalWithout(sizes, s, es[0].key);
      forall e | e in es[1..] ensures e.key in s - {es[0].key} {
        var i :| 0 <= i < |es[1..]| && es[1..][i] == e;
        assert es[i + 1].key != es[0].key;
      }
      DistinctEntriesWithin(es[1..], sizes, s - {es[0].key});
    }
  }

  /** `k` is present and everything used more recently is in `since`. */
  ghost predicate NewestBut(es: seq<Entry>, k: Key, since: set<Key>) {
    exists i :: 0 <= i < |es| && es[i].key == k && forall j :: i < j < |es| ==> es[j].key in since
  }

  lemma NewestSplit(pre: seq<Entry>, e: Entry, post: seq<Entry>, since: set<Key>)
    requires forall x :: x in post ==> x.key in since
    ensures NewestBut(pre + [e] + post, e.key, since)
  {
    var es := pre + [e] + post;
    assert es[|pre|] == e;
    forall j | |pre| < j < |es| ensures es[j].key in since {
      assert es[j] == post[j - |pre| - 1];
    }
  }

  lemma MovedToBack(es: seq<Entry>, x: Key, c: bytes, k: Key, since: set<Key>)
    requires NewestBut(es, k, since) && (x == k || x in since)
    ensures NewestBut(Without(es, x) + [Entry(x, c)], k, since)
  {
    hide Without;
    var last := Entry(x, c);
    if x == k {
      NewestSplit(Without(es, x), last, [], since);
      assert Without(es, x) + [last] + [] == Without(es, x) + [last];
    } else {
      var i :| 0 <= i < |es| && es[i].key == k && forall j :: i < j < |es| ==> es[j].key in since;
      var pre, post := es[..i], es[i + 1..];
      assert es == pre + [es[i]] + post;
      assert forall e :: e in post ==> e.key in since;
      PassedBy(pre, es[i], post, last, since);
    }
  }

  lemma PassedBy(pre: seq<Entry>, e: Entry, post: seq<Entry>, last: Entry, since: set<Key>)
    requires e.key != last.key && last.key in since
    requires forall x :: x in post ==> x.key in since
    ensures NewestBut(Without(pre + [e] + post, last.key) + [last], e.key, since)
  {
    hide Without, NewestBut;
    var x := last.key;
    WithoutConcat(pre + [e], post, x);
    WithoutConcat(pre, [e], x);
    WithoutOther(e, x);
    WithoutMembers(post, x);
    var post' := Without(post, x) + [last];
    assert forall y :: y in post' ==> y.key in since;
    NewestSplit(Without(pre, x), e, post', since);
    assert Without(pre + [e] + post, x) + [last] == Without(pre, x) + [e] + post';
  }

  lemma EvictionSpares(es: seq<Entry>, k: Key, since: set<Key>, sizes: Sizes, max: nat)
    requires Distinct(es) && Sized(es, sizes) && NewestBut(es, k, since) && k !in since
    requires sizes(k) + Total(sizes, since) <= max
    ensures NewestBut(Fit(es, max), k, since)
  {
    hide Fit, Size, Total;
    var i :| 0 <= i < |es| && es[i].key == k && forall j :: i < j < |es| ==> es[j].key in since;
    TailFits(es, i, since, sizes);
    var n := FitIsLongest(es, max);
    assert n <= i;
    var pre, post := es[n..i], es[i + 1..];
    assert es[n..] == pre + [es[i]] + post;
    NewestSplit(pre, es[i], post, since);
  }

  lemma TailFits(es: seq<Entry>, i: nat, since: set<Key>, sizes: Sizes)
    requires Distinct(es) && Sized(es, sizes) && i < |es| && forall j :: i < j < |es| ==> es[j].key in since
    ensures Size(es[i..]) <= sizes(es[i].key) + Total(sizes, since)
  {
    hide Total;
    DistinctEntriesWithin(es[i + 1..], sizes, since);
    assert es[i..] == [es[i]] + es[i + 1..];
    assert es[i] in es;
  }

  lemma SurvivesOne(es: seq<Entry>, op: Op, max: nat, k: Key, since: set<Key>, sizes: Sizes)
    requires Distinct(es) && Sized(es, sizes) && OpsSized([op], sizes)
    requires NewestBut(es, k, since) && k !in since && (op.key == k || op.key in since)
    requires sizes(k) + Total(sizes, since) <= max
    ensures Distinct(Apply(es, op, max)) && Sized(Apply(es, op, max), sizes)
    ensures NewestBut(Apply(es, op, max), k, since)
  {
    WithoutDistinct(es, op.key);
    WithoutMembers(es, op.key);
    assert op in [op];
    var chunk := if op.Ins? then op.chunk else Lookup(es, op.key).GetOr([]);
    if op.Ins? || Has(es, op.key) {
      var es' := Without(es, op.key) + [Entry(op.key, chunk)];
      SnocDistinct(Without(es, op.key), Entry(op.key, chunk));
      MovedToBack(es, op.key, chunk, k, since);
      if op.Ins? {
        FitBounds(es', max);
        EvictionSpares(es', k, since, sizes, max);
      }
    }
  }

  /** A chunk stays cached while its size and the sizes of the other chunks used since fit the limit. */
  lemma {:induction false} SurvivalLaw(es: seq<Entry>, ops: seq<Op>, max: nat, k: Key, since: set<Key>, sizes: Sizes)
    requires Distinct(es) && Sized(es, sizes) && OpsSized(ops, sizes)
    requires NewestBut(es, k, since) && k !in since && UsedKeys(ops) <= since + {k}
    requires sizes(k) + Total(sizes, since) <= max
    ensures Has(Run(es, ops, max), k)
    decreases |ops|
  {
    if ops != [] {
      assert ops[0] in ops;
      SurvivesOne(es, ops[0], max, k, since, sizes);
      SurvivalLaw(Apply(es, ops[0], max), ops[1..], max, k, since, sizes);
    }
  }

  lemma ApplyKeepsShape(es: seq<Entry>, op: Op, max: nat, sizes: Sizes)
    requires Distinct(es) && Sized(es, sizes) && Size(es) <= max && OpsSized([op], sizes)
    ensures var es' := Apply(es, op, max); Distinct(es') && Sized(es', sizes) && Size(es') <= max
  {
    hide Without, Fit, Size;
    assert op in [op];
    var k := op.key;
    WithoutDistinct(es, k);
    WithoutMembers(es, k);
    WithoutSize(es, k);
    var chunk := if op.Ins? then op.chunk else Lookup(es, k).GetOr([]);
    SnocDistinct(Without(es, k), Entry(k, chunk));
    if op.Ins? {
      FitBounds(Without(es, k) + [Entry(k, chunk)], max);
    } else {
      SizeConcat(Without(es, k), [Entry(k, chunk)]);
      SizeOne(Entry(k, chunk));
    }
  }

  lemma SizeOne(e: Entry)
    ensures Size([e]) == |e.chunk|
  {
    assert [e][1..] == [];
  }

  lemma {:induction false} RunKeepsShape(es: seq<Entry>, ops: seq<Op>, max: nat, sizes: Sizes)
    requires Distinct(es) && Sized(es, sizes) && Size(es) <= max && OpsSized(ops, sizes)
    ensures var es' := Run(es, ops, max); Distinct(es') && Sized(es', sizes) && Size(es') <= max
    decreases |ops|
  {
    hide Apply, Size;
    if ops != [] {
      assert ops[0] in ops;
      ApplyKeepsShape(es, ops[0], max, sizes);
      RunKeepsShape(Apply(es, ops[0], max), ops[1..], max, sizes);
    }
  }

  lemma {:induction false} RunConcat(es: seq<Entry>, a: seq<Op>, b: seq<Op>, max: nat)
    ensures Run(es, a + b, max) == Run(Run(es, a, max), b, max)
    decreases |a|
  {
    hide Apply;
    if a == [] {
      assert a + b == b;
    } else {
      assert (a + b)[1..] == a[1..] + b;
      RunConcat(Apply(es, a[0], max), a[1..], b, max);
    }
  }

  /** A chunk that fits the limit is cached, as the newest entry, right after it is inserted. */
  lemma InsertedIsNewest(es: seq<Entry>, k: Key, chunk: bytes, max: nat, since: set<Key>)
    requires |chunk| <= max
    ensures NewestBut(Insert(es, k, chunk, max), k, since)
  {
    var all := Without(es, k) + [Entry(k, chunk)];
    var n := FitIsLongest(all, max);
    assert all[|all| - 1..] == [Entry(k, chunk)];
    var fit := all[n..];
    assert fit[|fit| - 1] == Entry(k, chunk);
  }

  // ----- Exactly how long

  /** The entries more recent than that of `k`. */
  function Newer(es: seq<Entry>, k: Key): seq<Entry> {
    if es == [] then [] else if es[0].key == k then es[1..] else Newer(es[1..], k)
  }

  /** If `k` is present, all of `used` is more recent. */
  ghost predicate Behind(es: seq<Entry>, k: Key, used: set<Key>) {
    Has(es, k) ==> forall x :: x in used ==> Has(Newer(es, k), x)
  }

  lemma {:induction false} NewerMoved(es: seq<Entry>, last: Entry, k: Key)
    requires Has(es, k) && last.key != k
    ensures Newer(Without(es, last.key) + [last], k) == Without(Newer(es, k), last.key) + [last]
    decreases |es|
  {
    hide Has;
    var x := last.key;
    HasTail(es, k);
    if es[0].key == k {
      assert (Without(es, x) + [last])[0].key == k;
      assert (Without(es, x) + [last])[1..] == Without(es[1..], x) + [last];
    } else {
      NewerMoved(es[1..], last, k);
      if es[0].key != x {
        assert (Without(es, x) + [last])[1..] == Without(es[1..], x) + [last];
      } else {
        assert Without(es, x) == Without(es[1..], x);
      }
    }
  }

  lemma HasTail(es: seq<Entry>, k: Key)
    ensures Has(es, k) <==> es != [] && (es[0].key == k || Has(es[1..], k))
  {
    if es != [] {
      assert es == [es[0]] + es[1..];
    }
  }

  lemma {:induction false} NewerInSuffix(es: seq<Entry>, k: Key, n: nat)
    requires Distinct(es) && n <= |es| && Has(es[n..], k)
    ensures Has(es, k) && Newer(es[n..], k) == Newer(es, k)
    decreases n
  {
    if n == 0 {
      assert es[0..] == es;
    } else {
      assert es[1..][n - 1..] == es[n..];
      NewerInSuffix(es[1..], k, n - 1);
      HasTail(es, k);
      var e :| e in es[n..] && e.key == k;
      assert es[0].key != k;
    }
  }

  /** A use of another key puts it behind; eviction takes `k` before anything behind it. */
  lemma BehindOne(es: seq<Entry>, op: Op, max: nat, k: Key, used: set<Key>)
    requires Distinct(es) && Behind(es, k, used) && op.key != k && (op.Use? ==> Has(es, op.key))
    ensures Behind(Apply(es, op, max), k, used + {op.key})
  {
    hide Without, Fit, Newer, Distinct;
    var chunk := if op.Ins? then op.chunk else Lookup(es, op.key).value;
    var last := Entry(op.key, chunk);
    var moved := Without(es, op.key) + [last];
    WithoutMembers(es, op.key);
    if Has(moved, k) {
      NewerMoved(es, last, k);
      WithoutMembers(Newer(es, k), op.key);
      assert last in Newer(moved, k);
      forall x | x in used + {op.key} ensures Has(Newer(moved, k), x) {
        if x != op.key {
          var e :| e in Newer(es, k) && e.key == x;
          assert e in Newer(moved, k);
        }
      }
    }
    if op.Ins? {
      WithoutDistinct(es, op.key);
      SnocDistinct(Without(es, op.key), last);
      var n := FitIsLongest(moved, max);
      if Has(moved[n..], k) {
        NewerInSuffix(moved, k, n);
      }
    }
  }

  /** Every lookup of the run finds its key. */
  ghost predicate AllHit(es: seq<Entry>, ops: seq<Op>, max: nat)
    decreases |ops|
  {
    ops != [] ==> (ops[0].Use? ==> Has(es, ops[0].key)) && AllHit(Apply(es, ops[0], max), ops[1..], max)
  }

  lemma {:induction false} BehindAll(es: seq<Entry>, ops: seq<Op>, max: nat, k: Key, used: set<Key>, sizes: Sizes)
    requires Distinct(es) && Sized(es, sizes) && Size(es) <= max && OpsSized(ops, sizes)
    requires Behind(es, k, used) && AllHit(es, ops, max) && k !in UsedKeys(ops)
    ensures Behind(Run(es, ops, max), k, used + UsedKeys(ops))
    decreases |ops|
  {
    hide Apply, Behind, Size;
    if ops == [] {
      assert used + UsedKeys(ops) == used;
    } else {
      assert ops[0] in ops;
      BehindOne(es, ops[0], max, k, used);
      ApplyKeepsShape(es, ops[0], max, sizes);
      BehindAll(Apply(es, ops[0], max), ops[1..], max, k, used + {ops[0].key}, sizes);
      assert ops == [ops[0]] + ops[1..];
      assert UsedKeys(ops) == {ops[0].key} + UsedKeys(ops[1..]);
      assert used + {ops[0].key} + UsedKeys(ops[1..]) == used + UsedKeys(ops);
    }
  }

  lemma {:induction false} CoverSize(es: seq<Entry>, sizes: Sizes, s: set<Key>)
    requires Sized(es, sizes) && forall x :: x in s ==> Has(es, x)
    ensures Total(sizes, s) <= Size(es)
    decreases |es|
  {
    if s != {} {
      var x :| x in s;
      assert Has(es, x);
      var k := es[0].key;
      assert es[0] in es;
      forall y | y in s - {k} ensures Has(es[1..], y) {
        HasTail(es, y);
      }
      CoverSize(es[1..], sizes, s - {k});
      if k in s {
        TotalWithout(sizes, s, k);
      } else {
        assert s - {k} == s;
      }
    }
  }

  lemma {:induction false} NewerSize(es: seq<Entry>, k: Key, sizes: Sizes)
    requires Sized(es, sizes) && Has(es, k)
    ensures sizes(k) + Size(Newer(es, k)) <= Size(es) && Sized(Newer(es, k), sizes)
    decreases |es|
  {
    HasTail(es, k);
    assert es[0] in es;
    if es[0].key != k {
      NewerSize(es[1..], k, sizes);
    }
  }

  /**
   * Over a history in which every lookup hits, a chunk is cached exactly while its size and the sizes of the other
   * chunks used since its last use fit the limit.
   */
  lemma ExactSurvival(log: seq<Op>, i: nat, max: nat, sizes: Sizes)
    requires i < |log| && OpsSized(log, sizes) && AllHit([], log, max)
    requires log[i].key !in UsedKeys(log[i + 1..])
    ensures Has(Run([], log, max), log[i].key) <==> sizes(log[i].key) + Total(sizes, UsedKeys(log[i + 1..])) <= max
  {
    hide Run, Apply, Total, AllHit, UsedKeys, Size;
    var k, rest := log[i].key, log[i + 1..];
    var before := Run([], log[..i], max);
    var at := Apply(before, log[i], max);
    assert log == log[..i] + ([log[i]] + rest);
    SplitRun(log[..i], log[i], rest, max, sizes);
    var end := Run(at, rest, max);
    RunKeepsShape(at, rest, max, sizes);
    if Has(end, k) {
      BehindAll(at, rest, max, k, {}, sizes);
      assert {} + UsedKeys(rest) == UsedKeys(rest);
      NewerSize(end, k, sizes);
      CoverSize(Newer(end, k), sizes, UsedKeys(rest));
    }
    if sizes(k) + Total(sizes, UsedKeys(rest)) <= max {
      UsedIsNewest(before, log[i], max, UsedKeys(rest), sizes);
      SurvivalLaw(at, rest, max, k, UsedKeys(rest), sizes);
    }
  }

  lemma SplitRun(a: seq<Op>, op: Op, b: seq<Op>, max: nat, sizes: Sizes)
    requires OpsSized(a + ([op] + b), sizes) && AllHit([], a + ([op] + b), max)
    ensures var before := Run([], a, max);
            var at := Apply(before, op, max);
            && (op.Use? ==> Has(before, op.key))
            && Distinct(at) && Sized(at, sizes) && Size(at) <= max && OpsSized(b, sizes) && OpsSized([op], sizes) &&
                 AllHit(at, b, max)
            && Run([], a + ([op] + b), max) == Run(at, b, max)
  {
    hide Apply;
    var log := a + ([op] + b);
    assert OpsSized(a, sizes) && OpsSized(b, sizes) && OpsSized([op], sizes) by {
      assert forall x :: x in a || x in b || x == op ==> x in log;
    }
    RunKeepsShape([], a, max, sizes);
    ApplyKeepsShape(Run([], a, max), op, max, sizes);
    RunConcat([], a, [op] + b, max);
    AllHitConcat([], a, [op] + b, max);
    assert ([op] + b)[1..] == b;
  }

  lemma {:induction false} AllHitConcat(es: seq<Entry>, a: seq<Op>, b: seq<Op>, max: nat)
    ensures AllHit(es, a + b, max) <==> AllHit(es, a, max) && AllHit(Run(es, a, max), b, max)
    decreases |a|
  {
    hide Apply;
    if a == [] {
      assert a + b == b;
    } else {
      assert (a + b)[1..] == a[1..] + b;
      AllHitConcat(Apply(es, a[0], max), a[1..], b, max);
    }
  }

  lemma UsedIsNewest(es: seq<Entry>, op: Op, max: nat, since: set<Key>, sizes: Sizes)
    requires OpsSized([op], sizes) && sizes(op.key) <= max && (op.Use? ==> Has(es, op.key))
    ensures NewestBut(Apply(es, op, max), op.key, since)
  {
    hide Without;
    assert op in [op];
    if op.Ins? {
      InsertedIsNewest(es, op.key, op.chunk, max, since);
    } else {
      var pre, last := Without(es, op.key), Entry(op.key, Lookup(es, op.key).value);
      NewestSplit(pre, last, [], since);
      assert pre + [last] + [] == pre + [last];
    }
  }

  /** The operations of a run without the lookups that miss. */
  function Hits(es: seq<Entry>, ops: seq<Op>, max: nat): seq<Op>
    decreases |ops|
  {
    if ops == [] then []
    else (if ops[0].Use? && !Has(es, ops[0].key) then [] else [ops[0]]) + Hits(Apply(es, ops[0], max), ops[1..], max)
  }

  /** Misses change nothing. */
  lemma {:induction false} HitsRunAlike(es: seq<Entry>, ops: seq<Op>, max: nat)
    ensures AllHit(es, Hits(es, ops, max), max) && Run(es, Hits(es, ops, max), max) == Run(es, ops, max)
    ensures forall op :: op in Hits(es, ops, max) ==> op in ops
    ensures forall op :: op in ops && op.Ins? ==> op in Hits(es, ops, max)
    decreases |ops|
  {
    hide Insert;
    if ops != [] {
      var es' := Apply(es, ops[0], max);
      HitsRunAlike(es', ops[1..], max);
      var hits := Hits(es, ops, max);
      assert ops == [ops[0]] + ops[1..];
      if ops[0].Use? && !Has(es, ops[0].key) {
        assert es' == es && hits == Hits(es', ops[1..], max);
      } else {
        assert hits[0] == ops[0] && hits[1..] == Hits(es', ops[1..], max);
      }
    }
  }
}
