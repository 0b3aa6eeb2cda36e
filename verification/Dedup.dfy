/** Chunk keys and the serialized lists of keys that are the inner nodes of the chunk tree. */
module ChunkLists {
  import opened Bytes

  const KEY_SIZE: nat := 32

  type Key = k: bytes | |k| == KEY_SIZE witness Zeros(KEY_SIZE)

  /** The content hash. Nothing is known about it but the length of its output. */
  type Hash = bytes -> Key

  datatype ChunkList = ChunkList(isLeaf: bool, chunks: seq<Key>)

  function Encode(l: ChunkList): bytes
    requires |l.chunks| < U32_LIMIT
  {
    [if l.isLeaf then 1 else 0] + Be32(|l.chunks|) + Flatten(l.chunks)
  }

  /** The first `n` keys of `b`, if there are that many. */
  function TakeKeys(b: bytes, n: nat): Option<seq<Key>>
    decreases n
  {
    if n == 0 then Some([])
    else if |b| < KEY_SIZE then None
    else match TakeKeys(b[KEY_SIZE..], n - 1)
      case None => None
      case Some(rest) => Some([b[..KEY_SIZE]] + rest)
  }

  /** Bytes after the last key are ignored. */
  function Decode(b: bytes): Option<ChunkList> {
    if |b| < 5 then None
    else match TakeKeys(b[5..], ReadBe32(b[1..5]))
      case None => None
      case Some(keys) => Some(ChunkList(b[0] != 0, keys))
  }

  lemma {:induction false} TakeKeysExact(b: bytes, n: nat)
    ensures TakeKeys(b, n).Some? <==> |b| >= KEY_SIZE * n
    ensures TakeKeys(b, n).Some? ==> |TakeKeys(b, n).value| == n && Flatten(TakeKeys(b, n).value) == b[..KEY_SIZE * n]
    decreases n
  {
    if n > 0 && |b| >= KEY_SIZE {
      var tail := b[KEY_SIZE..];
      TakeKeysExact(tail, n - 1);
      if |b| >= KEY_SIZE * n {
        var keys := TakeKeys(b, n).value;
        assert keys[1..] == TakeKeys(tail, n - 1).value;
        assert b[..KEY_SIZE * n] == b[..KEY_SIZE] + tail[..KEY_SIZE * (n - 1)];
      }
    }
  }

  lemma {:induction false} TakeKeysOfFlatten(keys: seq<Key>, tail: bytes)
    ensures TakeKeys(Flatten(keys) + tail, |keys|) == Some(keys)
  {
    if keys != [] {
      var b := Flatten(keys) + tail;
      assert b[..KEY_SIZE] == keys[0];
      assert b[KEY_SIZE..] == Flatten(keys[1..]) + tail;
      TakeKeysOfFlatten(keys[1..], tail);
      assert [keys[0]] + keys[1..] == keys;
    }
  }

  /** A list is the flag, the count with its high byte first, and the keys in order. */
  lemma ListBytes(l: ChunkList, i: nat)
    requires |l.chunks| < U32_LIMIT
    ensures var b := Encode(l);
            && |b| == 5 + 32 * |l.chunks| && (if l.isLeaf then b[0] == 1 else b[0] == 0)
            && LowFirst([b[4], b[3], b[2], b[1]]) == |l.chunks|
            && (i < |l.chunks| ==> b[5 + 32 * i..5 + 32 * i + 32] == l.chunks[i])
  {
    hide Be32, LowFirst;
    var b, n := Encode(l), Be32(|l.chunks|);
    assert b[1] == n[0] && b[2] == n[1] && b[3] == n[2] && b[4] == n[3];
    FieldValue(|l.chunks|);
    FlattenKeysLength(l.chunks);
    if i < |l.chunks| {
      KeyInFlatten(l.chunks, i);
      assert b[5 + 32 * i..5 + 32 * i + 32] == Flatten(l.chunks)[32 * i..32 * i + 32];
    }
  }

  lemma {:induction false} KeyInFlatten(keys: seq<Key>, i: nat)
    requires i < |keys|
    ensures 32 * i + 32 <= |Flatten(keys)| && Flatten(keys)[32 * i..32 * i + 32] == keys[i]
  {
    FlattenKeysLength(keys);
    if i > 0 {
      KeyInFlatten(keys[1..], i - 1);
      FlattenKeysLength(keys[1..]);
      assert Flatten(keys)[32 * i..32 * i + 32] == Flatten(keys[1..])[32 * (i - 1)..32 * (i - 1) + 32];
    }
  }

  /** Decoding inverts encoding, whatever follows the encoded list. */
  lemma DecodeInverts(l: ChunkList, tail: bytes)
    requires |l.chunks| < U32_LIMIT
    ensures Decode(Encode(l) + tail) == Some(l)
  {
    var b := Encode(l) + tail;
    assert b[1..5] == Be32(|l.chunks|);
    assert b[5..] == Flatten(l.chunks) + tail;
    ReadBe32Inverts(|l.chunks|);
    TakeKeysOfFlatten(l.chunks, tail);
  }

  lemma {:induction false} FlattenKeysLength(keys: seq<Key>)
    ensures |Flatten(keys)| == KEY_SIZE * |keys|
  {
    if keys != [] {
      FlattenKeysLength(keys[1..]);
    }
  }

  /** Decoding fails exactly on input too short for its own count, and otherwise reads what encoding writes. */
  lemma DecodeExact(b: bytes)
    ensures Decode(b).Some? <==> |b| >= 5 && |b| >= 5 + KEY_SIZE * ReadBe32(b[1..5])
    ensures Decode(b).Some? ==>
              var l := Decode(b).value;
              |l.chunks| == ReadBe32(b[1..5]) && l.isLeaf == (b[0] != 0) &&
              Encode(l)[1..] == Be32(|l.chunks|) + b[5..5 + KEY_SIZE * |l.chunks|]
  {
    if |b| >= 5 {
      TakeKeysExact(b[5..], ReadBe32(b[1..5]));
    }
  }

  /** `None` is the "ChunkList is too big" panic. */
  method EncodeList(l: ChunkList) returns (r: Option<bytes>)
    ensures r.Some? <==> |l.chunks| < U32_LIMIT
    ensures r.Some? ==> r.value == Encode(l)
  {
    if |l.chunks| >= U32_LIMIT {
      return None;
    }
    var buf: bytes := [if l.isLeaf then 1 else 0];
    buf := buf + Be32(|l.chunks|);
    ghost var head := buf;
    for i := 0 to |l.chunks|
      invariant buf == head + Flatten(l.chunks[..i])
    {
      buf := buf + l.chunks[i];
      assert l.chunks[..i + 1] == l.chunks[..i] + [l.chunks[i]];
      FlattenSnoc(l.chunks[..i], l.chunks[i]);
    }
    assert l.chunks[..|l.chunks|] == l.chunks;
    r := Some(buf);
  }

  method DecodeList(b: bytes) returns (r: Option<ChunkList>)
    ensures r == Decode(b)
  {
    if |b| < 5 {
      return None;
    }
    var count := ReadBe32(b[1..5]);
    var keys: seq<Key>, buf := [], b[5..];
    assert forall more: seq<Key> :: [] + more == more && more + [] == more;
    for i := 0 to count
      invariant match TakeKeys(buf, count - i)
                case None => Decode(b).None?
                case Some(more) => Decode(b) == Some(ChunkList(b[0] != 0, keys + more))
    {
      if |buf| < KEY_SIZE {
        return None;
      }
      ghost var more := TakeKeys(buf[KEY_SIZE..], count - i - 1);
      assert more.Some? ==> keys + [buf[..KEY_SIZE]] + more.value == keys + ([buf[..KEY_SIZE]] + more.value);
      keys := keys + [buf[..KEY_SIZE]];
      buf := buf[KEY_SIZE..];
    }
    r := Some(ChunkList(b[0] != 0, keys));
  }
}

/** The Merkle tree of chunk lists: its shape, how it is built, and how it is read back. */
module Dedup {
  import opened Bytes
  import opened ChunkLists
  import opened Chunking

  const MIN_CHUNKS_IN_LIST: nat := 32
  const AVG_CHUNKS_IN_LIST: nat := 128
  const MAX_CHUNKS_IN_LIST: nat := 512
  const MINIMIZE_THRESHOLD: nat := 64

  predicate IsSplitPoint(key: Key, numNodes: nat) {
    if numNodes < MIN_CHUNKS_IN_LIST then false
    else if numNodes >= MAX_CHUNKS_IN_LIST then true
    else ReadBe32(key[..4]) % AVG_CHUNKS_IN_LIST == 0
  }

  /** A list ends at 512 keys, or from 32 keys on at a key whose fourth byte is a multiple of 128. */
  predicate Splits(key: Key, n: nat) {
    n >= 512 || (n >= 32 && Val(key[3]) % 128 == 0)
  }

  lemma SplitPointIs(key: Key, n: nat)
    ensures IsSplitPoint(key, n) <==> Splits(key, n)
  {
    hide Val;
    LowByteDecides(key[..4]);
  }

  lemma LowByteDecides(s: bytes)
    requires |s| == 4
    ensures ReadBe32(s) % 128 == Val(s[3]) % 128
  {
    hide Val;
    var t := [s[3], s[2], s[1], s[0]];
    assert t[..2] == [s[3], s[2]] && t[2..] == [s[1], s[0]];
    var rest := 2 * Val(s[2]) + 512 * (Val(s[1]) + 256 * Val(s[0]));
    assert ReadBe32(s) == Val(s[3]) + 128 * rest;
    MultipleDropped(Val(s[3]), rest);
  }

  lemma MultipleDropped(n: nat, rest: nat)
    ensures (n + 128 * rest) % 128 == n % 128
  {}

  function Keys(h: Hash, nodes: seq<bytes>): (keys: seq<Key>)
    ensures |keys| == |nodes|
  {
    seq(|nodes|, i requires 0 <= i < |nodes| => h(nodes[i]))
  }

  // ----- One level of the tree, offline

  /** A level cut into complete groups and an open rest. */
  datatype Grouping = Grouping(full: seq<seq<bytes>>, rest: seq<bytes>)

  /** A group is complete when its newest node is a split point for the group's size. */
  function Group(h: Hash, nodes: seq<bytes>): (g: Grouping)
    ensures forall i :: 0 <= i < |g.full| ==> 32 <= |g.full[i]| <= 512
    ensures |g.rest| < 512
    ensures 32 * |g.full| + |g.rest| <= |nodes|
  {
    if nodes == [] then Grouping([], [])
    else
      var n := |nodes| - 1;
      var g := Group(h, nodes[..n]);
      var open := g.rest + [nodes[n]];
      if IsSplitPoint(h(nodes[n]), |open|) then Grouping(g.full + [open], []) else Grouping(g.full, open)
  }

  lemma {:induction false} GroupLossless(h: Hash, nodes: seq<bytes>)
    ensures Flatten(Group(h, nodes).full) + Group(h, nodes).rest == nodes
  {
    if nodes != [] {
      var n := |nodes| - 1;
      var g := Group(h, nodes[..n]);
      GroupLossless(h, nodes[..n]);
      assert nodes == nodes[..n] + [nodes[n]];
      FlattenSnoc(g.full, g.rest + [nodes[n]]);
    }
  }

  ghost predicate NeverSplits(h: Hash, s: seq<bytes>) {
    forall j :: 0 <= j < |s| ==> !Splits(h(s[j]), j + 1)
  }

  ghost predicate EndsAtFirstSplit(h: Hash, s: seq<bytes>) {
    s != [] && Splits(h(s[|s| - 1]), |s|) && NeverSplits(h, s[..|s| - 1])
  }

  /** Groups end at their first split point, and the open rest has none. */
  lemma {:induction false} GroupEndsAtFirstSplit(h: Hash, nodes: seq<bytes>)
    ensures forall i :: 0 <= i < |Group(h, nodes).full| ==> EndsAtFirstSplit(h, Group(h, nodes).full[i])
    ensures NeverSplits(h, Group(h, nodes).rest)
  {
    hide Splits, IsSplitPoint;
    if nodes != [] {
      var n := |nodes| - 1;
      var g := Group(h, nodes[..n]);
      GroupEndsAtFirstSplit(h, nodes[..n]);
      var open := g.rest + [nodes[n]];
      assert open[..|open| - 1] == g.rest;
      SplitPointIs(h(nodes[n]), |open|);
    }
  }

  /** After a complete group, grouping starts afresh. */
  lemma {:induction false} GroupAfterBoundary(h: Hash, done: seq<bytes>, more: seq<bytes>)
    requires Group(h, done).rest == []
    ensures var a, b := Group(h, done), Group(h, more);
            Group(h, done + more) == Grouping(a.full + b.full, b.rest)
    decreases |more|
  {
    hide IsSplitPoint;
    if more == [] {
      assert done + more == done && Group(h, done).full + [] == Group(h, done).full;
    } else {
      var n := |more| - 1;
      GroupAfterBoundary(h, done, more[..n]);
      assert (done + more)[..|done + more| - 1] == done + more[..n];
      var a, b := Group(h, done).full, Group(h, more[..n]);
      assert a + b.full + [b.rest + [more[n]]] == a + (b.full + [b.rest + [more[n]]]);
    }
  }

  /** Two levels that agree after a complete group of each are grouped identically from there on. */
  lemma GroupingResynchronizes(h: Hash, a: seq<bytes>, b: seq<bytes>, tail: seq<bytes>)
    requires Group(h, a).rest == [] && Group(h, b).rest == []
    ensures var ga, gb := Group(h, a + tail), Group(h, b + tail);
            && ga.rest == gb.rest && Group(h, a).full <= ga.full && Group(h, b).full <= gb.full
            && ga.full[|Group(h, a).full|..] == gb.full[|Group(h, b).full|..]
  {
    hide Group;
    GroupAfterBoundary(h, a, tail);
    GroupAfterBoundary(h, b, tail);
    assert Group(h, a + tail).full[|Group(h, a).full|..] == Group(h, tail).full;
    assert Group(h, b + tail).full[|Group(h, b).full|..] == Group(h, tail).full;
  }

  /** Adding nodes never changes the groups that are already complete. */
  lemma {:induction false} GroupKeepsFull(h: Hash, nodes: seq<bytes>, more: seq<bytes>)
    ensures Group(h, nodes).full <= Group(h, nodes + more).full
  {
    if more == [] {
      assert nodes + more == nodes;
    } else {
      var n := |more| - 1;
      GroupKeepsFull(h, nodes, more[..n]);
      assert (nodes + more)[..|nodes + more| - 1] == nodes + more[..n];
    }
  }

  /** The serialized inner node over a group. */
  function SealOne(h: Hash, leaf: bool, group: seq<bytes>): bytes
    requires |group| <= MAX_CHUNKS_IN_LIST
  {
    Encode(ChunkList(leaf, Keys(h, group)))
  }

  function Seal(h: Hash, leaf: bool, groups: seq<seq<bytes>>): (nodes: seq<bytes>)
    requires forall i :: 0 <= i < |groups| ==> |groups[i]| <= MAX_CHUNKS_IN_LIST
    ensures |nodes| == |groups|
  {
    seq(|groups|, i requires 0 <= i < |groups| => SealOne(h, leaf, groups[i]))
  }

  // ----- All levels, offline

  /** The open node of every level once `nodes` have been added to the lowest of them. */
  function Levels(h: Hash, leaf: bool, nodes: seq<bytes>): (levels: seq<ChunkList>)
    ensures |levels| >= 1
    decreases |nodes|
  {
    var g := Group(h, nodes);
    [ChunkList(leaf, Keys(h, g.rest))] +
    if g.full == [] then [] else Levels(h, false, Seal(h, leaf, g.full))
  }

  /** The root list; `carry` is the node, if any, that the finishing pass adds to this level. */
  function Root(h: Hash, leaf: bool, nodes: seq<bytes>, carry: seq<bytes>): ChunkList
    requires |carry| <= 1
    decreases |nodes|
  {
    var g := Group(h, nodes);
    var open := g.rest + carry;
    if g.full == [] then ChunkList(leaf, Keys(h, open))
    else Root(h, false, Seal(h, leaf, g.full), if open == [] then [] else [SealOne(h, leaf, open)])
  }

  /** The nodes added to this level and the levels above it while chunks arrive. */
  function Pushed(h: Hash, leaf: bool, nodes: seq<bytes>): set<bytes>
    decreases |nodes|
  {
    var g := Group(h, nodes);
    (set x | x in nodes) + if g.full == [] then {} else Pushed(h, false, Seal(h, leaf, g.full))
  }

  /** The nodes added by the finishing pass. */
  function Carried(h: Hash, leaf: bool, nodes: seq<bytes>, carry: seq<bytes>): set<bytes>
    requires |carry| <= 1
    decreases |nodes|
  {
    var g := Group(h, nodes);
    var open := g.rest + carry;
    (set x | x in carry) +
    if g.full == [] then {}
    else Carried(h, false, Seal(h, leaf, g.full), if open == [] then [] else [SealOne(h, leaf, open)])
  }

  /** Every string a build stores: data chunks and serialized nodes. */
  function Stored(h: Hash, chunks: seq<bytes>): set<bytes> {
    Pushed(h, true, chunks) + Carried(h, true, chunks, [])
  }

  function Height(h: Hash, leaf: bool, nodes: seq<bytes>): nat
    decreases |nodes|
  {
    var g := Group(h, nodes);
    if g.full == [] then 0 else 1 + Height(h, false, Seal(h, leaf, g.full))
  }

  /** A tree of height n covers at least 32^n chunks, and has one open node per level. */
  lemma {:induction false} HeightIsLogarithmic(h: Hash, leaf: bool, nodes: seq<bytes>)
    ensures |Levels(h, leaf, nodes)| == Height(h, leaf, nodes) + 1
    ensures Height(h, leaf, nodes) > 0 ==> Power(32, Height(h, leaf, nodes)) <= |nodes|
    decreases |nodes|
  {
    var g := Group(h, nodes);
    if g.full != [] {
      HeightIsLogarithmic(h, false, Seal(h, leaf, g.full));
    }
  }

  /** Open nodes hold fewer than 512 keys, only the lowest is a leaf list, and the top one of several is not empty. */
  lemma {:induction false} LevelShape(h: Hash, leaf: bool, nodes: seq<bytes>)
    ensures var levels := Levels(h, leaf, nodes);
            && levels[0].isLeaf == leaf
            && (forall i :: 0 <= i < |levels| ==> |levels[i].chunks| < 512)
            && (forall i :: 1 <= i < |levels| ==> !levels[i].isLeaf)
            && (nodes != [] && |levels| > 1 ==> levels[|levels| - 1].chunks != [])
    ensures nodes != [] && Group(h, nodes).full == [] ==> Levels(h, leaf, nodes)[0].chunks != []
    decreases |nodes|
  {
    hide Group, Seal, Keys;
    var g := Group(h, nodes);
    GroupLossless(h, nodes);
    if g.full != [] {
      LevelShape(h, false, Seal(h, leaf, g.full));
    }
  }

  lemma {:induction false} RootShape(h: Hash, leaf: bool, nodes: seq<bytes>, carry: seq<bytes>)
    requires |carry| <= 1
    ensures |Root(h, leaf, nodes, carry).chunks| <= 512
    ensures nodes != [] ==> Root(h, leaf, nodes, carry).chunks != []
    decreases |nodes|
  {
    var g := Group(h, nodes);
    var open := g.rest + carry;
    GroupLossless(h, nodes);
    if g.full != [] {
      RootShape(h, false, Seal(h, leaf, g.full), if open == [] then [] else [SealOne(h, leaf, open)]);
    }
  }

  // ----- The chunk map

  /** `m'` is `m` after inserting the strings of `s` under their hashes, in some order. */
  ghost predicate Inserted(h: Hash, m: map<Key, bytes>, s: set<bytes>, m': map<Key, bytes>) {
    && (forall x :: x in s ==> h(x) in m')
    && (forall k :: k in m' ==>
          || (m'[k] in s && h(m'[k]) == k)
          || (k in m && m'[k] == m[k] && forall x :: x in s ==> h(x) != k))
    && (forall k :: k in m ==> k in m')
  }

  lemma InsertOne(h: Hash, m: map<Key, bytes>, s: set<bytes>, m': map<Key, bytes>, x: bytes)
    requires Inserted(h, m, s, m')
    ensures Inserted(h, m, s + {x}, m'[h(x) := x])
  {}

  lemma InsertedOne(h: Hash, m: map<Key, bytes>, x: bytes)
    ensures Inserted(h, m, {x}, m[h(x) := x])
  {}

  lemma InsertedNothing(h: Hash, m: map<Key, bytes>)
    ensures Inserted(h, m, {}, m)
  {}

  lemma InsertedTwice(h: Hash, m: map<Key, bytes>, s: set<bytes>, m': map<Key, bytes>, t: set<bytes>,
                      m'': map<Key, bytes>)
    requires Inserted(h, m, s, m') && Inserted(h, m', t, m'')
    ensures Inserted(h, m, s + t, m'')
  {}

  /** No two strings of `s` share a hash. */
  ghost predicate CollisionFree(h: Hash, s: set<bytes>) {
    forall x, y :: x in s && y in s && h(x) == h(y) ==> x == y
  }

  /** Every string of `s` is found under its hash. */
  ghost predicate Holds(h: Hash, m: map<Key, bytes>, s: set<bytes>) {
    forall x :: x in s ==> h(x) in m && m[h(x)] == x
  }

  ghost predicate HashConsistent(h: Hash, m: map<Key, bytes>) {
    forall k :: k in m ==> h(m[k]) == k
  }

  lemma InsertedHolds(h: Hash, m: map<Key, bytes>, s: set<bytes>, m': map<Key, bytes>)
    requires Inserted(h, m, s, m')
    ensures CollisionFree(h, s) ==> Holds(h, m', s)
    ensures HashConsistent(h, m) ==> HashConsistent(h, m')
  {}

  // ----- Building the tree while chunks arrive

  function PushKey(levels: seq<ChunkList>, key: Key): seq<ChunkList>
    requires levels != []
  {
    levels[0 := ChunkList(levels[0].isLeaf, levels[0].chunks + [key])]
  }

  /** The nodes that one more node `x` on this level adds: itself, and one per level that splits. */
  function NewNodes(h: Hash, leaf: bool, nodes: seq<bytes>, x: bytes): (added: set<bytes>)
    ensures x in added
    decreases |nodes|
  {
    var g := Group(h, nodes);
    var open := g.rest + [x];
    {x} + if IsSplitPoint(h(x), |open|) then NewNodes(h, false, Seal(h, leaf, g.full), SealOne(h, leaf, open)) else {}
  }

  lemma GroupSnoc(h: Hash, nodes: seq<bytes>, x: bytes)
    ensures var g := Group(h, nodes);
            Group(h, nodes + [x]) ==
              if IsSplitPoint(h(x), |g.rest| + 1) then Grouping(g.full + [g.rest + [x]], [])
              else Grouping(g.full, g.rest + [x])
  {
    assert (nodes + [x])[..|nodes|] == nodes;
  }

  lemma KeysSnoc(h: Hash, nodes: seq<bytes>, x: bytes)
    ensures Keys(h, nodes + [x]) == Keys(h, nodes) + [h(x)]
  {}

  lemma SealSnoc(h: Hash, leaf: bool, groups: seq<seq<bytes>>, open: seq<bytes>)
    requires forall i :: 0 <= i < |groups| ==> |groups[i]| <= MAX_CHUNKS_IN_LIST
    requires |open| <= MAX_CHUNKS_IN_LIST
    ensures Seal(h, leaf, groups + [open]) == Seal(h, leaf, groups) + [SealOne(h, leaf, open)]
  {
    hide SealOne;
  }

  lemma {:induction false} PushedSnoc(h: Hash, leaf: bool, nodes: seq<bytes>, x: bytes)
    ensures Pushed(h, leaf, nodes + [x]) == Pushed(h, leaf, nodes) + NewNodes(h, leaf, nodes, x)
    decreases |nodes|
  {
    hide IsSplitPoint, SealOne, Seal, Group;
    var g := Group(h, nodes);
    GroupSnoc(h, nodes, x);
    if IsSplitPoint(h(x), |g.rest| + 1) {
      var open := g.rest + [x];
      SealSnoc(h, leaf, g.full, open);
      PushedSnoc(h, false, Seal(h, leaf, g.full), SealOne(h, leaf, open));
    }
  }

  /** What one round of the cascade does to the levels from the split one upwards. */
  lemma SplitLevels(h: Hash, leaf: bool, nodes: seq<bytes>, x: bytes)
    requires IsSplitPoint(h(x), |Group(h, nodes).rest| + 1)
    ensures var g := Group(h, nodes);
            var above := Seal(h, leaf, g.full);
            && Levels(h, leaf, nodes + [x]) ==
                 [ChunkList(leaf, [])] + Levels(h, false, above + [SealOne(h, leaf, g.rest + [x])])
            && (if g.full == [] then above == [] && |Levels(h, leaf, nodes)| == 1
                else Levels(h, leaf, nodes)[1..] == Levels(h, false, above))
  {
    hide IsSplitPoint, SealOne, Seal, Group;
    var g := Group(h, nodes);
    GroupSnoc(h, nodes, x);
    SealSnoc(h, leaf, g.full, g.rest + [x]);
  }

  lemma NewNodesStep(h: Hash, leaf: bool, nodes: seq<bytes>, x: bytes)
    ensures var g := Group(h, nodes);
            NewNodes(h, leaf, nodes, x) ==
              if IsSplitPoint(h(x), |g.rest| + 1)
              then {x} + NewNodes(h, false, Seal(h, leaf, g.full), SealOne(h, leaf, g.rest + [x]))
              else {x}
  {
    hide IsSplitPoint, SealOne, Seal, Group;
  }

  lemma SealOneIs(h: Hash, leaf: bool, open: seq<bytes>)
    requires |open| <= MAX_CHUNKS_IN_LIST
    ensures SealOne(h, leaf, open) == Encode(ChunkList(leaf, Keys(h, open)))
  {}

  lemma SmallListsDoNotSplit(key: Key, n: nat)
    requires n < MIN_CHUNKS_IN_LIST
    ensures !IsSplitPoint(key, n)
  {}

  lemma EmptyLevels(h: Hash, leaf: bool)
    ensures Levels(h, leaf, []) == [ChunkList(leaf, [])]
  {}

  lemma OpenList(h: Hash, leaf: bool, nodes: seq<bytes>, x: bytes)
    ensures var g := Group(h, nodes);
            PushKey(Levels(h, leaf, nodes), h(x))[0] == ChunkList(leaf, Keys(h, g.rest + [x]))
  {
    hide Keys, Seal;
    KeysSnoc(h, Group(h, nodes).rest, x);
  }

  lemma NoSplitLevels(h: Hash, leaf: bool, nodes: seq<bytes>, x: bytes)
    requires !IsSplitPoint(h(x), |Group(h, nodes).rest| + 1)
    ensures PushKey(Levels(h, leaf, nodes), h(x)) == Levels(h, leaf, nodes + [x])
  {
    hide IsSplitPoint, Seal, Group, Keys;
    GroupSnoc(h, nodes, x);
    KeysSnoc(h, Group(h, nodes).rest, x);
  }

  /** One round of the cascade: level `level` is sealed under `key`, which joins the level above. */
  function SplitRound(levels: seq<ChunkList>, level: nat, key: Key): (r: seq<ChunkList>)
    requires level < |levels|
    ensures |r| == if |levels| == level + 1 then |levels| + 1 else |levels|
  {
    var grown := if |levels| <= level + 1 then levels + [ChunkList(false, [])] else levels;
    grown[level + 1 := ChunkList(grown[level + 1].isLeaf, grown[level + 1].chunks + [key])]
         [level := ChunkList(levels[level].isLeaf, [])]
  }

  lemma SplitRoundLevels(h: Hash, levels: seq<ChunkList>, level: nat, leaf: bool, nodes: seq<bytes>, x: bytes, y: bytes)
    requires level < |levels| && levels[level..] == PushKey(Levels(h, leaf, nodes), h(x))
    requires IsSplitPoint(h(x), |Group(h, nodes).rest| + 1)
    ensures var g := Group(h, nodes);
            var levels' := SplitRound(levels, level, h(y));
            && levels'[level + 1..] == PushKey(Levels(h, false, Seal(h, leaf, g.full)), h(y))
            && levels'[..level + 1] == levels[..level] + [ChunkList(leaf, [])]
            && (|levels'| > |levels| ==> |levels'[level + 1].chunks| == 1)
  {
    hide IsSplitPoint, SealOne, Seal, Group, Keys;
    SplitLevels(h, leaf, nodes, x);
    OpenList(h, leaf, nodes, x);
    assert levels[level] == levels[level..][0];
    assert levels[level..][1..] == Levels(h, leaf, nodes)[1..];
    EmptyLevels(h, false);
  }

  method AddChunk(h: Hash, levels0: seq<ChunkList>, store0: map<Key, bytes>, chunk: bytes, ghost chunks: seq<bytes>)
    returns (levels: seq<ChunkList>, store: map<Key, bytes>)
    requires levels0 == Levels(h, true, chunks)
    ensures levels == Levels(h, true, chunks + [chunk])
    ensures Inserted(h, store0, NewNodes(h, true, chunks, chunk), store)
  {
    hide IsSplitPoint, SealOne, Seal, Group, Keys, NewNodes, Levels, Encode, Inserted;
    var hash := h(chunk);
    levels := levels0[0 := ChunkList(levels0[0].isLeaf, levels0[0].chunks + [hash])];
    store := store0[hash := chunk];
    var level := 0;
    ghost var leaf, nodes, x, added := true, chunks, chunk, {chunk};
    InsertedOne(h, store0, chunk);
    while IsSplitPoint(hash, |levels[level].chunks|)
      invariant 0 <= level < |levels|
      invariant hash == h(x) && leaf == (level == 0)
      invariant levels[level..] == PushKey(Levels(h, leaf, nodes), hash)
      invariant Levels(h, true, chunks + [chunk]) == levels[..level] + Levels(h, leaf, nodes + [x])
      invariant NewNodes(h, true, chunks, chunk) == added + NewNodes(h, leaf, nodes, x) && x in added
      invariant Inserted(h, store0, added, store)
      decreases if IsSplitPoint(hash, |levels[level].chunks|) then |levels| - level else 0
    {
      ghost var g := Group(h, nodes);
      OpenList(h, leaf, nodes, x);
      assert levels[level] == levels[level..][0];
      SplitLevels(h, leaf, nodes, x);
      NewNodesStep(h, leaf, nodes, x);

      var encoded := EncodeList(levels[level]);
      var serialized := encoded.value;
      SealOneIs(h, leaf, g.rest + [x]);
      SplitRoundLevels(h, levels, level, leaf, nodes, x, serialized);
      hash := h(serialized);
      levels := SplitRound(levels, level, hash);
      InsertOne(h, store0, added, store, serialized);
      store := store[hash := serialized];
      level := level + 1;

      leaf, nodes, x, added := false, Seal(h, leaf, g.full), serialized, added + {serialized};
      SmallListsDoNotSplit(hash, 1);
    }
    OpenList(h, leaf, nodes, x);
    assert levels[level] == levels[level..][0];
    NewNodesStep(h, leaf, nodes, x);
    assert added + {x} == added;
    NoSplitLevels(h, leaf, nodes, x);
    assert levels == levels[..level] + levels[level..];
  }

  // ----- The finishing pass

  /** What the finishing pass adds above a level whose open nodes are `open`. */
  function CarryUp(h: Hash, leaf: bool, open: seq<bytes>): (carry: seq<bytes>)
    requires |open| <= MAX_CHUNKS_IN_LIST
    ensures |carry| <= 1
  {
    if open == [] then [] else [SealOne(h, leaf, open)]
  }

  lemma UpOneLevel(h: Hash, leaf: bool, nodes: seq<bytes>, carry: seq<bytes>)
    requires |carry| <= 1
    ensures var g := Group(h, nodes);
            var above := Seal(h, leaf, g.full);
            var up := CarryUp(h, leaf, g.rest + carry);
            && Levels(h, leaf, nodes)[0] == ChunkList(leaf, Keys(h, g.rest))
            && (if g.full == [] then
                  && |Levels(h, leaf, nodes)| == 1
                  && Root(h, leaf, nodes, carry) == ChunkList(leaf, Keys(h, g.rest + carry))
                  && Carried(h, leaf, nodes, carry) == (set x | x in carry)
                else
                  && Levels(h, leaf, nodes)[1..] == Levels(h, false, above)
                  && Root(h, leaf, nodes, carry) == Root(h, false, above, up)
                  && Carried(h, leaf, nodes, carry) == (set x | x in carry) + Carried(h, false, above, up))
  {
    hide Seal, Group, Keys, SealOne;
  }

  method FinishTree(h: Hash, levels0: seq<ChunkList>, store0: map<Key, bytes>, ghost chunks: seq<bytes>)
    returns (root: ChunkList, store: map<Key, bytes>)
    requires levels0 == Levels(h, true, chunks)
    ensures root == Root(h, true, chunks, [])
    ensures Inserted(h, store0, Carried(h, true, chunks, []), store)
  {
    hide SealOne, Seal, Group, Keys, Levels, Root, Carried, Encode, Inserted;
    var levels := levels0;
    store := store0;
    ghost var leaf, nodes, carry, added: set<bytes> := true, chunks, [], {};
    InsertedNothing(h, store0);
    UpOneLevel(h, leaf, nodes, carry);
    assert Group(h, nodes).rest + carry == Group(h, nodes).rest;
    for level := 0 to |levels| - 1
      invariant |levels| == |levels0| && |carry| <= 1
      invariant |levels| - level == |Levels(h, leaf, nodes)|
      invariant levels[level] == ChunkList(leaf, Keys(h, Group(h, nodes).rest + carry))
      invariant levels[level + 1..] == Levels(h, leaf, nodes)[1..]
      invariant Root(h, true, chunks, []) == Root(h, leaf, nodes, carry)
      invariant Carried(h, true, chunks, []) == added + Carried(h, leaf, nodes, carry)
      invariant (set x | x in carry) <= added
      invariant Inserted(h, store0, added, store)
    {
      ghost var g := Group(h, nodes);
      ghost var open := g.rest + carry;
      ghost var above := Seal(h, leaf, g.full);
      UpOneLevel(h, leaf, nodes, carry);
      UpOneLevel(h, false, above, CarryUp(h, leaf, open));
      assert levels[level + 1] == levels[level + 1..][0];
      if levels[level].chunks != [] {
        var encoded := EncodeList(levels[level]);
        var serialized := encoded.value;
        SealOneIs(h, leaf, open);
        var hash := h(serialized);
        levels := levels[level + 1 := ChunkList(levels[level + 1].isLeaf, levels[level + 1].chunks + [hash])];
        InsertOne(h, store0, added, store, serialized);
        store := store[hash := serialized];
        KeysSnoc(h, Group(h, above).rest, serialized);
        added := added + {serialized};
      } else {
        assert Group(h, above).rest + [] == Group(h, above).rest;
      }
      leaf, nodes, carry := false, above, CarryUp(h, leaf, open);
    }
    UpOneLevel(h, leaf, nodes, carry);
    assert added + (set x | x in carry) == added;
    root := levels[|levels| - 1];
  }

  // ----- chunk_data and minimize_chunk_list

  method ChunkData(h: Hash, data: bytes, store0: map<Key, bytes>) returns (root: ChunkList, store: map<Key, bytes>)
    ensures root == Root(h, true, Chunks(data), [])
    ensures Inserted(h, store0, Stored(h, Chunks(data)), store)
  {
    hide Group, Seal, SealOne, Keys, Levels, Inserted, Chunks, Pushed, Carried, NewNodes;
    var chunker := new Chunker(data);
    var levels := [ChunkList(true, [])];
    store := store0;
    ghost var done: seq<bytes> := [];
    EmptyLevels(h, true);
    NothingPushed(h, true);
    InsertedNothing(h, store0);
    assert done + Chunks(data) == Chunks(data);
    while true
      invariant chunker.Valid() && fresh(chunker) && fresh(chunker.rollingHash) && fresh(chunker.rollingHash.window)
      invariant done + Chunks(chunker.data) == Chunks(data)
      invariant levels == Levels(h, true, done)
      invariant Inserted(h, store0, Pushed(h, true, done), store)
      decreases |Chunks(chunker.data)|
    {
      ghost var remaining := Chunks(chunker.data);
      var chunk := chunker.Next();
      if chunk.None? {
        break;
      }
      assert done + [chunk.value] + Chunks(chunker.data) == done + remaining;
      ghost var store1 := store;
      levels, store := AddChunk(h, levels, store, chunk.value, done);
      PushedSnoc(h, true, done, chunk.value);
      InsertedTwice(h, store0, Pushed(h, true, done), store1, NewNodes(h, true, done, chunk.value), store);
      done := done + [chunk.value];
    }
    NoChunks();
    assert done + [] == done;
    ghost var store2 := store;
    root, store := FinishTree(h, levels, store, done);
    InsertedTwice(h, store0, Pushed(h, true, done), store2, Carried(h, true, done, []), store);
  }

  lemma NoChunks()
    ensures Chunks([]) == []
  {}

  lemma NothingPushed(h: Hash, leaf: bool)
    ensures Pushed(h, leaf, []) == {}
  {}

  /** The root that `minimize_chunk_list` returns, and the strings it stores. */
  function Minimized(h: Hash, l: ChunkList): ChunkList
    requires |l.chunks| < U32_LIMIT
  {
    if |l.chunks| < MINIMIZE_THRESHOLD then l else ChunkList(false, [h(Encode(l))])
  }

  function MinimizeStores(l: ChunkList): set<bytes>
    requires |l.chunks| < U32_LIMIT
  {
    if |l.chunks| < MINIMIZE_THRESHOLD then {} else {Encode(l)}
  }

  /** `None` is the panic of the encoder. */
  method MinimizeChunkList(h: Hash, l: ChunkList, store0: map<Key, bytes>)
    returns (r: Option<(ChunkList, map<Key, bytes>)>)
    ensures r.Some? <==> |l.chunks| < U32_LIMIT
    ensures r.Some? ==> r.value.0 == Minimized(h, l) && Inserted(h, store0, MinimizeStores(l), r.value.1)
    ensures |l.chunks| < 64 ==> r == Some((l, store0))
    ensures r.Some? && |l.chunks| >= 64 ==>
              var key := h(Encode(l)); r.value == (ChunkList(false, [key]), store0[key := Encode(l)])
  {
    if |l.chunks| < MINIMIZE_THRESHOLD {
      InsertedNothing(h, store0);
      return Some((l, store0));
    }
    var serialized := EncodeList(l);
    if serialized.None? {
      return None;
    }
    var hash := h(serialized.value);
    var store := store0[hash := serialized.value];
    InsertedOne(h, store0, serialized.value);
    var root := ChunkList(false, []);
    root := ChunkList(root.isLeaf, root.chunks + [hash]);
    r := Some((root, store));
  }

  // ----- Reading a tree back

  datatype Status = Done | Missing | Malformed | TooDeep

  /** The chunks yielded so far and how the stream ended. */
  datatype Outcome = Outcome(pieces: seq<bytes>, status: Status)

  function Then(a: Outcome, b: Outcome): Outcome {
    if a.status == Done then Outcome(a.pieces + b.pieces, b.status) else a
  }

  /** `reconstruct_data` over a map, following lists at most `depth` levels down. */
  function Read(m: map<Key, bytes>, leaf: bool, keys: seq<Key>, depth: nat): Outcome
    decreases depth, |keys|
  {
    if keys == [] then Outcome([], Done)
    else Then(ReadOne(m, leaf, keys[0], depth), Read(m, leaf, keys[1..], depth))
  }

  function ReadOne(m: map<Key, bytes>, leaf: bool, key: Key, depth: nat): Outcome
    decreases depth, 0
  {
    if key !in m then Outcome([], Missing)
    else if leaf then Outcome([m[key]], Done)
    else match Decode(m[key])
      case None => Outcome([], Malformed)
      case Some(child) => if depth == 0 then Outcome([], TooDeep) else Read(m, child.isLeaf, child.chunks, depth - 1)
  }

  lemma {:induction false} ReadConcat(m: map<Key, bytes>, leaf: bool, a: seq<Key>, b: seq<Key>, depth: nat)
    ensures Read(m, leaf, a + b, depth) == Then(Read(m, leaf, a, depth), Read(m, leaf, b, depth))
    decreases |a|
  {
    if a == [] {
      assert a + b == b;
    } else {
      assert (a + b)[1..] == a[1..] + b;
      ReadConcat(m, leaf, a[1..], b, depth);
      ThenAssociates(ReadOne(m, leaf, a[0], depth), Read(m, leaf, a[1..], depth), Read(m, leaf, b, depth));
    }
  }

  lemma ThenAssociates(a: Outcome, b: Outcome, c: Outcome)
    ensures Then(Then(a, b), c) == Then(a, Then(b, c))
  {}

  lemma KeysConcat(h: Hash, a: seq<bytes>, b: seq<bytes>)
    ensures Keys(h, a + b) == Keys(h, a) + Keys(h, b)
  {}

  /** Reading an inner node is reading the group it was sealed over. */
  lemma ReadSealed(h: Hash, m: map<Key, bytes>, leaf: bool, group: seq<bytes>, depth: nat)
    requires |group| <= MAX_CHUNKS_IN_LIST
    requires Holds(h, m, {SealOne(h, leaf, group)})
    ensures ReadOne(m, false, h(SealOne(h, leaf, group)), depth + 1) == Read(m, leaf, Keys(h, group), depth)
  {
    var l := ChunkList(leaf, Keys(h, group));
    DecodeInverts(l, []);
    assert Encode(l) + [] == Encode(l);
  }

  lemma {:induction false} ReadSealedGroups(h: Hash, m: map<Key, bytes>, leaf: bool, groups: seq<seq<bytes>>,
                                            depth: nat)
    requires forall i :: 0 <= i < |groups| ==> |groups[i]| <= MAX_CHUNKS_IN_LIST
    requires Holds(h, m, set x | x in Seal(h, leaf, groups))
    ensures Read(m, false, Keys(h, Seal(h, leaf, groups)), depth + 1) == Read(m, leaf, Keys(h, Flatten(groups)), depth)
    decreases |groups|
  {
    hide SealOne, ReadOne;
    if groups != [] {
      var sealed := Seal(h, leaf, groups);
      var rest := groups[1..];
      assert sealed[0] == SealOne(h, leaf, groups[0]) && sealed[1..] == Seal(h, leaf, rest);
      ReadSealed(h, m, leaf, groups[0], depth);
      ReadSealedGroups(h, m, leaf, rest, depth);
      assert Keys(h, sealed)[1..] == Keys(h, sealed[1..]);
      KeysConcat(h, groups[0], Flatten(rest));
      ReadConcat(m, leaf, Keys(h, groups[0]), Keys(h, Flatten(rest)), depth);
    }
  }

  lemma StoredAbove(h: Hash, leaf: bool, nodes: seq<bytes>, carry: seq<bytes>)
    requires |carry| <= 1
    ensures var g := Group(h, nodes);
            var above := Seal(h, leaf, g.full);
            var up := CarryUp(h, leaf, g.rest + carry);
            && (forall x :: x in nodes + carry ==> x in Pushed(h, leaf, nodes) + Carried(h, leaf, nodes, carry))
            && (g.full != [] ==>
                  && Pushed(h, false, above) <= Pushed(h, leaf, nodes)
                  && Carried(h, false, above, up) <= Carried(h, leaf, nodes, carry)
                  && Height(h, leaf, nodes) == 1 + Height(h, false, above))
            && (g.full == [] ==> Height(h, leaf, nodes) == 0)
  {
    hide Seal, Group, SealOne;
  }

  /** Reading the root is reading the level it was built over, one level of lists per height. */
  lemma {:induction false} ReadRoot(h: Hash, m: map<Key, bytes>, leaf: bool, nodes: seq<bytes>, carry: seq<bytes>,
                                    depth: nat)
    requires |carry| <= 1
    requires Holds(h, m, Pushed(h, leaf, nodes) + Carried(h, leaf, nodes, carry))
    ensures var root := Root(h, leaf, nodes, carry);
            Read(m, root.isLeaf, root.chunks, depth + Height(h, leaf, nodes)) ==
              Read(m, leaf, Keys(h, nodes + carry), depth)
    decreases |nodes|
  {
    hide SealOne, Seal, Group, Keys, Read, Pushed, Carried, Height, Root;
    var g := Group(h, nodes);
    GroupLossless(h, nodes);
    UpOneLevel(h, leaf, nodes, carry);
    StoredAbove(h, leaf, nodes, carry);
    if g.full == [] {
      assert Flatten(g.full) == [] && [] + g.rest == g.rest;
    } else {
      var open := g.rest + carry;
      var above := Seal(h, leaf, g.full);
      var up := CarryUp(h, leaf, open);
      StoredAbove(h, false, above, up);
      ReadRoot(h, m, false, above, up, depth + 1);
      assert nodes + carry == Flatten(g.full) + open;
      ReadAbove(h, m, leaf, g.full, open, depth);
    }
  }

  lemma ReadAbove(h: Hash, m: map<Key, bytes>, leaf: bool, full: seq<seq<bytes>>, open: seq<bytes>, depth: nat)
    requires |open| <= MAX_CHUNKS_IN_LIST
    requires forall i :: 0 <= i < |full| ==> |full[i]| <= MAX_CHUNKS_IN_LIST
    requires Holds(h, m, set x | x in Seal(h, leaf, full) + CarryUp(h, leaf, open))
    ensures Read(m, false, Keys(h, Seal(h, leaf, full) + CarryUp(h, leaf, open)), depth + 1) ==
            Read(m, leaf, Keys(h, Flatten(full) + open), depth)
  {
    hide SealOne, Read, Keys, Seal;
    if open == [] {
      assert Seal(h, leaf, full) + [] == Seal(h, leaf, full);
      assert Flatten(full) + [] == Flatten(full);
      ReadSealedGroups(h, m, leaf, full, depth);
    } else {
      SealSnoc(h, leaf, full, open);
      FlattenSnoc(full, open);
      ReadSealedGroups(h, m, leaf, full + [open], depth);
    }
  }

  lemma {:induction false} ReadLeaves(h: Hash, m: map<Key, bytes>, chunks: seq<bytes>, depth: nat)
    requires Holds(h, m, set x | x in chunks)
    ensures Read(m, true, Keys(h, chunks), depth) == Outcome(chunks, Done)
    decreases |chunks|
  {
    if chunks != [] {
      ReadLeaves(h, m, chunks[1..], depth);
      assert Keys(h, chunks)[1..] == Keys(h, chunks[1..]);
    }
  }

  /** A stream that ended within `depth` levels ends the same way when allowed to go deeper. */
  lemma {:induction false} ReadDeeper(m: map<Key, bytes>, leaf: bool, keys: seq<Key>, depth: nat, more: nat)
    requires Read(m, leaf, keys, depth).status != TooDeep
    ensures Read(m, leaf, keys, depth + more) == Read(m, leaf, keys, depth)
    decreases depth, |keys|
  {
    if keys != [] {
      var key := keys[0];
      if key in m && !leaf && Decode(m[key]).Some? && depth > 0 {
        var child := Decode(m[key]).value;
        ReadDeeper(m, child.isLeaf, child.chunks, depth - 1, more);
      }
      assert ReadOne(m, leaf, key, depth + more) == ReadOne(m, leaf, key, depth);
      if ReadOne(m, leaf, key, depth).status == Done {
        ReadDeeper(m, leaf, keys[1..], depth, more);
      }
    }
  }

  function RootOf(h: Hash, data: bytes): (root: ChunkList)
    ensures |root.chunks| <= MAX_CHUNKS_IN_LIST
  {
    RootShape(h, true, Chunks(data), []);
    Root(h, true, Chunks(data), [])
  }

  function TreeHeight(h: Hash, data: bytes): nat {
    Height(h, true, Chunks(data))
  }

  /** Every string stored for one file: its chunks, its tree and its minimized root. */
  function StoredFor(h: Hash, data: bytes): set<bytes> {
    Stored(h, Chunks(data)) + MinimizeStores(RootOf(h, data))
  }

  function MinimizedRoot(h: Hash, data: bytes): ChunkList {
    Minimized(h, RootOf(h, data))
  }

  /** From any map that holds the stored strings, the tree reads back as the chunks of the data. */
  lemma RootReadsBack(h: Hash, m: map<Key, bytes>, data: bytes, depth: nat)
    requires Holds(h, m, Stored(h, Chunks(data)))
    requires depth >= TreeHeight(h, data)
    ensures Read(m, RootOf(h, data).isLeaf, RootOf(h, data).chunks, depth) == Outcome(Chunks(data), Done)
    ensures Flatten(Chunks(data)) == data
  {
    hide Read, Root, Height, Stored, Chunks;
    var root, height := RootOf(h, data), TreeHeight(h, data);
    TreeReadsBack(h, m, Chunks(data));
    ReadDeeper(m, root.isLeaf, root.chunks, height, depth - height);
    ChunksLossless(data);
  }

  lemma TreeReadsBack(h: Hash, m: map<Key, bytes>, chunks: seq<bytes>)
    requires Holds(h, m, Stored(h, chunks))
    ensures var root := Root(h, true, chunks, []);
            Read(m, root.isLeaf, root.chunks, Height(h, true, chunks)) == Outcome(chunks, Done)
  {
    hide Read, Root, Height, Pushed, Carried, Keys, Group, Seal, CarryUp;
    StoredAbove(h, true, chunks, []);
    ReadRoot(h, m, true, chunks, [], 0);
    assert chunks + [] == chunks;
    ReadLeaves(h, m, chunks, 0);
  }

  /** The same for the root that is sent to the client. */
  lemma MinimizedReadsBack(h: Hash, m: map<Key, bytes>, data: bytes, depth: nat)
    requires Holds(h, m, StoredFor(h, data))
    requires depth > TreeHeight(h, data)
    ensures var root := MinimizedRoot(h, data);
            Read(m, root.isLeaf, root.chunks, depth) == Outcome(Chunks(data), Done)
    ensures Flatten(Chunks(data)) == data
  {
    hide Root, Stored, Chunks, Height, Encode, Decode;
    RootReadsBack(h, m, data, depth - 1);
    RootReadsBack(h, m, data, depth);
    var l := RootOf(h, data);
    if |l.chunks| >= MINIMIZE_THRESHOLD {
      DecodeInverts(l, []);
      assert Encode(l) + [] == Encode(l);
      var key := h(Encode(l));
      assert ReadOne(m, false, key, depth) == Outcome(Chunks(data), Done);
      assert [key][1..] == [];
    }
  }

  /** Chunking a file into any map and reading it back returns the file, if the build hashes without collision. */
  lemma DedupRoundTrip(h: Hash, data: bytes, m: map<Key, bytes>, m1: map<Key, bytes>, m2: map<Key, bytes>, depth: nat)
    requires Inserted(h, m, Stored(h, Chunks(data)), m1)
    requires Inserted(h, m1, MinimizeStores(RootOf(h, data)), m2)
    requires CollisionFree(h, StoredFor(h, data)) && depth > TreeHeight(h, data)
    ensures var read := Read(m1, RootOf(h, data).isLeaf, RootOf(h, data).chunks, depth);
            read.status == Done && Flatten(read.pieces) == data
    ensures var read := Read(m2, MinimizedRoot(h, data).isLeaf, MinimizedRoot(h, data).chunks, depth);
            read.status == Done && Flatten(read.pieces) == data
    ensures HashConsistent(h, m) ==> HashConsistent(h, m2)
  {
    hide Root, Stored, Chunks, Height, Encode, Read;
    InsertedHolds(h, m, Stored(h, Chunks(data)), m1);
    InsertedHolds(h, m1, MinimizeStores(RootOf(h, data)), m2);
    InsertedTwice(h, m, Stored(h, Chunks(data)), m1, MinimizeStores(RootOf(h, data)), m2);
    InsertedHolds(h, m, StoredFor(h, data), m2);
    RootReadsBack(h, m1, data, depth);
    MinimizedReadsBack(h, m2, data, depth);
  }

  // ----- All data chunks sit at the same depth

  /** Below every key there are exactly `d` levels of lists, all present and well formed, of 1 to 512 keys. */
  ghost predicate AtDepth(m: map<Key, bytes>, leaf: bool, keys: seq<Key>, d: nat)
    decreases d
  {
    && (leaf <==> d == 0)
    && forall k :: k in keys ==>
         && k in m
         && (d > 0 ==>
               && Decode(m[k]).Some? && 1 <= |Decode(m[k]).value.chunks| <= 512
               && AtDepth(m, Decode(m[k]).value.isLeaf, Decode(m[k]).value.chunks, d - 1))
  }

  /** Every key that reading can come to is in the map, at most `d` lists down; lists may be malformed. */
  ghost predicate Reaches(m: map<Key, bytes>, leaf: bool, keys: seq<Key>, d: nat)
    decreases d
  {
    forall k :: k in keys ==>
      && k in m
      && (!leaf && Decode(m[k]).Some? ==>
            d > 0 && Reaches(m, Decode(m[k]).value.isLeaf, Decode(m[k]).value.chunks, d - 1))
  }

  /** Reading follows lists of the map at most `d` levels down; keys may be missing and lists malformed. */
  ghost predicate Finite(m: map<Key, bytes>, leaf: bool, keys: seq<Key>, d: nat)
    decreases d
  {
    forall k :: k in keys && k in m && !leaf && Decode(m[k]).Some? ==>
      d > 0 && Finite(m, Decode(m[k]).value.isLeaf, Decode(m[k]).value.chunks, d - 1)
  }

  lemma {:induction false} ReachesFinite(m: map<Key, bytes>, leaf: bool, keys: seq<Key>, d: nat)
    requires Reaches(m, leaf, keys, d)
    ensures Finite(m, leaf, keys, d)
    decreases d
  {
    hide Decode;
    forall k | k in keys && k in m && !leaf && Decode(m[k]).Some?
      ensures d > 0 && Finite(m, Decode(m[k]).value.isLeaf, Decode(m[k]).value.chunks, d - 1)
    {
      ReachesFinite(m, Decode(m[k]).value.isLeaf, Decode(m[k]).value.chunks, d - 1);
    }
  }

  lemma {:induction false} AtDepthReaches(m: map<Key, bytes>, leaf: bool, keys: seq<Key>, d: nat)
    requires AtDepth(m, leaf, keys, d)
    ensures Reaches(m, leaf, keys, d)
    decreases d
  {
    hide Decode;
    if d > 0 {
      forall k | k in keys ensures Reaches(m, Decode(m[k]).value.isLeaf, Decode(m[k]).value.chunks, d - 1) {
        AtDepthReaches(m, Decode(m[k]).value.isLeaf, Decode(m[k]).value.chunks, d - 1);
      }
    }
  }

  lemma {:induction false} GroupAtDepth(h: Hash, m: map<Key, bytes>, leaf: bool, groups: seq<seq<bytes>>, d: nat)
    requires forall i :: 0 <= i < |groups| ==> 1 <= |groups[i]| <= 512
    requires Holds(h, m, set x | x in Seal(h, leaf, groups))
    requires forall i :: 0 <= i < |groups| ==> AtDepth(m, leaf, Keys(h, groups[i]), d)
    ensures AtDepth(m, false, Keys(h, Seal(h, leaf, groups)), d + 1)
  {
    hide Encode, Decode;
    var keys := Keys(h, Seal(h, leaf, groups));
    forall i | 0 <= i < |keys|
      ensures keys[i] in m && Decode(m[keys[i]]) == Some(ChunkList(leaf, Keys(h, groups[i])))
    {
      var l := ChunkList(leaf, Keys(h, groups[i]));
      DecodeInverts(l, []);
      assert Encode(l) + [] == Encode(l);
    }
  }

  lemma {:induction false} FlattenHas(groups: seq<seq<bytes>>, i: nat, x: bytes)
    requires i < |groups| && x in groups[i]
    ensures x in Flatten(groups)
  {
    if i > 0 {
      FlattenHas(groups[1..], i - 1, x);
    }
  }

  lemma {:induction false} RootAtDepth(h: Hash, m: map<Key, bytes>, leaf: bool, nodes: seq<bytes>, carry: seq<bytes>,
                                       d: nat)
    requires |carry| <= 1
    requires Holds(h, m, Pushed(h, leaf, nodes) + Carried(h, leaf, nodes, carry))
    requires AtDepth(m, leaf, Keys(h, nodes + carry), d)
    ensures var root := Root(h, leaf, nodes, carry);
            AtDepth(m, root.isLeaf, root.chunks, d + Height(h, leaf, nodes))
    decreases |nodes|
  {
    hide SealOne, Seal, Group, Pushed, Carried, Height, Root, AtDepth;
    var g := Group(h, nodes);
    GroupLossless(h, nodes);
    UpOneLevel(h, leaf, nodes, carry);
    StoredAbove(h, leaf, nodes, carry);
    if g.full == [] {
      assert Flatten(g.full) == [] && [] + g.rest == g.rest;
    } else {
      var open := g.rest + carry;
      var above := Seal(h, leaf, g.full);
      var up := CarryUp(h, leaf, open);
      StoredAbove(h, false, above, up);
      assert nodes + carry == Flatten(g.full) + open;
      var groups := if open == [] then g.full else g.full + [open];
      SealUp(h, leaf, g.full, open);
      forall i | 0 <= i < |groups| ensures AtDepth(m, leaf, Keys(h, groups[i]), d) {
        forall x | x in groups[i] ensures x in nodes + carry {
          if i < |g.full| { FlattenHas(g.full, i, x); }
        }
        SubListAtDepth(h, m, leaf, nodes + carry, groups[i], d);
      }
      GroupAtDepth(h, m, leaf, groups, d);
      RootAtDepth(h, m, false, above, up, d + 1);
    }
  }

  lemma SealUp(h: Hash, leaf: bool, full: seq<seq<bytes>>, open: seq<bytes>)
    requires |open| <= MAX_CHUNKS_IN_LIST
    requires forall i :: 0 <= i < |full| ==> |full[i]| <= MAX_CHUNKS_IN_LIST
    ensures var groups := if open == [] then full else full + [open];
            Seal(h, leaf, groups) == Seal(h, leaf, full) + CarryUp(h, leaf, open)
  {
    hide SealOne;
    SealSnoc(h, leaf, full, open);
  }

  lemma SubListAtDepth(h: Hash, m: map<Key, bytes>, leaf: bool, all: seq<bytes>, part: seq<bytes>, d: nat)
    requires AtDepth(m, leaf, Keys(h, all), d)
    requires forall x :: x in part ==> x in all
    ensures AtDepth(m, leaf, Keys(h, part), d)
  {
    hide Decode;
    forall k | k in Keys(h, part) ensures k in Keys(h, all) {
      var i :| 0 <= i < |part| && k == Keys(h, part)[i];
      assert part[i] in all;
      var j :| 0 <= j < |all| && all[j] == part[i];
      assert Keys(h, all)[j] == k;
    }
  }

  /** Every path from the root to a data chunk has the height of the tree, one more through a minimized root. */
  lemma TreeAtDepth(h: Hash, m: map<Key, bytes>, data: bytes)
    requires Holds(h, m, StoredFor(h, data))
    ensures AtDepth(m, RootOf(h, data).isLeaf, RootOf(h, data).chunks, TreeHeight(h, data))
    ensures var root := MinimizedRoot(h, data);
            var height := if root == RootOf(h, data) then TreeHeight(h, data) else TreeHeight(h, data) + 1;
            AtDepth(m, root.isLeaf, root.chunks, height)
  {
    hide Root, Chunks, Height, Encode, Decode, Pushed, Carried;
    var chunks, l := Chunks(data), RootOf(h, data);
    StoredAbove(h, true, chunks, []);
    assert chunks + [] == chunks;
    forall k | k in Keys(h, chunks) ensures k in m {
      var i :| 0 <= i < |chunks| && k == Keys(h, chunks)[i];
      assert chunks[i] in chunks;
    }
    assert AtDepth(m, true, Keys(h, chunks), 0);
    RootAtDepth(h, m, true, chunks, [], 0);
    if |l.chunks| >= MINIMIZE_THRESHOLD {
      DecodeInverts(l, []);
      assert Encode(l) + [] == Encode(l);
    }
  }

  // ----- Nothing but the tree is stored

  /** `x` is stored under a key of the list, or of a list that is at most `d` levels below it. */
  ghost predicate Below(m: map<Key, bytes>, leaf: bool, keys: seq<Key>, d: nat, x: bytes)
    decreases d
  {
    exists k :: k in keys && k in m && (m[k] == x || BelowNode(m, leaf, k, d, x))
  }

  ghost predicate BelowNode(m: map<Key, bytes>, leaf: bool, k: Key, d: nat, x: bytes)
    requires k in m
    decreases d, 0
  {
    !leaf && d > 0 && Decode(m[k]).Some? && Below(m, Decode(m[k]).value.isLeaf, Decode(m[k]).value.chunks, d - 1, x)
  }

  lemma BelowConcat(m: map<Key, bytes>, leaf: bool, a: seq<Key>, b: seq<Key>, d: nat, x: bytes)
    ensures Below(m, leaf, a + b, d, x) <==> Below(m, leaf, a, d, x) || Below(m, leaf, b, d, x)
  {
    hide BelowNode;
  }

  lemma BelowSealed(h: Hash, m: map<Key, bytes>, leaf: bool, group: seq<bytes>, d: nat, x: bytes)
    requires |group| <= 512 && Holds(h, m, {SealOne(h, leaf, group)})
    ensures var node := SealOne(h, leaf, group);
            Below(m, false, [h(node)], d + 1, x) <==> x == node || Below(m, leaf, Keys(h, group), d, x)
  {
    hide Encode, Decode;
    var l := ChunkList(leaf, Keys(h, group));
    DecodeInverts(l, []);
    assert Encode(l) + [] == Encode(l);
    var key := h(SealOne(h, leaf, group));
    assert BelowNode(m, false, key, d + 1, x) <==> Below(m, leaf, Keys(h, group), d, x);
    assert Below(m, false, [key], d + 1, x) <==> m[key] == x || BelowNode(m, false, key, d + 1, x);
  }

  /** What is below sealed nodes is the nodes and what is below the groups. */
  lemma {:induction false} BelowSealedGroups(h: Hash, m: map<Key, bytes>, leaf: bool, groups: seq<seq<bytes>>, d: nat,
                                             x: bytes)
    requires forall i :: 0 <= i < |groups| ==> |groups[i]| <= 512
    requires Holds(h, m, set y | y in Seal(h, leaf, groups))
    ensures var nodes := Seal(h, leaf, groups);
            Below(m, false, Keys(h, nodes), d + 1, x) <==> x in nodes || Below(m, leaf, Keys(h, Flatten(groups)), d, x)
    decreases |groups|
  {
    hide SealOne, Below;
    if groups == [] {
      assert Seal(h, leaf, groups) == [] && Keys(h, Seal(h, leaf, groups)) == [] && Keys(h, Flatten(groups)) == [];
      NothingBelow(m, leaf, d, x);
      NothingBelow(m, false, d + 1, x);
    } else {
      var first, rest := groups[0], groups[1..];
      var node, nodes := SealOne(h, leaf, first), Seal(h, leaf, rest);
      assert Seal(h, leaf, groups) == [node] + nodes;
      assert node in Seal(h, leaf, groups) && forall y :: y in nodes ==> y in Seal(h, leaf, groups);
      KeysConcat(h, [node], nodes);
      KeysConcat(h, first, Flatten(rest));
      assert Keys(h, [node]) == [h(node)];
      BelowConcat(m, false, [h(node)], Keys(h, nodes), d + 1, x);
      BelowConcat(m, leaf, Keys(h, first), Keys(h, Flatten(rest)), d, x);
      BelowSealed(h, m, leaf, first, d, x);
      BelowSealedGroups(h, m, leaf, rest, d, x);
    }
  }

  lemma NothingBelow(m: map<Key, bytes>, leaf: bool, d: nat, x: bytes)
    ensures !Below(m, leaf, [], d, x)
  {}

  /** Below the nodes over a level there are these nodes and what is below the level. */
  lemma AboveCovers(h: Hash, m: map<Key, bytes>, leaf: bool, nodes: seq<bytes>, carry: seq<bytes>, d: nat, x: bytes)
    requires |carry| <= 1
    requires var g := Group(h, nodes);
             Holds(h, m, set y | y in Seal(h, leaf, g.full) + CarryUp(h, leaf, g.rest + carry))
    ensures var g := Group(h, nodes);
            var over := Seal(h, leaf, g.full) + CarryUp(h, leaf, g.rest + carry);
            Below(m, false, Keys(h, over), d + 1, x) <==> x in over || Below(m, leaf, Keys(h, nodes + carry), d, x)
  {
    hide SealOne, Seal, Group, Keys, Below, CarryUp, Holds;
    var g := Group(h, nodes);
    GroupLossless(h, nodes);
    var open := g.rest + carry;
    var groups := if open == [] then g.full else g.full + [open];
    SealUp(h, leaf, g.full, open);
    assert nodes + carry == Flatten(g.full) + open;
    FlattenSnoc(g.full, open);
    assert open == [] ==> Flatten(g.full) + open == Flatten(g.full);
    assert Flatten(groups) == nodes + carry;
    assert Seal(h, leaf, groups) == Seal(h, leaf, g.full) + CarryUp(h, leaf, open);
    BelowSealedGroups(h, m, leaf, groups, d, x);
  }

  lemma {:induction false} RootCovers(h: Hash, m: map<Key, bytes>, leaf: bool, nodes: seq<bytes>, carry: seq<bytes>,
                                      d: nat, x: bytes)
    requires |carry| <= 1 && Holds(h, m, Pushed(h, leaf, nodes) + Carried(h, leaf, nodes, carry))
    requires x in nodes + carry ==> Below(m, leaf, Keys(h, nodes + carry), d, x)
    ensures var root := Root(h, leaf, nodes, carry);
            Below(m, root.isLeaf, root.chunks, d + Height(h, leaf, nodes), x) <==>
            x in Pushed(h, leaf, nodes) + Carried(h, leaf, nodes, carry) || Below(m, leaf, Keys(h, nodes + carry), d, x)
    decreases |nodes|
  {
    hide SealOne, Seal, Group, Keys, Pushed, Carried, Height, Root, Below, CarryUp;
    var g := Group(h, nodes);
    GroupLossless(h, nodes);
    UpOneLevel(h, leaf, nodes, carry);
    StoredAbove(h, leaf, nodes, carry);
    PushedAbove(h, leaf, nodes);
    if g.full == [] {
      assert Flatten(g.full) == [] && [] + g.rest == g.rest;
    } else {
      var above := Seal(h, leaf, g.full);
      var up := CarryUp(h, leaf, g.rest + carry);
      StoredAbove(h, false, above, up);
      AboveCovers(h, m, leaf, nodes, carry, d, x);
      RootCovers(h, m, false, above, up, d + 1, x);
      assert d + Height(h, leaf, nodes) == d + 1 + Height(h, false, above);
    }
  }

  lemma PushedAbove(h: Hash, leaf: bool, nodes: seq<bytes>)
    ensures var g := Group(h, nodes);
            Pushed(h, leaf, nodes) ==
            (set x | x in nodes) + if g.full == [] then {} else Pushed(h, false, Seal(h, leaf, g.full))
  {
    hide Group, Seal;
  }

  /** What a build stores is exactly the chunks and lists that its root leads to. */
  lemma StoredIsTheTree(h: Hash, m: map<Key, bytes>, data: bytes, x: bytes)
    requires Holds(h, m, Stored(h, Chunks(data)))
    ensures var root := RootOf(h, data);
            x in Stored(h, Chunks(data)) <==> Below(m, root.isLeaf, root.chunks, TreeHeight(h, data), x)
  {
    hide Root, Chunks, Height, Pushed, Carried, Below, Group, Seal, CarryUp, Keys;
    var chunks := Chunks(data);
    StoredAbove(h, true, chunks, []);
    assert chunks + [] == chunks;
    BelowLeaves(h, m, chunks, x);
    RootCovers(h, m, true, chunks, [], 0, x);
  }

  lemma BelowLeaves(h: Hash, m: map<Key, bytes>, chunks: seq<bytes>, y: bytes)
    requires Holds(h, m, set x | x in chunks)
    ensures y in chunks <==> Below(m, true, Keys(h, chunks), 0, y)
  {
    if y in chunks {
      var i :| 0 <= i < |chunks| && chunks[i] == y;
      assert Keys(h, chunks)[i] == h(y);
    }
    if Below(m, true, Keys(h, chunks), 0, y) {
      var k :| k in Keys(h, chunks) && k in m && m[k] == y;
      var i :| 0 <= i < |chunks| && Keys(h, chunks)[i] == k;
      assert chunks[i] in chunks;
    }
  }

  // ----- Growing data keeps the tree

  /** All nodes ever added to the level `k` levels up. */
  function NodesAt(h: Hash, leaf: bool, nodes: seq<bytes>, k: nat): seq<bytes>
    decreases k
  {
    if k == 0 then nodes
    else NodesAt(h, false, Seal(h, leaf, Group(h, nodes).full), k - 1)
  }

  /** Adding chunks only ever appends nodes, on every level. */
  lemma {:induction false} GrowingKeepsNodes(h: Hash, leaf: bool, nodes: seq<bytes>, more: seq<bytes>, k: nat)
    ensures NodesAt(h, leaf, nodes, k) <= NodesAt(h, leaf, nodes + more, k)
    decreases k
  {
    hide Group, SealOne;
    if k > 0 {
      GroupKeepsFull(h, nodes, more);
      var a, b := Seal(h, leaf, Group(h, nodes).full), Seal(h, leaf, Group(h, nodes + more).full);
      assert b == a + b[|a|..];
      GrowingKeepsNodes(h, false, a, b[|a|..], k - 1);
    }
  }

  /** Appending to a file keeps, on every level, the nodes over all its chunks but the last. */
  lemma AppendKeepsTree(h: Hash, a: bytes, b: bytes, k: nat)
    requires a != []
    ensures Chunks(a) != []
    ensures NodesAt(h, true, Chunks(a)[..|Chunks(a)| - 1], k) <= NodesAt(h, true, Chunks(a + b), k)
  {
    hide Chunks, NodesAt;
    AppendKeepsChunks(a, b);
    var kept := Chunks(a)[..|Chunks(a)| - 1];
    GrowingKeepsNodes(h, true, kept, Chunks(a + b)[|kept|..], k);
    assert Chunks(a + b) == kept + Chunks(a + b)[|kept|..];
  }
}
