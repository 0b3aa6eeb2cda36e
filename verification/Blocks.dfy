/** Sets of block ids, taken from in ascending order. */
module OrderedSets {

  ghost function Smallest(s: set<nat>): (m: nat)
    requires s != {}
    ensures m in s && forall x :: x in s ==> m <= x
  {
    var a :| a in s;
    SmallestExists(s, a);
    var m :| m in s && forall x :: x in s ==> m <= x;
    m
  }

  lemma {:induction false} SmallestExists(s: set<nat>, a: nat)
    requires a in s
    ensures exists m :: m in s && forall x :: x in s ==> m <= x
    decreases a
  {
    if x :| x in s && x < a {
      SmallestExists(s, x);
    }
  }

  method PopFirst(s: set<nat>) returns (id: nat)
    requires s != {}
    ensures id in s && forall x :: x in s ==> id <= x
  {
    ghost var first := Smallest(s);
    assert first in s && forall x :: x in s ==> first <= x;
    id :| id in s && forall x :: x in s ==> id <= x;
  }
}

/** World and auxiliary data laid out in 503-byte transfer blocks, with the program's 32-bit arithmetic. */
module Blocks {
  import opened Bytes

  const BLOCK: nat := 503

  /** A block as packets carry it. */
  datatype Block = Block(id: nat, data: bytes)

  /** The number of blocks for `n` bytes, as computed on wrapping `u32`s. */
  function BlockCount(n: nat): nat {
    (n % U32_LIMIT + (BLOCK - 1)) % U32_LIMIT / BLOCK
  }

  function AlignedLength(n: nat): nat {
    BlockCount(n) * BLOCK % U32_LIMIT
  }

  /** Aligning never loses bytes exactly when adding 502 does not overflow. */
  lemma AlignedExact(n: nat)
    ensures AlignedLength(n) >= n <==> n <= U32_LIMIT - BLOCK
    ensures n <= U32_LIMIT - BLOCK ==> AlignedLength(n) < n + BLOCK && AlignedLength(n) == BlockCount(n) * BLOCK
  {}

  /** Both sizes can be aligned without overflow. */
  predicate FitsBlocks(worldSize: nat, auxSize: nat) {
    worldSize <= U32_LIMIT - BLOCK && auxSize <= U32_LIMIT - BLOCK
  }

  /** The program adds a whole block before it takes away one, so the sum itself may exceed 32 bits. */
  predicate SumOverflows(n: nat) {
    n % U32_LIMIT + BLOCK >= U32_LIMIT
  }

  /** Both sizes can be aligned in a build that checks arithmetic for overflow, or in one that does not. */
  predicate FitsBuild(checked: bool, worldSize: nat, auxSize: nat) {
    if checked then worldSize < U32_LIMIT - BLOCK && auxSize < U32_LIMIT - BLOCK else FitsBlocks(worldSize, auxSize)
  }

  /** The sums that a checked build refuses, and the lengths that come out too short, are those that do not fit it. */
  lemma CheckedExact(n: nat)
    ensures n < U32_LIMIT - BLOCK <==> !SumOverflows(n) && AlignedLength(n) >= n
  {}

  function Resize(s: bytes, n: nat): (r: bytes)
    ensures |r| == n
  {
    if n <= |s| then s[..n] else s + Zeros(n - |s|)
  }

  /** What aligning makes of world and auxiliary data; where the arithmetic wraps around, it cuts them short. */
  function Aligned(world: bytes, aux: bytes): (s: bytes)
    ensures |s| == AlignedLength(|world|) + AlignedLength(|aux|)
  {
    Resize(world, AlignedLength(|world|)) + Resize(aux, AlignedLength(|aux|))
  }

  lemma WholeBlocks(n: nat)
    ensures AlignedLength(n) == BlockCount(n) * BLOCK && AlignedLength(n) % BLOCK == 0
  {}

  lemma AlignedIsLayout(world: bytes, aux: bytes)
    requires FitsBlocks(|world|, |aux|)
    ensures Aligned(world, aux) == Layout(world, aux)
  {
    hide AlignedLength;
    AlignedExact(|world|);
    AlignedExact(|aux|);
    assert AlignedLength(|world|) == |world| ==> world + Zeros(0) == world;
    assert AlignedLength(|aux|) == |aux| ==> aux + Zeros(0) == aux;
  }

  function Padded(s: bytes): bytes
    requires |s| <= U32_LIMIT - BLOCK
  {
    AlignedExact(|s|);
    s + Zeros(AlignedLength(|s|) - |s|)
  }

  function Layout(world: bytes, aux: bytes): bytes
    requires |world| <= U32_LIMIT - BLOCK && |aux| <= U32_LIMIT - BLOCK
  {
    Padded(world) + Padded(aux)
  }

  /** The world is the front of the layout, and the auxiliary data starts at the first block after it. */
  lemma LayoutSlices(world: bytes, aux: bytes)
    requires |world| <= U32_LIMIT - BLOCK && |aux| <= U32_LIMIT - BLOCK
    ensures var s, at := Layout(world, aux), AlignedLength(|world|);
            && |s| == (BlockCount(|world|) + BlockCount(|aux|)) * BLOCK
            && |world| <= at && at + |aux| <= |s|
            && s[..|world|] == world && s[at..at + |aux|] == aux
  {
    AlignedExact(|world|);
    AlignedExact(|aux|);
    var s, at := Layout(world, aux), AlignedLength(|world|);
    assert s[..|world|] == world;
    assert s[at..at + |aux|] == aux;
  }

  /** What is added to fill up the blocks is 0. */
  lemma LayoutPadsWithZeros(world: bytes, aux: bytes, i: nat)
    requires |world| <= U32_LIMIT - BLOCK && |aux| <= U32_LIMIT - BLOCK && i < |Layout(world, aux)|
    ensures var at := AlignedLength(|world|);
            |world| <= i < at || at + |aux| <= i ==> Layout(world, aux)[i] == 0
  {
    hide AlignedLength;
    AlignedExact(|world|);
    AlignedExact(|aux|);
    var at := AlignedLength(|world|);
    assert |Padded(world)| == at;
    assert i >= at ==> Layout(world, aux)[i] == Padded(aux)[i - at];
  }

  function BlockAt(s: bytes, i: nat): bytes
    requires (i + 1) * BLOCK <= |s|
  {
    s[i * BLOCK..(i + 1) * BLOCK]
  }

  /** The first `n` blocks in order are the front of the stream. */
  lemma {:induction false} BlocksConcatenate(s: bytes, blocks: seq<bytes>)
    requires |blocks| * BLOCK <= |s|
    requires forall i :: 0 <= i < |blocks| ==> blocks[i] == BlockAt(s, i)
    ensures Flatten(blocks) == s[..|blocks| * BLOCK]
    decreases |blocks|
  {
    if blocks != [] {
      var n := |blocks| - 1;
      BlocksConcatenate(s, blocks[..n]);
      assert blocks == blocks[..n] + [blocks[n]];
      FlattenSnoc(blocks[..n], blocks[n]);
      assert s[..|blocks| * BLOCK] == s[..n * BLOCK] + s[n * BLOCK..(n + 1) * BLOCK];
    }
  }
}
