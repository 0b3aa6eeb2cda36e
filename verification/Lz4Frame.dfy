/** The LZ4 frame with stored blocks: what it is, the encoder that builds it in pieces, and a reader. */
module Lz4Frame {
  import opened Bytes
  import opened Word32

  const MAX_BLOCK_SIZE: nat := 64_000
  const MAGIC: nat := 0x184D_2204
  const STORED: nat := 0x8000_0000
  const FLG: byte := 0x64
  const BD: byte := 0x40

  /** The 32-bit xxHash with seed 0 of a whole input. */
  type ContentHash = bytes -> Word

  function Header(x: ContentHash): (s: bytes)
    ensures |s| == 7
  {
    Le32(MAGIC) + [FLG, BD] + [x([FLG, BD]).b1]
  }

  /** A stored block: its size with the top bit set, then the bytes. */
  function BlockBytes(d: bytes): (s: bytes)
    requires |d| <= MAX_BLOCK_SIZE
    ensures |s| == 4 + |d|
  {
    Le32(STORED + |d|) + d
  }

  function FirstSize(data: bytes): (n: nat)
    ensures n <= |data| && n <= MAX_BLOCK_SIZE && (data != [] ==> n > 0)
  {
    if |data| < MAX_BLOCK_SIZE then |data| else MAX_BLOCK_SIZE
  }

  /** The contents of the data blocks. */
  function Contents(data: bytes): seq<bytes>
    decreases |data|
  {
    if data == [] then [] else [data[..FirstSize(data)]] + Contents(data[FirstSize(data)..])
  }

  function Blocks(data: bytes): bytes
    decreases |data|
  {
    if data == [] then [] else BlockBytes(data[..FirstSize(data)]) + Blocks(data[FirstSize(data)..])
  }

  /** The frame of `data`: header, data blocks, end mark and content checksum. */
  function Frame(x: ContentHash, data: bytes): bytes {
    Header(x) + Blocks(data) + Le32(0) + LeBytes(x(data))
  }

  // ----- The frame

  /** The blocks hold the data in order, and all but the last are full. */
  lemma {:induction false} ContentsOfBlocks(data: bytes)
    ensures Flatten(Contents(data)) == data
    ensures forall i :: 0 <= i < |Contents(data)| ==> 0 < |Contents(data)[i]| <= 64_000
    ensures forall i :: 0 <= i < |Contents(data)| - 1 ==> |Contents(data)[i]| == 64_000
    ensures |Contents(data)| == (|data| + 63_999) / 64_000
    ensures |Blocks(data)| == |data| + 4 * |Contents(data)|
    decreases |data|
  {
    hide BlockBytes;
    if data != [] {
      var n := FirstSize(data);
      ContentsOfBlocks(data[n..]);
      assert data == data[..n] + data[n..];
      assert Contents(data)[1..] == Contents(data[n..]);
    }
  }

  lemma FullBlockFirst(data: bytes)
    requires |data| >= MAX_BLOCK_SIZE
    ensures Blocks(data) == BlockBytes(data[..MAX_BLOCK_SIZE]) + Blocks(data[MAX_BLOCK_SIZE..])
  {
    hide BlockBytes;
  }

  lemma {:induction false} BlocksConcat(a: bytes, b: bytes)
    requires |a| % MAX_BLOCK_SIZE == 0
    ensures Blocks(a + b) == Blocks(a) + Blocks(b)
    decreases |a|
  {
    if a == [] {
      assert a + b == b;
    } else {
      BlocksConcatFull(a, b);
    }
  }

  lemma {:induction false} BlocksConcatFull(a: bytes, b: bytes)
    requires |a| % MAX_BLOCK_SIZE == 0 && a != []
    ensures Blocks(a + b) == Blocks(a) + Blocks(b)
    decreases |a|, 0
  {
    hide BlockBytes, Blocks;
    FullBlockFirst(a);
    FullBlockFirst(a + b);
    assert (a + b)[..MAX_BLOCK_SIZE] == a[..MAX_BLOCK_SIZE];
    assert (a + b)[MAX_BLOCK_SIZE..] == a[MAX_BLOCK_SIZE..] + b;
    BlocksConcat(a[MAX_BLOCK_SIZE..], b);
  }

  lemma OneBlock(d: bytes)
    requires 0 < |d| <= MAX_BLOCK_SIZE
    ensures Blocks(d) == BlockBytes(d)
  {
    hide BlockBytes;
    assert d[..FirstSize(d)] == d && d[FirstSize(d)..] == [];
    assert Blocks(d) == BlockBytes(d) + [];
  }

  /** The size announced in advance, on wrapping `u64`s. */
  function FramedSize(n: nat): nat {
    var totalBlocks := (n + (MAX_BLOCK_SIZE - 1)) % U64_LIMIT / MAX_BLOCK_SIZE;
    (4 + 3 + totalBlocks * 4 + n + 4 + 4) % U64_LIMIT
  }

  lemma FramedSizeIs(n: nat)
    ensures var size := 15 + n + 4 * ((n + MAX_BLOCK_SIZE - 1) / MAX_BLOCK_SIZE);
            size < U64_LIMIT ==> FramedSize(n) == size
  {}

  lemma FramedSizeExact(x: ContentHash, data: bytes)
    requires |Frame(x, data)| < U64_LIMIT
    ensures FramedSize(|data|) == |Frame(x, data)|
  {
    hide Header, Blocks, Contents, FramedSize;
    ContentsOfBlocks(data);
    FramedSizeIs(|data|);
  }

  /** What a frame descriptor says: how blocks depend on each other, which checksums there are, how large blocks get. */
  datatype Descriptor = Descriptor(independent: bool, blockChecksums: bool, contentChecksum: bool, blockLimit: nat)

  /** The binary digit of `n` that stands for `weight`. */
  predicate Bit(n: nat, weight: nat)
    requires weight > 0
  {
    n / weight % 2 == 1
  }

  /**
   * Magic number and descriptor of a frame of format version 1 that announces neither size nor dictionary. Its last
   * byte is the second lowest byte of the hash of the two before it.
   */
  function ReadHeader(x: ContentHash, b: bytes): Option<Descriptor>
    requires |b| >= 7
  {
    var flg, bd := Val(b[4]), Val(b[5]);
    if ReadLe32(b[..4]) != 0x184D_2204 || flg / 64 != 1 || Bit(flg, 8) || Bit(flg, 2) || Bit(flg, 1) then None
    else if bd % 16 != 0 || bd / 16 < 4 || bd / 16 > 7 || b[6] != LeBytes(x(b[4..6]))[1] then None
    else Some(Descriptor(Bit(flg, 32), Bit(flg, 16), Bit(flg, 4), Power(2, 8 + 2 * (bd / 16))))
  }

  /** Reads stored blocks of up to `limit` bytes and the end mark, and hands back what is behind it. */
  function ReadBlocks(b: bytes, limit: nat): Option<(bytes, bytes)>
    decreases |b|
  {
    if |b| < 4 then None
    else
      var w := ReadLe32(b[..4]);
      if w == 0 then Some(([], b[4..]))
      else
        var n := w - 0x8000_0000;
        if n < 0 || n > limit || |b| < 4 + n then None
        else match ReadBlocks(b[4 + n..], limit)
          case None => None
          case Some((rest, trailer)) => Some((b[4..4 + n] + rest, trailer))
  }

  /** A reader of frames without block checksums that insists on all other checksums. */
  function ReadFrame(x: ContentHash, b: bytes): Option<bytes> {
    if |b| < 7 then None
    else match ReadHeader(x, b)
      case None => None
      case Some(d) => match ReadBlocks(b[7..], d.blockLimit)
        case None => None
        case Some((data, trailer)) =>
          var expected := if d.contentChecksum then LeBytes(x(data)) else [];
          if !d.blockChecksums && trailer == expected then Some(data) else None
  }

  /** The header announces independent blocks of up to 64 KB with a checksum of the content only. */
  lemma HeaderSays(x: ContentHash, b: bytes)
    requires |b| >= 7 && b[..7] == Header(x)
    ensures ReadHeader(x, b) == Some(Descriptor(true, false, true, 0x1_0000))
  {
    hide Le32, ReadLe32;
    assert b[..4] == Header(x)[..4] && b[4..6] == Header(x)[4..6] && b[4] == FLG && b[5] == BD;
    assert Header(x)[..4] == Le32(MAGIC) && Header(x)[4..6] == [FLG, BD] && b[6] == Header(x)[6];
    ReadLe32Inverts(MAGIC);
    PowerOfLimit();
    assert Val(FLG) == 0x64 && Val(BD) == 0x40;
  }

  lemma PowerOfLimit()
    ensures Power(2, 16) == 0x1_0000
  {
    assert Power(2, 8) == 256;
  }

  lemma {:induction false} ReadBlocksInverts(data: bytes, checksum: bytes)
    requires |checksum| == 4
    ensures ReadBlocks(Blocks(data) + Le32(0) + checksum, 0x1_0000) == Some((data, checksum))
    decreases |data|
  {
    hide Le32, ReadBlocks;
    if data == [] {
      assert Blocks(data) + Le32(0) + checksum == Le32(0) + checksum;
      ReadEnd(checksum);
    } else {
      var n := FirstSize(data);
      ReadBlocksInverts(data[n..], checksum);
      var rest := Blocks(data[n..]) + Le32(0) + checksum;
      assert Blocks(data) + Le32(0) + checksum == Le32(STORED + n) + data[..n] + rest;
      ReadOneBlock(data[..n], rest, data[n..], checksum);
      assert data[..n] + data[n..] == data;
    }
  }

  lemma ReadEnd(checksum: bytes)
    requires |checksum| == 4
    ensures ReadBlocks(Le32(0) + checksum, 0x1_0000) == Some(([], checksum))
  {
    hide Le32, ReadLe32;
    var b := Le32(0) + checksum;
    assert b[..4] == Le32(0) && b[4..] == checksum;
    ReadLe32Inverts(0);
  }

  lemma ReadOneBlock(first: bytes, rest: bytes, data: bytes, checksum: bytes)
    requires 0 < |first| <= MAX_BLOCK_SIZE && ReadBlocks(rest, 0x1_0000) == Some((data, checksum))
    ensures ReadBlocks(Le32(STORED + |first|) + first + rest, 0x1_0000) == Some((first + data, checksum))
  {
    hide Le32, ReadLe32;
    var n, head := |first|, Le32(STORED + |first|);
    var b := head + first + rest;
    assert b[..4] == head;
    assert b[4..4 + n] == first;
    assert b[4 + n..] == rest;
    ReadLe32Inverts(STORED + n);
  }

  /** Stripping the framing gives back the input, and the reader finds both checksums right. */
  lemma ReadFrameInverts(x: ContentHash, data: bytes)
    ensures ReadFrame(x, Frame(x, data)) == Some(data)
  {
    hide Le32, ReadBlocks, Blocks, LeBytes, Header, ReadHeader;
    var b := Frame(x, data);
    assert b[..7] == Header(x);
    HeaderSays(x, b);
    assert b[7..] == Blocks(data) + Le32(0) + LeBytes(x(data));
    ReadBlocksInverts(data, LeBytes(x(data)));
  }

  // ----- The encoder

  class Lz4DeterministicFrameEncoder {
    const x: ContentHash
    var pendingData: bytes
    var buffer: bytes
    var hashed: bytes
    ghost var fed: bytes
    ghost var emitted: bytes

    /** Everything fed is either in a block, and then hashed, or pending. */
    ghost predicate Framed()
      reads this
    {
      fed == hashed + pendingData && emitted + buffer == Header(x) + Blocks(hashed)
    }

    /** Between calls only full blocks have been built, and no further one is pending. */
    ghost predicate Valid()
      reads this
    {
      Framed() && |hashed| % MAX_BLOCK_SIZE == 0 && |pendingData| < MAX_BLOCK_SIZE
    }

    constructor (x: ContentHash)
      ensures Valid() && fed == [] && emitted == [] && this.x == x
    {
      this.x := x;
      pendingData := [];
      buffer := Header(x);
      hashed := [];
      fed := [];
      emitted := [];
    }

    method BuildBlock()
      requires Framed() && |hashed| % MAX_BLOCK_SIZE == 0 && pendingData != []
      modifies this`pendingData, this`buffer, this`hashed
      ensures Framed() && pendingData == old(pendingData[FirstSize(pendingData)..])
    {
      hide Blocks, Header, BlockBytes;
      var blockSize := FirstSize(pendingData);
      var contents := pendingData[..blockSize];
      assert pendingData == contents + pendingData[blockSize..];
      BlocksConcat(hashed, contents);
      OneBlock(contents);
      assert emitted + (buffer + BlockBytes(contents)) == emitted + buffer + BlockBytes(contents);
      assert Header(x) + (Blocks(hashed) + Blocks(contents)) == Header(x) + Blocks(hashed) + Blocks(contents);
      pendingData := pendingData[blockSize..];
      hashed := hashed + contents;
      buffer := buffer + BlockBytes(contents);
    }

    method AddData(data: bytes) returns (out: Option<bytes>)
      requires Valid()
      modifies this
      ensures Valid() && fed == old(fed) + data && emitted == old(emitted) + out.GetOr([])
      ensures out.Some? <==> |old(pendingData)| + |data| >= MAX_BLOCK_SIZE
      ensures out.Some? ==> buffer == []
    {
      hide Blocks, Header;
      fed := fed + data;
      pendingData := pendingData + data;
      if |pendingData| >= MAX_BLOCK_SIZE {
        while |pendingData| >= MAX_BLOCK_SIZE
          invariant Framed() && |hashed| % MAX_BLOCK_SIZE == 0
          invariant emitted == old(emitted) && fed == old(fed) + data
          decreases |pendingData|
        {
          ghost var before := |hashed|;
          BuildBlock();
          assert |hashed| == before + MAX_BLOCK_SIZE;
        }
        out := Some(buffer);
        emitted := emitted + buffer;
        buffer := [];
        return;
      }
      out := None;
    }

    method Finish() returns (out: bytes)
      requires Valid()
      modifies this
      ensures old(emitted) + out == Frame(x, old(fed))
    {
      hide Blocks, Header;
      if pendingData != [] {
        BuildBlock();
      }
      assert hashed == fed;
      buffer := buffer + Le32(0);
      buffer := buffer + LeBytes(x(hashed));
      out := buffer;
    }
  }

  /** However the input is cut into calls, the concatenated outputs are the one frame of the whole input. */
  method EncodePieces(x: ContentHash, pieces: seq<bytes>) returns (out: bytes)
    ensures out == Frame(x, Flatten(pieces))
  {
    hide Frame;
    var encoder := new Lz4DeterministicFrameEncoder(x);
    out := [];
    for i := 0 to |pieces|
      invariant encoder.Valid() && fresh(encoder) && encoder.x == x
      invariant encoder.fed == Flatten(pieces[..i]) && encoder.emitted == out
    {
      assert pieces[..i + 1] == pieces[..i] + [pieces[i]];
      FlattenSnoc(pieces[..i], pieces[i]);
      var emitted := encoder.AddData(pieces[i]);
      out := out + emitted.GetOr([]);
    }
    assert pieces[..|pieces|] == pieces;
    var last := encoder.Finish();
    out := out + last;
  }
}
