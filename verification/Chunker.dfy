/** The rolling hash over the last 32 bytes, kept incrementally in a ring buffer. */
module RollingHash {
  import opened Bytes

  const OFFSET: nat := 31
  const MULT: nat := 0x0810_4225
  const WINDOW_SIZE: nat := 32

  function Pow(n: nat): nat {
    if n == 0 then 1 else MULT * Pow(n - 1)
  }

  function U32(x: int): (r: nat)
    ensures r < U32_LIMIT
  {
    x % U32_LIMIT
  }

  /** MULT to the power of WINDOW_SIZE + 1, modulo 2^32. */
  const WINDOW_MULT: nat := 0xD4FF_63A5

  function Weight(b: byte): nat {
    Val(b) + OFFSET
  }

  /** The sum of every byte's weight times MULT to the power of its age plus one; the last byte has age 0. */
  function PolySum(w: bytes): nat {
    if w == [] then 0 else Weight(w[0]) * Pow(|w|) + PolySum(w[1..])
  }

  function Last(s: bytes): bytes {
    if |s| <= WINDOW_SIZE then s else s[|s| - WINDOW_SIZE..]
  }

  /** The hash of everything fed since the last reset. */
  function WindowHash(fed: bytes): nat {
    U32(PolySum(Last(fed)))
  }

  lemma Distribute(x: nat, p: nat, q: nat, y: nat)
    ensures x * (MULT * p) + (q + y) * MULT == (x * p + q + y) * MULT
  {
    assert x * (MULT * p) == MULT * (x * p);
  }

  lemma {:induction false} PolySumSnoc(w: bytes, b: byte)
    ensures PolySum(w + [b]) == (PolySum(w) + Weight(b)) * MULT
  {
    if w == [] {
      assert PolySum([b]) == Weight(b) * Pow(1) + PolySum([b][1..]);
      assert Pow(1) == MULT * Pow(0);
    } else {
      var x := w[0];
      assert (w + [b])[1..] == w[1..] + [b];
      PolySumSnoc(w[1..], b);
      assert Pow(|w| + 1) == MULT * Pow(|w|);
      Distribute(Weight(x), Pow(|w|), PolySum(w[1..]), Weight(b));
    }
  }

  /** The last `n` bytes, each plus 31 and times 0x0810_4225 to the power of its age plus one, the last at age 0. */
  function AgeSum(fed: bytes, n: nat): nat
    requires n <= |fed|
  {
    if n == 0 then 0 else AgeSum(fed, n - 1) + (Val(fed[|fed| - n]) + 31) * Power(0x0810_4225, n)
  }

  lemma {:induction false} PowIsPower(n: nat)
    ensures Pow(n) == Power(0x0810_4225, n)
  {
    if n > 0 {
      PowIsPower(n - 1);
    }
  }

  lemma {:induction false} PolySumByAge(fed: bytes, n: nat)
    requires n <= |fed|
    ensures PolySum(fed[|fed| - n..]) == AgeSum(fed, n)
  {
    hide Pow, Power;
    if n > 0 {
      PolySumByAge(fed, n - 1);
      PowIsPower(n);
      assert fed[|fed| - n..][1..] == fed[|fed| - (n - 1)..];
    }
  }

  /** The hash of a window is the sum over its last up to 32 bytes by age, modulo 2^32. */
  lemma WindowHashByAge(fed: bytes)
    ensures WindowHash(fed) == AgeSum(fed, if |fed| < 32 then |fed| else 32) % 0x1_0000_0000
  {
    hide PolySum, AgeSum;
    var n := if |fed| < 32 then |fed| else 32;
    PolySumByAge(fed, n);
    assert Last(fed) == fed[|fed| - n..];
  }

  // ----- Arithmetic modulo 2^32

  lemma U32Shift(x: int, q: int)
    ensures U32(x + U32_LIMIT * q) == U32(x)
  {}

  lemma U32Mul(x: int, k: int)
    ensures U32(U32(x) * k) == U32(x * k)
  {
    var q := x / U32_LIMIT;
    assert x * k == (U32(x) + U32_LIMIT * q) * k == U32(x) * k + U32_LIMIT * (q * k);
    U32Shift(U32(x) * k, q * k);
  }

  lemma U32Add(x: int, y: int)
    ensures U32(U32(x) + y) == U32(x + y)
    ensures U32(U32(x) - U32(y)) == U32(x - y)
  {
    U32Shift(U32(x) + y, x / U32_LIMIT);
    U32Shift(U32(x) - U32(y), x / U32_LIMIT - y / U32_LIMIT);
  }

  lemma {:induction false} PowAdds(a: nat, b: nat)
    ensures Pow(a + b) == Pow(a) * Pow(b)
  {
    if a > 0 {
      PowAdds(a - 1, b);
      assert MULT * (Pow(a - 1) * Pow(b)) == (MULT * Pow(a - 1)) * Pow(b);
    }
  }

  lemma PowModulo(a: nat, b: nat, x: nat, y: nat)
    requires U32(Pow(a)) == x && U32(Pow(b)) == y
    ensures U32(Pow(a + b)) == U32(x * y)
  {
    PowAdds(a, b);
    U32Mul(Pow(a), Pow(b));
    U32Mul(Pow(b), x);
    assert Pow(b) * x == x * Pow(b) && y * x == x * y;
  }

  lemma WindowMultIsPower(n: nat)
    requires n == WINDOW_SIZE + 1
    ensures WINDOW_MULT == U32(Pow(n))
  {
    var one := n - WINDOW_SIZE;
    assert Pow(one) == MULT * Pow(one - 1);
    PowModulo(one, one, MULT, MULT);
    PowModulo(2 * one, 2 * one, 0xA5B7_1959, 0xA5B7_1959);
    PowModulo(4 * one, 4 * one, 0xF9C0_80F1, 0xF9C0_80F1);
    PowModulo(8 * one, 8 * one, 0x7C71_E2E1, 0x7C71_E2E1);
    PowModulo(16 * one, 16 * one, 0x0BB4_09C1, 0x0BB4_09C1);
    PowModulo(one, 32 * one, MULT, 0x4DC7_2381);
  }

  /** The wrapping update computes the exact polynomial step modulo 2^32. */
  lemma WrappedUpdate(sum: nat, added: nat, removed: nat, p: nat)
    requires removed == 0 || U32(p) == WINDOW_MULT
    ensures U32(U32(U32(U32(sum) + added) * MULT) - U32(removed * WINDOW_MULT)) ==
            U32((sum + added) * MULT - removed * p)
  {
    U32Add(sum, added);
    U32Mul(sum + added, MULT);
    if removed != 0 {
      U32Mul(p, removed);
      assert U32(p) * removed == removed * WINDOW_MULT && p * removed == removed * p;
    } else {
      assert removed * p == 0;
    }
    U32Add((sum + added) * MULT, removed * p);
  }

  /** What leaves the window when one more byte is fed. */
  function Removed(fed: bytes): nat {
    if |fed| < WINDOW_SIZE then 0 else Weight(fed[|fed| - WINDOW_SIZE])
  }

  lemma PolySumTail(w: bytes)
    requires w != []
    ensures PolySum(w[1..]) == PolySum(w) - Weight(w[0]) * Pow(|w|)
  {
    hide Weight, Pow;
  }

  lemma WindowHashSnoc(fed: bytes, b: byte)
    ensures WindowHash(fed + [b]) ==
            U32((PolySum(Last(fed)) + Weight(b)) * MULT - Removed(fed) * Pow(|Last(fed)| + 1))
  {
    hide PolySum, Pow, Weight, U32;
    var w := Last(fed);
    PolySumSnoc(w, b);
    if |fed| < WINDOW_SIZE {
      assert Last(fed + [b]) == w + [b];
    } else {
      assert Last(fed + [b]) == (w + [b])[1..];
      PolySumTail(w + [b]);
    }
  }

  /** Among the last 32 indices only the oldest shares its slot with the next one. */
  lemma SlotOfNext(n: nat, j: nat)
    requires j < n <= j + WINDOW_SIZE
    ensures j % WINDOW_SIZE == n % WINDOW_SIZE <==> j == n - WINDOW_SIZE
  {}

  /** The ring holds the weights of the last bytes fed, the byte at index j in slot j modulo 32. */
  ghost predicate IsRing(window: seq<nat>, fed: bytes) {
    && |window| == WINDOW_SIZE
    && (forall j :: 0 <= j < |fed| && |fed| - WINDOW_SIZE <= j ==> window[j % WINDOW_SIZE] == Weight(fed[j]))
    && (forall i :: |fed| <= i < WINDOW_SIZE ==> window[i] == 0)
  }

  lemma EmptyRing()
    ensures IsRing(seq(WINDOW_SIZE, _ => 0), []) && WindowHash([]) == 0
  {}

  lemma RingRemoves(window: seq<nat>, fed: bytes)
    requires IsRing(window, fed)
    ensures window[|fed| % WINDOW_SIZE] == Removed(fed)
  {
    if |fed| >= WINDOW_SIZE {
      SlotOfNext(|fed|, |fed| - WINDOW_SIZE);
    }
  }

  lemma RingAdds(window: seq<nat>, fed: bytes, b: byte)
    requires IsRing(window, fed)
    ensures IsRing(window[|fed| % WINDOW_SIZE := Weight(b)], fed + [b])
  {
    var fed', window' := fed + [b], window[|fed| % WINDOW_SIZE := Weight(b)];
    forall j | 0 <= j < |fed'| && |fed'| - WINDOW_SIZE <= j
      ensures window'[j % WINDOW_SIZE] == Weight(fed'[j])
    {
      if j < |fed| {
        SlotOfNext(|fed|, j);
      }
    }
  }

  lemma HashAdds(fed: bytes, b: byte)
    ensures U32(U32(U32(WindowHash(fed) + Weight(b)) * MULT) - U32(Removed(fed) * WINDOW_MULT)) ==
            WindowHash(fed + [b])
  {
    if |fed| >= WINDOW_SIZE {
      WindowMultIsPower(|Last(fed)| + 1);
    }
    WrappedUpdate(PolySum(Last(fed)), Weight(b), Removed(fed), Pow(|Last(fed)| + 1));
    WindowHashSnoc(fed, b);
  }

  class RabinKarpHash {
    var hash: nat
    const window: array<nat>
    var windowPos: nat
    ghost var fed: bytes

    ghost predicate Valid()
      reads this, window
    {
      && window.Length == WINDOW_SIZE
      && windowPos == |fed| % WINDOW_SIZE
      && IsRing(window[..], fed)
      && hash == WindowHash(fed)
    }

    constructor ()
      ensures Valid() && fed == [] && fresh(window)
    {
      hash := 0;
      window := new nat[WINDOW_SIZE](_ => 0);
      windowPos := 0;
      fed := [];
    }

    method Update(b: byte) returns (h: nat)
      requires Valid()
      modifies this, window
      ensures Valid() && fed == old(fed) + [b] && h == WindowHash(fed)
    {
      hide WindowHash, U32, Weight, IsRing;
      RingRemoves(window[..], fed);
      RingAdds(window[..], fed, b);
      HashAdds(fed, b);
      var added := Weight(b);
      var removed := window[windowPos];
      hash := U32(U32(U32(hash + added) * MULT) - U32(removed * WINDOW_MULT));
      window[windowPos] := added;
      windowPos := (windowPos + 1) % WINDOW_SIZE;
      fed := fed + [b];
      h := hash;
    }

    method Reset()
      requires Valid()
      modifies this, window
      ensures Valid() && fed == []
    {
      hide IsRing, WindowHash;
      EmptyRing();
      hash := 0;
      forall i | 0 <= i < window.Length {
        window[i] := 0;
      }
      assert window[..] == seq(WINDOW_SIZE, _ => 0);
      windowPos := 0;
      fed := [];
    }
  }
}

/** Content-defined chunking: a chunk ends where the rolling hash says so. */
module Chunking {
  import opened Bytes
  import opened RollingHash

  const MIN_CHUNK_SIZE: nat := 512
  const MAX_CHUNK_SIZE: nat := 4096
  /** Masking with 2^11 - 1 is the remainder modulo 2^11. */
  const MASK_PERIOD: nat := 2048

  /** The hash lets a chunk of `data` end after `k` bytes. */
  predicate Qualifies(data: bytes, k: nat)
    requires MIN_CHUNK_SIZE <= k <= |data|
  {
    WindowHash(data[MIN_CHUNK_SIZE..k]) % MASK_PERIOD == 0
  }

  /** The loop of `Chunker::next` from chunk size `k`. */
  function CutFrom(data: bytes, k: nat): (r: nat)
    requires MIN_CHUNK_SIZE <= k <= |data|
    decreases |data| - k
  {
    if k == |data| then k
    else if Qualifies(data, k + 1) || k + 1 >= MAX_CHUNK_SIZE then k + 1
    else CutFrom(data, k + 1)
  }

  /** The size of the first chunk of `data`. */
  function Cut(data: bytes): nat {
    if |data| <= MIN_CHUNK_SIZE then |data| else CutFrom(data, MIN_CHUNK_SIZE)
  }

  /** `k` is the first size above 512 at which the hash is 0 modulo 2048, 4096 is reached, or the data ends. */
  predicate IsCut(data: bytes, k: nat) {
    if |data| <= 512 then k == |data|
    else
      && 512 < k <= |data| && k <= 4096
      && (k == |data| || k == 4096 || WindowHash(data[512..k]) % 2048 == 0)
      && forall j :: 512 < j < k ==> WindowHash(data[512..j]) % 2048 != 0
  }

  lemma {:induction false} CutFromIsFirst(data: bytes, k: nat)
    requires 512 <= k < |data| && k < 4096
    requires forall j :: 512 < j <= k ==> WindowHash(data[512..j]) % 2048 != 0
    ensures IsCut(data, CutFrom(data, k))
    decreases |data| - k
  {
    hide WindowHash;
    if k + 1 < |data| && !Qualifies(data, k + 1) && k + 1 < MAX_CHUNK_SIZE {
      CutFromIsFirst(data, k + 1);
    }
  }

  lemma CutIsFirst(data: bytes, k: nat)
    ensures k == Cut(data) <==> IsCut(data, k)
  {
    if |data| > MIN_CHUNK_SIZE {
      CutFromIsFirst(data, MIN_CHUNK_SIZE);
    }
  }

  lemma CutBounds(data: bytes)
    requires data != []
    ensures 0 < Cut(data) <= |data| && Cut(data) <= MAX_CHUNK_SIZE
    ensures Cut(data) < |data| ==> Cut(data) > MIN_CHUNK_SIZE
  {
    CutIsFirst(data, Cut(data));
  }

  function Chunks(data: bytes): (r: seq<bytes>)
    decreases |data|
  {
    if data == [] then []
    else
      CutBounds(data);
      [data[..Cut(data)]] + Chunks(data[Cut(data)..])
  }

  // ----- What chunking promises

  lemma {:induction false} ChunksLossless(data: bytes)
    ensures Flatten(Chunks(data)) == data
    decreases |data|
  {
    if data != [] {
      CutBounds(data);
      ChunksLossless(data[Cut(data)..]);
      assert Chunks(data)[1..] == Chunks(data[Cut(data)..]);
      assert data == data[..Cut(data)] + data[Cut(data)..];
    }
  }

  lemma {:induction false} ChunksBounded(data: bytes)
    ensures forall i :: 0 <= i < |Chunks(data)| ==> 0 < |Chunks(data)[i]| <= 4096
    ensures forall i :: 0 <= i < |Chunks(data)| - 1 ==> |Chunks(data)[i]| >= 513
    decreases |data|
  {
    if data != [] {
      CutBounds(data);
      ChunksBounded(data[Cut(data)..]);
    }
  }

  /** A cut that is decided before the data ends does not change when data is appended. */
  lemma CutIgnoresSuffix(a: bytes, b: bytes)
    requires a != [] && Cut(a) < |a|
    ensures Cut(a + b) == Cut(a)
  {
    var k := Cut(a);
    CutIsFirst(a, k);
    assert forall j :: MIN_CHUNK_SIZE <= j <= |a| ==> (a + b)[MIN_CHUNK_SIZE..j] == a[MIN_CHUNK_SIZE..j];
    assert forall j :: MIN_CHUNK_SIZE <= j <= |a| ==> Qualifies(a + b, j) == Qualifies(a, j);
    CutIsFirst(a + b, k);
  }

  /** Appending data keeps every chunk but the last. */
  lemma {:induction false} AppendKeepsChunks(a: bytes, b: bytes)
    requires a != []
    ensures Chunks(a) != []
    ensures Chunks(a)[..|Chunks(a)| - 1] <= Chunks(a + b)
    decreases |a|
  {
    CutBounds(a);
    var k := Cut(a);
    if k < |a| {
      CutIgnoresSuffix(a, b);
      var rest := a[k..];
      assert (a + b)[k..] == rest + b && (a + b)[..k] == a[..k];
      AppendKeepsChunks(rest, b);
      assert Chunks(a)[..|Chunks(a)| - 1] == [a[..k]] + Chunks(rest)[..|Chunks(rest)| - 1];
      assert Chunks(a + b) == [a[..k]] + Chunks(rest + b);
    } else {
      assert Chunks(a[k..]) == [];
    }
  }

  /** The offset at which chunk `i` of `data` starts. */
  function CutPoint(data: bytes, i: nat): (p: nat)
    requires i <= |Chunks(data)|
    ensures p <= |data|
    decreases i
  {
    if i == 0 then 0 else CutBounds(data); Cut(data) + CutPoint(data[Cut(data)..], i - 1)
  }

  lemma {:induction false} ChunksFromCutPoint(data: bytes, i: nat)
    requires i <= |Chunks(data)|
    ensures Chunks(data)[i..] == Chunks(data[CutPoint(data, i)..])
    decreases i
  {
    if i == 0 {
      assert data[0..] == data;
    } else {
      CutBounds(data);
      var rest := data[Cut(data)..];
      ChunksFromCutPoint(rest, i - 1);
      assert rest[CutPoint(rest, i - 1)..] == data[CutPoint(data, i)..];
      assert Chunks(data)[i..] == Chunks(rest)[i - 1..];
    }
  }

  /** Two inputs that agree after a cut point of each are chunked identically from there on. */
  lemma ChunkingResynchronizes(a: bytes, i: nat, b: bytes, j: nat)
    requires i <= |Chunks(a)| && j <= |Chunks(b)|
    requires a[CutPoint(a, i)..] == b[CutPoint(b, j)..]
    ensures Chunks(a)[i..] == Chunks(b)[j..]
  {
    ChunksFromCutPoint(a, i);
    ChunksFromCutPoint(b, j);
  }

  /** The iterator: the data not chunked yet, and the hash that is reset after every chunk. */
  class Chunker {
    const rollingHash: RabinKarpHash
    var data: bytes

    ghost predicate Valid()
      reads this, rollingHash, rollingHash.window
    {
      rollingHash.Valid() && rollingHash.fed == []
    }

    constructor (data: bytes)
      ensures Valid() && this.data == data
      ensures fresh(rollingHash) && fresh(rollingHash.window)
    {
      rollingHash := new RabinKarpHash();
      this.data := data;
    }

    method Next() returns (chunk: Option<bytes>)
      requires Valid()
      modifies this, rollingHash, rollingHash.window
      ensures Valid()
      ensures old(data) == [] ==> chunk.None? && data == []
      ensures old(data) != [] ==> chunk.Some? && Chunks(old(data)) == [chunk.value] + Chunks(data)
    {
      hide WindowHash;
      if data == [] {
        return None;
      }
      var chunkSize := if MIN_CHUNK_SIZE <= |data| then MIN_CHUNK_SIZE else |data|;
      ghost var start := chunkSize;
      while chunkSize < |data|
        invariant start <= chunkSize <= |data|
        invariant rollingHash.Valid() && data == old(data)
        invariant rollingHash.fed == data[start..chunkSize]
        invariant start == MIN_CHUNK_SIZE ==> CutFrom(data, chunkSize) == CutFrom(data, start)
      {
        var hash := rollingHash.Update(data[chunkSize]);
        assert rollingHash.fed == data[start..chunkSize + 1];
        chunkSize := chunkSize + 1;
        if hash % MASK_PERIOD == 0 || chunkSize >= MAX_CHUNK_SIZE {
          break;
        }
      }
      assert chunkSize == Cut(data);
      CutBounds(data);
      chunk := Some(data[..chunkSize]);
      data := data[chunkSize..];
      rollingHash.Reset();
    }
  }
}
