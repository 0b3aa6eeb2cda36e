/** 32-bit registers kept as their four little-endian bytes, where byte shifts only move lanes. */
module Word32 {
  import opened Bytes

  /** `b0` is the least significant byte. */
  datatype Word = Word(b0: byte, b1: byte, b2: byte, b3: byte)

  const ZERO: Word := Word(0, 0, 0, 0)
  const ONES: Word := Word(0xFF, 0xFF, 0xFF, 0xFF)

  function XorByte(a: byte, b: byte): byte {
    a ^ b
  }

  function Xor(a: Word, b: Word): Word {
    Word(XorByte(a.b0, b.b0), XorByte(a.b1, b.b1), XorByte(a.b2, b.b2), XorByte(a.b3, b.b3))
  }

  function Shr8(a: Word): Word {
    Word(a.b1, a.b2, a.b3, 0)
  }

  function Shl8(a: Word): Word {
    Word(0, a.b0, a.b1, a.b2)
  }

  function Low(b: byte): Word {
    Word(b, 0, 0, 0)
  }

  function LeBytes(a: Word): (s: bytes)
    ensures |s| == 4
  {
    [a.b0, a.b1, a.b2, a.b3]
  }

  function OfLeBytes(s: bytes): Word
    requires |s| == 4
  {
    Word(s[0], s[1], s[2], s[3])
  }

  function OfBits(v: bv32): Word {
    Word((v & 0xFF) as bv8, ((v >> 8) & 0xFF) as bv8, ((v >> 16) & 0xFF) as bv8, (v >> 24) as bv8)
  }

  // ----- The lane operations are the machine operations

  lemma XorLanes(v: bv32, w: bv32)
    ensures Xor(OfBits(v), OfBits(w)) == OfBits(v ^ w)
  {}

  lemma ShiftLanes(v: bv32, b: byte)
    ensures Shr8(OfBits(v)) == OfBits(v >> 8)
    ensures Shl8(OfBits(v)) == OfBits(v << 8)
    ensures Low(b) == OfBits(b as bv32)
  {}

  lemma LanesAreFaithful(v: bv32, w: bv32)
    ensures OfBits(v) == OfBits(w) <==> v == w
  {}

  // ----- XOR as a group

  lemma XorByteLaws(a: byte, b: byte, c: byte)
    ensures XorByte(a, b) == XorByte(b, a)
    ensures XorByte(XorByte(a, b), c) == XorByte(a, XorByte(b, c))
    ensures XorByte(a, 0) == a && XorByte(a, a) == 0
  {}

  lemma XorByteCancels(a: byte, b: byte)
    ensures XorByte(XorByte(a, b), b) == a
    ensures XorByte(b, XorByte(a, b)) == a
    ensures XorByte(a, 0) == a && XorByte(0, a) == a
  {}

  lemma XorLaws(a: Word, b: Word, c: Word)
    ensures Xor(a, b) == Xor(b, a)
    ensures Xor(Xor(a, b), c) == Xor(a, Xor(b, c))
    ensures Xor(a, ZERO) == a && Xor(a, a) == ZERO
  {
    XorByteLaws(a.b0, b.b0, c.b0);
    XorByteLaws(a.b1, b.b1, c.b1);
    XorByteLaws(a.b2, b.b2, c.b2);
    XorByteLaws(a.b3, b.b3, c.b3);
  }

  lemma XorCancels(a: Word, b: Word)
    ensures Xor(Xor(a, b), b) == a
    ensures Xor(a, Xor(a, b)) == b
  {
    XorLaws(a, b, b);
    XorLaws(a, a, b);
    XorLaws(b, ZERO, ZERO);
  }
}

/** Table-driven reflected CRCs, and CRC-32/ISO-HDLC as one of them. */
module Crc32 {
  import opened Bytes
  import opened Word32

  /** A 256-entry lookup table, with the index at which each top byte is expected. */
  datatype Table = Table(entry: byte -> Word, indexOf: byte -> byte)

  function Step(table: Table, v: Word, b: byte): Word {
    Xor(table.entry(XorByte(v.b0, b)), Shr8(v))
  }

  function Update(table: Table, v: Word, data: bytes): Word
    decreases |data|
  {
    if data == [] then v else Update(table, Step(table, v, data[0]), data[1..])
  }

  function Checksum(table: Table, data: bytes): Word {
    Xor(Update(table, ONES, data), ONES)
  }

  lemma {:induction false} UpdateConcat(table: Table, v: Word, a: bytes, b: bytes)
    ensures Update(table, v, a + b) == Update(table, Update(table, v, a), b)
    decreases |a|
  {
    if a == [] {
      assert a + b == b;
    } else {
      assert (a + b)[1..] == a[1..] + b;
      UpdateConcat(table, Step(table, v, a[0]), a[1..], b);
    }
  }

  /** The top byte of the entries permutes the 256 indices, and `indexOf` is its inverse. */
  ghost predicate TopsPermuted(table: Table) {
    && (forall n: byte :: table.indexOf(table.entry(n).b3) == n)
    && (forall t: byte :: table.entry(table.indexOf(t)).b3 == t)
  }

  // ----- CRC-32/ISO-HDLC, the table of section 8 of RFC 1952

  /** One bit of the reflected polynomial division. */
  function Shift(v: bv32): bv32 {
    (v >> 1) ^ (if v & 1 == 1 then 0xEDB8_8320 else 0)
  }

  function Shift8(v: bv32): bv32 {
    Shift(Shift(Shift(Shift(Shift(Shift(Shift(Shift(v))))))))
  }

  function IsoHdlcEntry(n: byte): Word {
    OfBits(Shift8(n as bv32))
  }

  function Unshift(v: bv32): bv32 {
    if v >> 31 == 1 then ((v ^ 0xEDB8_8320) << 1) ^ 1 else v << 1
  }

  function Unshift8(v: bv32): bv32 {
    Unshift(Unshift(Unshift(Unshift(Unshift(Unshift(Unshift(Unshift(v))))))))
  }

  function IsoHdlcIndex(t: byte): byte {
    (Unshift8((t as bv32) << 24) & 0xFF) as bv8
  }

  function IsoHdlc(): Table {
    Table(IsoHdlcEntry, IsoHdlcIndex)
  }

  lemma EveryTopByteOccurs(t: byte)
    ensures (Shift8(IsoHdlcIndex(t) as bv32) >> 24) as bv8 == t
  {}

  lemma TopBytesAreDistinct(m: byte, n: byte)
    requires Shift8(m as bv32) >> 24 == Shift8(n as bv32) >> 24
    ensures m == n
  {}

  lemma IsoHdlcTopsPermuted()
    ensures TopsPermuted(IsoHdlc())
  {
    forall t: byte ensures IsoHdlcEntry(IsoHdlcIndex(t)).b3 == t {
      EveryTopByteOccurs(t);
    }
    forall n: byte ensures IsoHdlcIndex(IsoHdlcEntry(n).b3) == n {
      var m := IsoHdlcIndex(IsoHdlcEntry(n).b3);
      EveryTopByteOccurs(IsoHdlcEntry(n).b3);
      TopBytesAreDistinct(m, n);
    }
  }
}

/** The CRC register run backwards, and the four bytes that force a checksum. */
module RevCrc {
  import opened Bytes
  import opened Word32
  import opened Crc32

  /** Slot `t` of the reverse table. */
  function RevEntry(table: Table, t: byte): Word {
    Xor(Shl8(table.entry(table.indexOf(t))), Low(table.indexOf(t)))
  }

  /** The register before its last step, up to the byte of that step. */
  function Back(table: Table, v: Word): Word {
    Xor(Shl8(v), RevEntry(table, v.b3))
  }

  function RevStep(table: Table, v: Word, b: byte): Word {
    Xor(Back(table, v), Low(b))
  }

  /** Runs the register back over `data`, last byte first. */
  function RevUpdate(table: Table, v: Word, data: bytes): Word
    decreases |data|
  {
    if data == [] then v
    else RevUpdate(table, RevStep(table, v, data[|data| - 1]), data[..|data| - 1])
  }

  // ----- Reverse and forward undo each other

  lemma RevStepLanes(table: Table, w: Word, b: byte)
    ensures var n := table.indexOf(w.b3);
            var e := table.entry(n);
            RevStep(table, w, b) == Word(XorByte(n, b), XorByte(w.b0, e.b0), XorByte(w.b1, e.b1), XorByte(w.b2, e.b2))
  {
    var n := table.indexOf(w.b3);
    var e := table.entry(n);
    XorByteCancels(n, 0);
    XorByteCancels(e.b0, 0);
    XorByteCancels(e.b1, 0);
    XorByteCancels(e.b2, 0);
    XorByteCancels(XorByte(w.b0, e.b0), 0);
    XorByteCancels(XorByte(w.b1, e.b1), 0);
    XorByteCancels(XorByte(w.b2, e.b2), 0);
  }

  lemma StepOfLanes(table: Table, v: Word, b: byte, n: byte, e: Word, w: Word)
    requires e == table.entry(n) && e.b3 == w.b3
    requires v == Word(XorByte(n, b), XorByte(w.b0, e.b0), XorByte(w.b1, e.b1), XorByte(w.b2, e.b2))
    ensures Step(table, v, b) == w
  {
    XorByteCancels(n, b);
    XorByteCancels(w.b0, e.b0);
    XorByteCancels(w.b1, e.b1);
    XorByteCancels(w.b2, e.b2);
    XorByteCancels(e.b3, 0);
  }

  lemma StepUndoesRevStep(table: Table, w: Word, b: byte)
    requires TopsPermuted(table)
    ensures Step(table, RevStep(table, w, b), b) == w
  {
    var n := table.indexOf(w.b3);
    RevStepLanes(table, w, b);
    StepOfLanes(table, RevStep(table, w, b), b, n, table.entry(n), w);
  }

  lemma RevStepUndoesStep(table: Table, v: Word, b: byte)
    requires TopsPermuted(table)
    ensures RevStep(table, Step(table, v, b), b) == v
  {}

  lemma {:induction false} RevUpdateConcat(table: Table, v: Word, a: bytes, b: bytes)
    ensures RevUpdate(table, v, a + b) == RevUpdate(table, RevUpdate(table, v, b), a)
    decreases |b|
  {
    if b == [] {
      assert a + b == a;
    } else {
      var n := |b| - 1;
      assert (a + b)[..|a + b| - 1] == a + b[..n];
      RevUpdateConcat(table, RevStep(table, v, b[n]), a, b[..n]);
    }
  }

  lemma {:induction false} RevUpdateUndoesUpdate(table: Table, v: Word, data: bytes)
    requires TopsPermuted(table)
    ensures RevUpdate(table, Update(table, v, data), data) == v
    decreases |data|
  {
    if data != [] {
      RevUpdateUndoesUpdate(table, Step(table, v, data[0]), data[1..]);
      assert data == data[..1] + data[1..];
      RevUpdateConcat(table, Update(table, v, data), data[..1], data[1..]);
      RevStepUndoesStep(table, v, data[0]);
      assert RevUpdate(table, Step(table, v, data[0]), data[..1]) == v;
    }
  }

  lemma {:induction false} UpdateUndoesRevUpdate(table: Table, w: Word, data: bytes)
    requires TopsPermuted(table)
    ensures Update(table, RevUpdate(table, w, data), data) == w
    decreases |data|
  {
    if data != [] {
      var n := |data| - 1;
      var w' := RevStep(table, w, data[n]);
      UpdateUndoesRevUpdate(table, w', data[..n]);
      assert data == data[..n] + data[n..];
      UpdateConcat(table, RevUpdate(table, w, data), data[..n], data[n..]);
      StepUndoesRevStep(table, w, data[n]);
      assert Update(table, w', data[n..]) == w;
    }
  }

  // ----- Forging

  function Back4(table: Table, v: Word): Word {
    Back(table, Back(table, Back(table, Back(table, v))))
  }

  /** A word XORed into the low three lanes of a register moves up one lane per step back. */
  lemma BackShiftsData(table: Table, u: Word, d: Word)
    requires d.b3 == 0
    ensures Back(table, Xor(u, d)) == Xor(Back(table, u), Shl8(d))
  {}

  /** Running back over one word XORs it into the register run back over four zero bytes. */
  lemma RevUpdateWord(table: Table, w: Word, d: Word)
    ensures RevUpdate(table, w, LeBytes(d)) == Xor(Back4(table, w), d)
  {
    var s := LeBytes(d);
    assert s[..3][..2] == s[..2] && s[..2][..1] == s[..1] && s[..1][..0] == [];
    var w1 := RevStep(table, w, d.b3);
    var w2 := RevStep(table, w1, d.b2);
    var w3 := RevStep(table, w2, d.b1);
    var w4 := RevStep(table, w3, d.b0);
    assert RevUpdate(table, w, s) == w4 by {
      assert RevUpdate(table, w2, s[..2]) == RevUpdate(table, w3, s[..1]) == w4;
      assert RevUpdate(table, w1, s[..3]) == RevUpdate(table, w2, s[..2]);
    }
    var u1 := Back(table, w);
    var u2 := Back(table, u1);
    var u3 := Back(table, u2);
    BackShiftsData(table, u1, Low(d.b3));
    assert w2 == Xor(u2, Word(d.b2, d.b3, 0, 0));
    BackShiftsData(table, u2, Word(d.b2, d.b3, 0, 0));
    assert w3 == Xor(u3, Word(d.b1, d.b2, d.b3, 0));
    BackShiftsData(table, u3, Word(d.b1, d.b2, d.b3, 0));
  }

  /** The bytes that carry the register from `before` to `after`. */
  function ForgeBytes(table: Table, before: Word, after: Word): bytes {
    LeBytes(RevUpdate(table, after, LeBytes(before)))
  }

  /** The forged bytes reach the target, and no other four bytes do. */
  lemma ForgeReaches(table: Table, before: Word, after: Word, x: Word)
    requires TopsPermuted(table)
    ensures Update(table, before, ForgeBytes(table, before, after)) == after
    ensures Update(table, before, LeBytes(x)) == after <==> LeBytes(x) == ForgeBytes(table, before, after)
  {
    var r := Back4(table, after);
    var f := RevUpdate(table, after, LeBytes(before));
    RevUpdateWord(table, after, before);
    RevUpdateWord(table, after, f);
    RevUpdateWord(table, after, x);
    XorCancels(r, before);
    XorCancels(r, x);
    UpdateUndoesRevUpdate(table, after, LeBytes(f));
    RevUpdateUndoesUpdate(table, before, LeBytes(x));
  }

  /** Four forward steps see only the XOR of the register and the data. */
  lemma FourStepsSeeOnlyXor(table: Table, s: Word, d: Word, s': Word, d': Word)
    requires TopsPermuted(table) && Xor(s, d) == Xor(s', d')
    ensures Update(table, s, LeBytes(d)) == Update(table, s', LeBytes(d'))
  {
    var w := Update(table, s, LeBytes(d));
    RevUpdateUndoesUpdate(table, s, LeBytes(d));
    RevUpdateWord(table, w, d);
    XorCancels(Back4(table, w), d);
    RevUpdateWord(table, w, d');
    XorCancels(s', d');
    UpdateUndoesRevUpdate(table, w, LeBytes(d'));
  }

  /**
   * The checksum is CRC-32/ISO-HDLC: from the all-ones register, a message followed by its checksum always leaves the
   * residue of that code.
   */
  lemma ResidueOfIsoHdlc(data: bytes)
    ensures Update(IsoHdlc(), OfBits(0xFFFF_FFFF), data + LeBytes(Checksum(IsoHdlc(), data))) == OfBits(0xDEBB_20E3)
  {
    hide Update;
    var v, sum := Update(IsoHdlc(), ONES, data), Checksum(IsoHdlc(), data);
    UpdateConcat(IsoHdlc(), ONES, data, LeBytes(sum));
    IsoHdlcTopsPermuted();
    XorCancels(v, ONES);
    XorLaws(ONES, ZERO, ZERO);
    FourStepsSeeOnlyXor(IsoHdlc(), v, sum, ZERO, ONES);
    ResidueOfOnes();
  }

  lemma ResidueOfOnes()
    ensures Update(IsoHdlc(), ZERO, LeBytes(ONES)) == OfBits(0xDEBB_20E3)
    ensures ONES == OfBits(0xFFFF_FFFF)
  {
    var s := LeBytes(ONES);
    assert s[1..] == [0xFF, 0xFF, 0xFF] && s[1..][1..] == [0xFF, 0xFF] && s[1..][1..][1..] == [0xFF];
    var v1 := Step(IsoHdlc(), ZERO, 0xFF);
    var v2 := Step(IsoHdlc(), v1, 0xFF);
    var v3 := Step(IsoHdlc(), v2, 0xFF);
    assert Update(IsoHdlc(), ZERO, s) == Step(IsoHdlc(), v3, 0xFF);
  }

  // ----- The code

  /** The one loop index that writes slot `t` is `indexOf(t)`. */
  lemma SlotOfEntry(table: Table, n: nat, t: byte)
    requires TopsPermuted(table) && n < 256
    ensures var t0 := table.entry(ByteOf(n)).b3;
            (Val(t) == Val(t0) <==> t == t0) && (Val(table.indexOf(t)) == n <==> t == t0)
  {
    var t0 := table.entry(ByteOf(n)).b3;
    if Val(t) == Val(t0) {
      ValInjective(t, t0);
    }
    if Val(table.indexOf(t)) == n {
      ValInjective(table.indexOf(t), ByteOf(n));
    }
  }

  /** Every slot keeps its initial value until the one iteration that writes it. */
  method FillReverseTable(table: Table) returns (slots: array<Word>)
    requires TopsPermuted(table)
    ensures fresh(slots) && slots.Length == 256
    ensures forall t: byte :: slots[Val(t)] == RevEntry(table, t)
  {
    slots := new Word[256](_ => ZERO);
    for n := 0 to 256
      invariant forall t: byte :: Val(table.indexOf(t)) < n ==> slots[Val(t)] == RevEntry(table, t)
      invariant forall t: byte :: Val(table.indexOf(t)) >= n ==> slots[Val(t)] == ZERO
    {
      var e := table.entry(ByteOf(n));
      slots[Val(e.b3)] := Xor(Shl8(e), Low(ByteOf(n)));
      forall t: byte {
        SlotOfEntry(table, n, t);
      }
    }
  }

  /** The reverse table, one slot per top byte. */
  class ReverseTable {
    ghost const table: Table
    const slots: array<Word>

    ghost predicate Valid()
      reads this, slots
    {
      slots.Length == 256 && forall t: byte :: slots[Val(t)] == RevEntry(table, t)
    }

    constructor (table: Table)
      requires TopsPermuted(table)
      ensures Valid() && fresh(slots) && this.table == table
    {
      this.table := table;
      var a := FillReverseTable(table);
      slots := a;
    }

    method Update(value: Word, data: bytes) returns (v: Word)
      requires Valid()
      ensures v == RevUpdate(table, value, data)
    {
      v := value;
      assert data[..|data|] == data;
      var i := |data|;
      while i > 0
        invariant 0 <= i <= |data|
        invariant RevUpdate(table, v, data[..i]) == RevUpdate(table, value, data)
      {
        i := i - 1;
        assert data[..i + 1][..i] == data[..i];
        v := Xor(Xor(Shl8(v), slots[Val(v.b3)]), Low(data[i]));
      }
    }
  }

  /** A reverse digest: data is added from the end of the message towards its front. */
  class RevDigest {
    const crc: ReverseTable
    var value: Word

    constructor (crc: ReverseTable, initial: Word)
      ensures this.crc == crc && value == Xor(initial, ONES)
    {
      this.crc := crc;
      value := Xor(initial, ONES);
    }

    method Add(data: bytes)
      requires crc.Valid()
      modifies this
      ensures value == RevUpdate(crc.table, old(value), data)
    {
      value := crc.Update(value, data);
    }
  }

  /** From the checksum before the gap and the register after it to the four bytes in between. */
  method ForgeCrc(before: Word, after: RevDigest) returns (forged: bytes)
    requires after.crc.Valid() && TopsPermuted(after.crc.table)
    modifies after
    ensures |forged| == 4
    ensures Crc32.Update(after.crc.table, Xor(before, ONES), forged) == old(after.value)
  {
    var register := Xor(before, ONES);
    ghost var target := after.value;
    after.Add(LeBytes(register));
    forged := LeBytes(after.value);
    ForgeReaches(after.crc.table, register, target, ZERO);
  }
}
