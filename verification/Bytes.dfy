/** Byte strings and the fixed-width integer fields the file and packet formats are made of. */
module Bytes {

  type byte = bv8
  type bytes = seq<byte>

  const U16_LIMIT: nat := 0x1_0000
  const U32_LIMIT: nat := 0x1_0000_0000
  const U64_LIMIT: nat := 0x1_0000_0000_0000_0000

  datatype Option<+T> = None | Some(value: T) {
    function GetOr(default: T): T {
      if Some? then value else default
    }
  }

  function Val(b: byte): (n: nat)
    ensures n < 256
  {
    b as nat
  }

  lemma ValSucc(b: byte)
    requires Val(b) < 255
    ensures Val(b + 1) == Val(b) + 1
  {}

  lemma ValInjective(a: byte, b: byte)
    requires Val(a) == Val(b)
    ensures a == b
  {}

  /** The byte with value `n`. */
  function ByteOf(n: nat): (b: byte)
    requires n < 256
    ensures Val(b) == n
  {
    if n == 0 then 0 else ValSucc(ByteOf(n - 1)); ByteOf(n - 1) + 1
  }

  // ----- Integer fields

  function Le16(n: nat): (s: bytes)
    requires n < U16_LIMIT
    ensures |s| == 2
  {
    [ByteOf(n % 256), ByteOf(n / 256)]
  }

  function Le32(n: nat): (s: bytes)
    requires n < U32_LIMIT
    ensures |s| == 4
  {
    Le16(n % U16_LIMIT) + Le16(n / U16_LIMIT)
  }

  function Be32(n: nat): (s: bytes)
    requires n < U32_LIMIT
    ensures |s| == 4
  {
    var s := Le32(n);
    [s[3], s[2], s[1], s[0]]
  }

  /** Little-endian fields start with the low byte, big-endian ones with the high byte. */
  lemma ByteOrder(n: nat)
    requires n < 4_294_967_296
    ensures Val(Le32(n)[0]) == n % 256 && Val(Le32(n)[1]) == n / 256 % 256
    ensures Val(Le32(n)[2]) == n / 65_536 % 256 && Val(Le32(n)[3]) == n / 16_777_216
    ensures Be32(n) == [Le32(n)[3], Le32(n)[2], Le32(n)[1], Le32(n)[0]]
    ensures n < 65_536 ==> Le16(n) == Le32(n)[..2]
  {
    hide ByteOf, Val;
    Digits(n);
    var s := Le32(n);
    assert s[..2] == Le16(n % U16_LIMIT) && s[2..] == Le16(n / U16_LIMIT);
    assert s[0] == s[..2][0] && s[1] == s[..2][1] && s[2] == s[2..][0] && s[3] == s[2..][1];
  }

  /** The number whose four bytes are given, low byte first. */
  function LowFirst(s: bytes): nat
    requires |s| == 4
  {
    Val(s[0]) + 256 * Val(s[1]) + 65_536 * Val(s[2]) + 16_777_216 * Val(s[3])
  }

  lemma FieldValue(n: nat)
    requires n < U32_LIMIT
    ensures LowFirst(Le32(n)) == n
    ensures var b := Be32(n); LowFirst([b[3], b[2], b[1], b[0]]) == n
  {
    hide Le32, Be32, Val;
    ByteOrder(n);
    DigitSum(n);
    var b := Be32(n);
    assert [b[3], b[2], b[1], b[0]] == Le32(n);
  }

  lemma DigitSum(n: nat)
    ensures n == n % 256 + 256 * (n / 256 % 256) + 65_536 * (n / 65_536 % 256) + 16_777_216 * (n / 16_777_216)
  {
    var a := n / 256;
    var b := a / 256;
    assert n / 65_536 == b && n / 16_777_216 == b / 256;
    assert n == n % 256 + 256 * a && a == a % 256 + 256 * b && b == b % 256 + 256 * (b / 256);
  }

  lemma Digits(n: nat)
    ensures n % U16_LIMIT % 256 == n % 256 && n % U16_LIMIT / 256 == n / 256 % 256
    ensures n / U16_LIMIT % 256 == n / 65_536 % 256 && n / U16_LIMIT / 256 == n / 16_777_216
  {}

  function ReadLe16(s: bytes): (n: nat)
    requires |s| == 2
    ensures n < U16_LIMIT
  {
    Val(s[0]) + 256 * Val(s[1])
  }

  function ReadLe32(s: bytes): (n: nat)
    requires |s| == 4
    ensures n < U32_LIMIT
  {
    ReadLe16(s[..2]) + U16_LIMIT * ReadLe16(s[2..])
  }

  function ReadBe32(s: bytes): (n: nat)
    requires |s| == 4
    ensures n < U32_LIMIT
  {
    ReadLe32([s[3], s[2], s[1], s[0]])
  }

  lemma ReadLe16Inverts(n: nat)
    requires n < U16_LIMIT
    ensures ReadLe16(Le16(n)) == n
  {}

  lemma ReadLe32Inverts(n: nat)
    requires n < U32_LIMIT
    ensures ReadLe32(Le32(n)) == n
  {
    var s := Le32(n);
    assert s[..2] == Le16(n % U16_LIMIT) && s[2..] == Le16(n / U16_LIMIT);
    ReadLe16Inverts(n % U16_LIMIT);
    ReadLe16Inverts(n / U16_LIMIT);
  }

  lemma ReadBe32Inverts(n: nat)
    requires n < U32_LIMIT
    ensures ReadBe32(Be32(n)) == n
  {
    var s, t := Le32(n), Be32(n);
    assert [t[3], t[2], t[1], t[0]] == s;
    ReadLe32Inverts(n);
  }

  function Power(b: nat, n: nat): nat {
    if n == 0 then 1 else b * Power(b, n - 1)
  }

  // ----- Runs of bytes

  function Zeros(n: nat): (s: bytes)
    ensures |s| == n
  {
    seq(n, _ => 0)
  }

  function Flatten<T>(parts: seq<seq<T>>): seq<T> {
    if parts == [] then [] else parts[0] + Flatten(parts[1..])
  }

  lemma {:induction false} FlattenConcat<T>(a: seq<seq<T>>, b: seq<seq<T>>)
    ensures Flatten(a + b) == Flatten(a) + Flatten(b)
  {
    if a == [] {
      assert a + b == b;
    } else {
      assert (a + b)[1..] == a[1..] + b;
      FlattenConcat(a[1..], b);
    }
  }

  lemma SplitAt<T>(s: seq<T>, i: nat)
    requires i <= |s|
    ensures s == s[..i] + s[i..]
  {}

  lemma FlattenSnoc<T>(a: seq<seq<T>>, x: seq<T>)
    ensures Flatten(a + [x]) == Flatten(a) + x
  {
    FlattenConcat(a, [x]);
  }
}
