/** Machine words shared by the branch filters. */
module Words {
  import opened Basics

  // A uint32 used as a counter of bytes.
  function Wrap32(x: int): u32 {
    x % 0x1_0000_0000
  }

  lemma WrapAligned(x: int)
    requires x % 4 == 0
    ensures Wrap32(x) % 4 == 0
  {
    var q, k := x / 0x1_0000_0000, x / 4;
    assert Wrap32(x) == 4 * (k - q * 0x4000_0000);
  }

  lemma WrapSmall(x: nat)
    requires x < 0x1_0000_0000
    ensures Wrap32(x) == x
  {
  }

  lemma WrapOver(x: nat)
    requires x < 0x1_0000_0000
    ensures Wrap32(x + 0x1_0000_0000) == x
  {
  }

  lemma WrapTwice(x: int, k: int)
    ensures Wrap32(Wrap32(x) + k) == Wrap32(x + k)
  {
  }

  function Byte0(v: bv32): bv8 { (v & 0xff) as bv8 }
  function Byte1(v: bv32): bv8 { ((v >> 8) & 0xff) as bv8 }
  function Byte2(v: bv32): bv8 { ((v >> 16) & 0xff) as bv8 }
  function Byte3(v: bv32): bv8 { (v >> 24) as bv8 }

  function Join(b0: bv8, b1: bv8, b2: bv8, b3: bv8): bv32 {
    b0 as bv32 | (b1 as bv32 << 8) | (b2 as bv32 << 16) | (b3 as bv32 << 24)
  }

  // A number as a word.
  function FromInt(n: u32): bv32 {
    Join(ToByte(n % 0x100), ToByte(n / 0x100 % 0x100), ToByte(n / 0x1_0000 % 0x100), ToByte(n / 0x100_0000))
  }

  lemma JoinBytes(b0: bv8, b1: bv8, b2: bv8, b3: bv8)
    ensures Byte0(Join(b0, b1, b2, b3)) == b0
    ensures Byte1(Join(b0, b1, b2, b3)) == b1
    ensures Byte2(Join(b0, b1, b2, b3)) == b2
    ensures Byte3(Join(b0, b1, b2, b3)) == b3
  {
  }

  lemma BytesJoin(v: bv32)
    ensures Join(Byte0(v), Byte1(v), Byte2(v), Byte3(v)) == v
  {
  }

  // binary.LittleEndian.Uint32 and PutUint32
  function FromLE(b: seq<bv8>): bv32
    requires |b| == 4
  {
    Join(b[0], b[1], b[2], b[3])
  }

  function ToLE(v: bv32): (b: seq<bv8>)
    ensures |b| == 4
  {
    [Byte0(v), Byte1(v), Byte2(v), Byte3(v)]
  }

  // binary.BigEndian.Uint32 and PutUint32
  function FromBE(b: seq<bv8>): bv32
    requires |b| == 4
  {
    Join(b[3], b[2], b[1], b[0])
  }

  function ToBE(v: bv32): (b: seq<bv8>)
    ensures |b| == 4
  {
    [Byte3(v), Byte2(v), Byte1(v), Byte0(v)]
  }

  lemma WordBytes(b: seq<bv8>)
    requires |b| == 4
    ensures ToLE(FromLE(b)) == b && ToBE(FromBE(b)) == b
  {
    hide Byte0, Byte1, Byte2, Byte3, Join;
    JoinBytes(b[0], b[1], b[2], b[3]);
    JoinBytes(b[3], b[2], b[1], b[0]);
  }

  lemma BytesWord(v: bv32)
    ensures FromLE(ToLE(v)) == v && FromBE(ToBE(v)) == v
  {
    hide Byte0, Byte1, Byte2, Byte3, Join;
    BytesJoin(v);
  }

  // Addition and subtraction under names, so that proofs can hide the adders.
  function Plus(x: bv32, y: bv32): bv32 { x + y }
  function Minus(x: bv32, y: bv32): bv32 { x - y }

  function Step(v: bv32, p: bv32, encoding: bool): bv32 {
    if encoding then Plus(v, p) else Minus(v, p)
  }

  lemma PlusIs(x: bv32, p: bv32)
    ensures Plus(x, p) == x + p
  {
  }
  lemma MinusIs(x: bv32, p: bv32)
    ensures Minus(x, p) == x - p
  {
  }
  lemma MinusUndoes(x: bv32, p: bv32)
    ensures Minus(x + p, p) == x
  {
  }
  lemma MinusPlus(x: bv32, p: bv32)
    ensures Minus(Plus(x, p), p) == x
  {
    hide *;
    PlusIs(x, p);
    MinusUndoes(x, p);
  }

  function Shl2(x: bv32): bv32 { x << 2 }
  function Shr2(x: bv32): bv32 { x >> 2 }

  // Subtraction does not look above the bits of its result.
  function Low25(x: bv32): bv32 { x & 0x01ff_ffff }
  function Low21(x: bv32): bv32 { x & 0x1f_ffff }

  lemma LowIs(x: bv32)
    ensures Low25(x) == x & 0x01ff_ffff && Low21(x) == x & 0x1f_ffff
  {
  }
  lemma Low25Minus(a: bv32, p: bv32)
    ensures Low25(Minus(a, p)) == (a - p) & 0x01ff_ffff
  {
  }
  lemma Low25MinusMasked(a: bv32, p: bv32)
    ensures Low25(Minus(a & 0x01ff_ffff, p)) == (a - p) & 0x01ff_ffff
  {
  }
  lemma MinusLow25(a: bv32, b: bv32, p: bv32)
    requires Low25(a) == Low25(b)
    ensures Low25(Minus(a, p)) == Low25(Minus(b, p))
  {
    hide *;
    LowIs(a);
    LowIs(b);
    Low25Minus(a, p);
    Low25Minus(b, p);
    Low25MinusMasked(a, p);
    Low25MinusMasked(b, p);
  }
  lemma Low21Minus(a: bv32, p: bv32)
    ensures Low21(Minus(a, p)) == (a - p) & 0x1f_ffff
  {
  }
  lemma Low21MinusMasked(a: bv32, p: bv32)
    ensures Low21(Minus(a & 0x1f_ffff, p)) == (a - p) & 0x1f_ffff
  {
  }
  lemma MinusLow21(a: bv32, b: bv32, p: bv32)
    requires Low21(a) == Low21(b)
    ensures Low21(Minus(a, p)) == Low21(Minus(b, p))
  {
    hide *;
    LowIs(a);
    LowIs(b);
    Low21Minus(a, p);
    Low21Minus(b, p);
    Low21MinusMasked(a, p);
    Low21MinusMasked(b, p);
  }

  method StoreLE(b: array<bv8>, i: nat, v: bv32)
    requires i + 4 <= b.Length
    modifies b
    ensures b[..] == old(b[..i]) + ToLE(v) + old(b[i + 4..])
  {
    hide Byte0, Byte1, Byte2, Byte3;
    b[i], b[i + 1], b[i + 2], b[i + 3] := Byte0(v), Byte1(v), Byte2(v), Byte3(v);
  }

  method StoreBE(b: array<bv8>, i: nat, v: bv32)
    requires i + 4 <= b.Length
    modifies b
    ensures b[..] == old(b[..i]) + ToBE(v) + old(b[i + 4..])
  {
    hide Byte0, Byte1, Byte2, Byte3;
    b[i], b[i + 1], b[i + 2], b[i + 3] := Byte3(v), Byte2(v), Byte1(v), Byte0(v);
  }
}
