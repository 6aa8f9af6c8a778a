/** Words as numbers: what adding, shifting and masking them means. */
module WordValues {
  import opened Basics
  import opened Words

  // The number that four bytes spell, the lowest first.
  function Number(b0: bv8, b1: bv8, b2: bv8, b3: bv8): int {
    Num(b0) + 0x100 * Num(b1) + 0x1_0000 * Num(b2) + 0x100_0000 * Num(b3)
  }

  lemma NumberFits(b0: bv8, b1: bv8, b2: bv8, b3: bv8)
    ensures 0 <= Number(b0, b1, b2, b3) < 0x1_0000_0000
  {
    hide Num;
  }

  function Value(v: bv32): (n: u32) {
    NumberFits(Byte0(v), Byte1(v), Byte2(v), Byte3(v));
    Number(Byte0(v), Byte1(v), Byte2(v), Byte3(v))
  }

  lemma ValueOfJoin(b0: bv8, b1: bv8, b2: bv8, b3: bv8)
    ensures Value(Join(b0, b1, b2, b3)) == Number(b0, b1, b2, b3)
  {
    hide Byte0, Byte1, Byte2, Byte3, Join, Number;
    JoinBytes(b0, b1, b2, b3);
  }

  // --- words and numbers are the same ---

  lemma Digits(n: u32)
    ensures n % 0x100 + 0x100 * (n / 0x100 % 0x100) + 0x1_0000 * (n / 0x1_0000 % 0x100)
            + 0x100_0000 * (n / 0x100_0000) == n
    ensures n / 0x100_0000 < 0x100
  {
    var q := n / 0x100;
    var r := q / 0x100;
    assert n / 0x1_0000 == r && n / 0x100_0000 == r / 0x100;
  }

  lemma DigitsAre(b0: int, b1: int, b2: int, b3: int)
    requires 0 <= b0 < 0x100 && 0 <= b1 < 0x100 && 0 <= b2 < 0x100 && 0 <= b3 < 0x100
    ensures var n := b0 + 0x100 * b1 + 0x1_0000 * b2 + 0x100_0000 * b3;
            n % 0x100 == b0 && n / 0x100 % 0x100 == b1 && n / 0x1_0000 % 0x100 == b2 && n / 0x100_0000 == b3
  {
    var n := b0 + 0x100 * b1 + 0x1_0000 * b2 + 0x100_0000 * b3;
    var q := n / 0x100;
    var r := q / 0x100;
    assert q == b1 + 0x100 * b2 + 0x1_0000 * b3;
    assert r == b2 + 0x100 * b3 && n / 0x1_0000 == r && n / 0x100_0000 == r / 0x100;
  }

  lemma ValueOfInt(n: u32)
    ensures Value(FromInt(n)) == n
  {
    hide Byte0, Byte1, Byte2, Byte3, Join, ToByte, Value, Num;
    Digits(n);
    var b0, b1, b2, b3 := n % 0x100, n / 0x100 % 0x100, n / 0x1_0000 % 0x100, n / 0x100_0000;
    ValueOfJoin(ToByte(b0), ToByte(b1), ToByte(b2), ToByte(b3));
    ByteBack(b0);
    ByteBack(b1);
    ByteBack(b2);
    ByteBack(b3);
  }

  lemma IntOfValue(v: bv32)
    ensures FromInt(Value(v)) == v
  {
    hide Byte0, Byte1, Byte2, Byte3, Join, ToByte, Num;
    var b0, b1, b2, b3 := Byte0(v), Byte1(v), Byte2(v), Byte3(v);
    BitsBack(b0);
    BitsBack(b1);
    BitsBack(b2);
    BitsBack(b3);
    DigitsAre(Num(b0), Num(b1), Num(b2), Num(b3));
    BytesJoin(v);
  }

  // --- addition ---

  function Inc(v: bv32): bv32 { v + 1 }

  lemma Carry0(b0: bv8, b1: bv8, b2: bv8, b3: bv8)
    requires b0 != 0xff
    ensures Join(Up(b0), b1, b2, b3) == Inc(Join(b0, b1, b2, b3))
  {
  }
  lemma Carry1(b1: bv8, b2: bv8, b3: bv8)
    requires b1 != 0xff
    ensures Join(0, Up(b1), b2, b3) == Inc(Join(0xff, b1, b2, b3))
  {
  }
  lemma Carry2(b2: bv8, b3: bv8)
    requires b2 != 0xff
    ensures Join(0, 0, Up(b2), b3) == Inc(Join(0xff, 0xff, b2, b3))
  {
  }
  lemma Carry3(b3: bv8)
    ensures Join(0, 0, 0, Up(b3)) == Inc(Join(0xff, 0xff, 0xff, b3))
  {
  }

  lemma FullByte(b: bv8)
    ensures b == 0xff <==> Num(b) == 0xff
  {
  }

  // One more, with the carry through the bytes.
  lemma NextJoin(b0: bv8, b1: bv8, b2: bv8, b3: bv8)
    ensures Inc(Join(b0, b1, b2, b3))
            == if b0 != 0xff then Join(Up(b0), b1, b2, b3)
               else if b1 != 0xff then Join(0, Up(b1), b2, b3)
               else if b2 != 0xff then Join(0, 0, Up(b2), b3)
               else Join(0, 0, 0, Up(b3))
  {
    hide Join, Up, Inc;
    if b0 != 0xff {
      Carry0(b0, b1, b2, b3);
    } else if b1 != 0xff {
      Carry1(b1, b2, b3);
    } else if b2 != 0xff {
      Carry2(b2, b3);
    } else {
      Carry3(b3);
    }
  }

  lemma NextNumber(v: bv32)
    ensures Value(Inc(v)) == (Value(v) + 1) % 0x1_0000_0000
  {
    hide Byte0, Byte1, Byte2, Byte3, Join, Value, Num, Up, Inc, Number;
    var b0, b1, b2, b3 := Byte0(v), Byte1(v), Byte2(v), Byte3(v);
    BytesJoin(v);
    NextJoin(b0, b1, b2, b3);
    ValueOfJoin(b0, b1, b2, b3);
    if b0 != 0xff {
      ValueOfJoin(Up(b0), b1, b2, b3);
    } else if b1 != 0xff {
      ValueOfJoin(0, Up(b1), b2, b3);
    } else if b2 != 0xff {
      ValueOfJoin(0, 0, Up(b2), b3);
    } else {
      ValueOfJoin(0, 0, 0, Up(b3));
    }
    NumberNext(b0, b1, b2, b3);
  }

  lemma NumberNext(b0: bv8, b1: bv8, b2: bv8, b3: bv8)
    ensures var n := Number(b0, b1, b2, b3);
            (if b0 != 0xff then Number(Up(b0), b1, b2, b3)
             else if b1 != 0xff then Number(0, Up(b1), b2, b3)
             else if b2 != 0xff then Number(0, 0, Up(b2), b3)
             else Number(0, 0, 0, Up(b3))) == (n + 1) % 0x1_0000_0000
  {
    hide Num, Up;
    ZeroByte();
    FullByte(b0);
    FullByte(b1);
    FullByte(b2);
    FullByte(b3);
    CountOn(b0);
    CountOn(b1);
    CountOn(b2);
    CountOn(b3);
    Carried(Num(b0), Num(b1), Num(b2), Num(b3));
  }

  lemma Carried(n0: nat, n1: nat, n2: nat, n3: nat)
    requires n0 < 0x100 && n1 < 0x100 && n2 < 0x100 && n3 < 0x100
    ensures var n := n0 + 0x100 * n1 + 0x1_0000 * n2 + 0x100_0000 * n3;
            (n + 1) % 0x1_0000_0000
            == if n0 != 0xff then n + 1
               else if n1 != 0xff then 0x100 * (n1 + 1) + 0x1_0000 * n2 + 0x100_0000 * n3
               else if n2 != 0xff then 0x1_0000 * (n2 + 1) + 0x100_0000 * n3
               else if n3 != 0xff then 0x100_0000 * (n3 + 1)
               else 0
  {
  }

  lemma PlusNext(x: bv32, y: bv32)
    ensures Plus(x, Inc(y)) == Inc(Plus(x, y)) && Plus(x, 0) == x
  {
  }

  lemma ZeroWord()
    ensures FromInt(0) == 0
  {
  }

  lemma NextFromInt(n: u32)
    requires n > 0
    ensures FromInt(n) == Inc(FromInt(n - 1))
  {
    hide FromInt, Inc, Value;
    ValueOfInt(n - 1);
    NextNumber(FromInt(n - 1));
    IntOfValue(Inc(FromInt(n - 1)));
  }

  lemma {:induction false} PlusInt(x: bv32, n: u32)
    ensures Value(Plus(x, FromInt(n))) == (Value(x) + n) % 0x1_0000_0000
  {
    hide Plus, FromInt, Inc, Value;
    if n == 0 {
      ZeroWord();
      PlusNext(x, 0);
    } else {
      PlusInt(x, n - 1);
      NextFromInt(n);
      PlusNext(x, FromInt(n - 1));
      NextNumber(Plus(x, FromInt(n - 1)));
      OneMore(Value(x) + (n - 1));
    }
  }

  lemma OneMore(k: nat)
    ensures (k % 0x1_0000_0000 + 1) % 0x1_0000_0000 == (k + 1) % 0x1_0000_0000
  {
    WrapTwice(k, 1);
  }

  lemma PlusValue(x: bv32, y: bv32)
    ensures Value(Plus(x, y)) == (Value(x) + Value(y)) % 0x1_0000_0000
  {
    hide *;
    PlusInt(x, Value(y));
    IntOfValue(y);
  }

  lemma MinusValue(x: bv32, y: bv32)
    ensures Value(Minus(x, y)) == (Value(x) - Value(y)) % 0x1_0000_0000
  {
    hide *;
    var m := Minus(x, y);
    MinusIs(x, y);
    PlusUndoes(x, y);
    PlusValue(m, y);
    Undo(Value(m), Value(y), Value(x));
  }

  lemma PlusUndoes(x: bv32, y: bv32)
    ensures Plus(x - y, y) == x
  {
  }

  lemma Undo(m: u32, y: u32, x: u32)
    requires x == (m + y) % 0x1_0000_0000
    ensures m == (x - y) % 0x1_0000_0000
  {
  }

  // Forwards when encoding, backwards when decoding.
  function Moved(n: int, step: int, encoding: bool): int {
    if encoding then n + step else n - step
  }

  lemma StepValue(v: bv32, p: bv32, encoding: bool)
    ensures Value(Step(v, p, encoding)) == Moved(Value(v), Value(p), encoding) % 0x1_0000_0000
  {
    hide Plus, Minus, Value;
    PlusValue(v, p);
    MinusValue(v, p);
  }

  lemma StepCong(v: bv32, q: bv32, encoding: bool, n: int, p: int)
    requires p > 0 && n * p == 0x1_0000_0000
    ensures Cong(Value(Step(v, q, encoding)), Moved(Value(v), Value(q), encoding), p)
  {
    hide *;
    StepValue(v, q, encoding);
    CongLeft(Moved(Value(v), Value(q), encoding), n * p);
    CongDown(Value(Step(v, q, encoding)), Moved(Value(v), Value(q), encoding), n, p);
  }

  // --- shifts ---

  // A number is p times another, as far as a word counts.
  ghost predicate Scaled(a: int, b: int, p: int) {
    a == p * b % 0x1_0000_0000
  }

  lemma Turns(k: int, x: int)
    ensures (k * 0x1_0000_0000 + x) % 0x1_0000_0000 == x % 0x1_0000_0000
  {
  }

  lemma ScaledTwice(a: int, b: int, c: int, p: int, q: int)
    requires Scaled(a, b, p) && Scaled(b, c, q)
    ensures Scaled(a, c, p * q)
  {
    var k := q * c / 0x1_0000_0000;
    assert q * c == k * 0x1_0000_0000 + b;
    calc {
      p * q * c;
      p * (q * c);
      p * (k * 0x1_0000_0000 + b);
      p * k * 0x1_0000_0000 + p * b;
    }
    Turns(p * k, p * b);
  }

  function Twice(v: bv32): bv32 { v << 1 }

  lemma TwiceIs(v: bv32)
    ensures Twice(v) == Plus(v, v)
  {
  }
  lemma TwiceScales(v: bv32)
    ensures Scaled(Value(Twice(v)), Value(v), 2)
  {
    hide Twice, Plus, Value;
    TwiceIs(v);
    PlusValue(v, v);
  }

  lemma Shl2Is(v: bv32)
    ensures Shl2(v) == Twice(Twice(v))
  {
  }
  lemma Shl2Scales(v: bv32)
    ensures Scaled(Value(Shl2(v)), Value(v), 4)
  {
    hide *;
    Shl2Is(v);
    TwiceScales(v);
    TwiceScales(Twice(v));
    ScaledTwice(Value(Twice(Twice(v))), Value(Twice(v)), Value(v), 2, 2);
  }

  function Shl3(v: bv32): bv32 { v << 3 }

  lemma Shl3Is(v: bv32)
    ensures Shl3(v) == Twice(Shl2(v))
  {
  }
  lemma Shl3Scales(v: bv32)
    ensures Scaled(Value(Shl3(v)), Value(v), 8)
  {
    hide *;
    Shl3Is(v);
    Shl2Scales(v);
    TwiceScales(Shl2(v));
    ScaledTwice(Value(Twice(Shl2(v))), Value(Shl2(v)), Value(v), 2, 4);
  }

  function Shl4(v: bv32): bv32 { v << 4 }

  lemma Shl4Is(v: bv32)
    ensures Shl4(v) == Shl2(Shl2(v))
  {
  }
  lemma Shl4Scales(v: bv32)
    ensures Scaled(Value(Shl4(v)), Value(v), 0x10)
  {
    hide *;
    Shl4Is(v);
    Shl2Scales(v);
    Shl2Scales(Shl2(v));
    ScaledTwice(Value(Shl2(Shl2(v))), Value(Shl2(v)), Value(v), 4, 4);
  }

  function Shl8(v: bv32): bv32 { v << 8 }

  lemma Shl8Is(v: bv32)
    ensures Shl8(v) == Shl4(Shl4(v))
  {
  }
  lemma Shl8Scales(v: bv32)
    ensures Scaled(Value(Shl8(v)), Value(v), 0x100)
  {
    hide *;
    Shl8Is(v);
    Shl4Scales(v);
    Shl4Scales(Shl4(v));
    ScaledTwice(Value(Shl4(Shl4(v))), Value(Shl4(v)), Value(v), 16, 16);
  }

  function Shl12(v: bv32): bv32 { v << 12 }

  lemma Shl12Is(v: bv32)
    ensures Shl12(v) == Shl4(Shl8(v))
  {
  }
  lemma Shl12Scales(v: bv32)
    ensures Scaled(Value(Shl12(v)), Value(v), 0x1000)
  {
    hide *;
    Shl12Is(v);
    Shl8Scales(v);
    Shl4Scales(Shl8(v));
    ScaledTwice(Value(Shl4(Shl8(v))), Value(Shl8(v)), Value(v), 16, 256);
  }

  function Shl16(v: bv32): bv32 { v << 16 }

  lemma Shl16Is(v: bv32)
    ensures Shl16(v) == Shl8(Shl8(v))
  {
  }
  lemma Shl16Scales(v: bv32)
    ensures Scaled(Value(Shl16(v)), Value(v), 0x10000)
  {
    hide *;
    Shl16Is(v);
    Shl8Scales(v);
    Shl8Scales(Shl8(v));
    ScaledTwice(Value(Shl8(Shl8(v))), Value(Shl8(v)), Value(v), 256, 256);
  }

  function Shl24(v: bv32): bv32 { v << 24 }

  lemma Shl24Is(v: bv32)
    ensures Shl24(v) == Shl8(Shl16(v))
  {
  }
  lemma Shl24Scales(v: bv32)
    ensures Scaled(Value(Shl24(v)), Value(v), 0x1000000)
  {
    hide *;
    Shl24Is(v);
    Shl16Scales(v);
    Shl8Scales(Shl16(v));
    ScaledTwice(Value(Shl8(Shl16(v))), Value(Shl16(v)), Value(v), 256, 65536);
  }

  function Shl25(v: bv32): bv32 { v << 25 }

  lemma Shl25Is(v: bv32)
    ensures Shl25(v) == Twice(Shl24(v))
  {
  }
  lemma Shl25Scales(v: bv32)
    ensures Scaled(Value(Shl25(v)), Value(v), 0x2000000)
  {
    hide *;
    Shl25Is(v);
    Shl24Scales(v);
    TwiceScales(Shl24(v));
    ScaledTwice(Value(Twice(Shl24(v))), Value(Shl24(v)), Value(v), 2, 16777216);
  }

  function Shl26(v: bv32): bv32 { v << 26 }

  lemma Shl26Is(v: bv32)
    ensures Shl26(v) == Shl2(Shl24(v))
  {
  }
  lemma Shl26Scales(v: bv32)
    ensures Scaled(Value(Shl26(v)), Value(v), 0x4000000)
  {
    hide *;
    Shl26Is(v);
    Shl24Scales(v);
    Shl2Scales(Shl24(v));
    ScaledTwice(Value(Shl2(Shl24(v))), Value(Shl24(v)), Value(v), 4, 16777216);
  }

  function Shl21(v: bv32): bv32 { v << 21 }

  lemma Shl21Is(v: bv32)
    ensures Shl21(v) == Twice(Shl4(Shl16(v)))
  {
  }
  lemma Shl21Scales(v: bv32)
    ensures Scaled(Value(Shl21(v)), Value(v), 0x200000)
  {
    hide *;
    Shl21Is(v);
    Shl16Scales(v);
    Shl4Scales(Shl16(v));
    ScaledTwice(Value(Shl4(Shl16(v))), Value(Shl16(v)), Value(v), 16, 65536);
    TwiceScales(Shl4(Shl16(v)));
    ScaledTwice(Value(Twice(Shl4(Shl16(v)))), Value(Shl4(Shl16(v))), Value(v), 2, 1048576);
  }

  // --- low bits ---

  // The same as far as a power of two counts.
  predicate Cong(x: int, y: int, p: int) {
    p > 0 && x % p == y % p
  }

  lemma CongBy(x: int, y: int, q: int, p: int)
    requires p > 0 && x == y + p * q
    ensures Cong(x, y, p)
  {
    var r, d := y % p, y / p;
    assert y == p * d + r;
    assert x == p * (d + q) + r;
    Only(x, d + q, r, p);
  }

  lemma CongHas(x: int, y: int, p: int) returns (q: int)
    requires Cong(x, y, p)
    ensures x == y + p * q
  {
    var d, e := x / p, y / p;
    assert x == p * d + x % p && y == p * e + y % p;
    q := d - e;
  }

  lemma CongAdd(x: int, y: int, k: int, p: int)
    requires Cong(x, y, p)
    ensures Cong(x + k, y + k, p)
  {
    hide Cong;
    PositiveCong(x, y, p);
    var q := CongHas(x, y, p);
    CongBy(x + k, y + k, q, p);
  }

  lemma PositiveCong(x: int, y: int, p: int)
    requires Cong(x, y, p)
    ensures p > 0
  {
  }

  lemma CongThrough(x: int, y: int, z: int, p: int)
    requires Cong(x, y, p) && (Cong(y, z, p) || Cong(z, y, p))
    ensures Cong(x, z, p)
  {
  }

  // What is the same modulo a multiple is the same.
  lemma CongDown(x: int, y: int, n: int, p: int)
    requires p > 0 && Cong(x, y, n * p)
    ensures Cong(x, y, p)
  {
    hide Cong;
    var q := CongHas(x, y, n * p);
    assert n * p * q == p * (n * q);
    CongBy(x, y, n * q, p);
  }

  lemma CongLeft(x: int, p: int)
    requires p > 0
    ensures Cong(x % p, x, p)
  {
    var q := x / p;
    assert x == p * q + x % p;
    assert x % p == x + p * -q;
    CongBy(x % p, x, -q, p);
  }

  lemma CongScaled(x: int, y: int, c: int, p: int)
    requires c > 0 && p > 0
    ensures Cong(c * x, c * y, c * p) <==> Cong(x, y, p)
  {
    hide Cong;
    if Cong(x, y, p) {
      var q := CongHas(x, y, p);
      assert c * (y + p * q) == c * y + c * p * q;
      CongBy(c * x, c * y, q, c * p);
    }
    if Cong(c * x, c * y, c * p) {
      var q := CongHas(c * x, c * y, c * p);
      assert c * p * q == c * (p * q);
      Divided(x, y + p * q, c);
      CongBy(x, y, q, p);
    }
  }

  lemma Divided(x: int, y: int, c: int)
    requires c > 0 && c * x == c * y
    ensures x == y
  {
    assert c * (x - y) == 0;
  }

  lemma CongMoved(x: int, y: int, step: int, encoding: bool, p: int)
    requires Cong(x, y, p)
    ensures Cong(Moved(x, step, encoding), Moved(y, step, encoding), p)
  {
    hide Cong;
    CongAdd(x, y, if encoding then step else -step, p);
  }

  // A multiple of a power of two does not change what is left by it.
  lemma Leaves(x: int, y: int, m: int, z: int, p: int, n: int)
    requires p > 0 && n * p == 0x1_0000_0000 && Scaled(m, z, p) && x == (y + m) % 0x1_0000_0000
    ensures Cong(x, y, p)
  {
    hide Cong, Scaled;
    ScaledIs(m, z, p);
    CongLeft(y + m, n * p);
    CongDown(x, y + m, n, p);
    CongLeft(p * z, n * p);
    CongDown(m, p * z, n, p);
    CongAdd(m, p * z, y, p);
    CongBy(y + p * z, y, z, p);
    CongThrough(x, y + m, p * z + y, p);
    CongThrough(x, y + p * z, y, p);
  }

  lemma ScaledIs(a: int, b: int, p: int)
    ensures Scaled(a, b, p) <==> a == p * b % 0x1_0000_0000
  {
  }

  lemma Only(x: int, q: int, r: int, p: int)
    requires p > 0 && x == p * q + r && 0 <= r < p
    ensures x % p == r && x / p == q
  {
    var k := x / p - q;
    assert p * k == r - x % p;
    NoMultiple(p, k);
  }

  lemma NoMultiple(p: int, k: int)
    requires p > 0 && -p < p * k < p
    ensures k == 0
  {
  }

  lemma Rest(x: bv32, y: bv32)
    ensures x == Plus(y, x - y)
  {
  }

  predicate Same21(x: bv32, y: bv32) { x & 0x001f_ffff == y & 0x001f_ffff }

  lemma Split21(x: bv32, y: bv32)
    requires Same21(x, y)
    ensures (x - y) & 0x001f_ffff == 0
  {
  }
  lemma Whole21(z: bv32)
    requires z & 0x001f_ffff == 0
    ensures z == Shl21(z >> 21)
  {
  }
  lemma Same21Value(x: bv32, y: bv32)
    requires Same21(x, y)
    ensures Cong(Value(x), Value(y), 0x20_0000)
  {
    hide *;
    var z := (x - y) >> 21;
    Split21(x, y);
    Whole21(x - y);
    Rest(x, y);
    Shl21Scales(z);
    PlusValue(y, Shl21(z));
    Leaves(Value(x), Value(y), Value(Shl21(z)), Value(z), 0x20_0000, 0x800);
  }

  predicate Same24(x: bv32, y: bv32) { x & 0x00ff_ffff == y & 0x00ff_ffff }

  lemma Split24(x: bv32, y: bv32)
    requires Same24(x, y)
    ensures (x - y) & 0x00ff_ffff == 0
  {
  }
  lemma Whole24(z: bv32)
    requires z & 0x00ff_ffff == 0
    ensures z == Shl24(z >> 24)
  {
  }
  lemma Same24Value(x: bv32, y: bv32)
    requires Same24(x, y)
    ensures Cong(Value(x), Value(y), 0x100_0000)
  {
    hide *;
    var z := (x - y) >> 24;
    Split24(x, y);
    Whole24(x - y);
    Rest(x, y);
    Shl24Scales(z);
    PlusValue(y, Shl24(z));
    Leaves(Value(x), Value(y), Value(Shl24(z)), Value(z), 0x100_0000, 0x100);
  }

  predicate Same25(x: bv32, y: bv32) { x & 0x01ff_ffff == y & 0x01ff_ffff }

  lemma Split25(x: bv32, y: bv32)
    requires Same25(x, y)
    ensures (x - y) & 0x01ff_ffff == 0
  {
  }
  lemma Whole25(z: bv32)
    requires z & 0x01ff_ffff == 0
    ensures z == Shl25(z >> 25)
  {
  }
  lemma Same25Value(x: bv32, y: bv32)
    requires Same25(x, y)
    ensures Cong(Value(x), Value(y), 0x200_0000)
  {
    hide *;
    var z := (x - y) >> 25;
    Split25(x, y);
    Whole25(x - y);
    Rest(x, y);
    Shl25Scales(z);
    PlusValue(y, Shl25(z));
    Leaves(Value(x), Value(y), Value(Shl25(z)), Value(z), 0x200_0000, 0x80);
  }

  predicate Same26(x: bv32, y: bv32) { x & 0x03ff_ffff == y & 0x03ff_ffff }

  lemma Split26(x: bv32, y: bv32)
    requires Same26(x, y)
    ensures (x - y) & 0x03ff_ffff == 0
  {
  }
  lemma Whole26(z: bv32)
    requires z & 0x03ff_ffff == 0
    ensures z == Shl26(z >> 26)
  {
  }
  lemma Same26Value(x: bv32, y: bv32)
    requires Same26(x, y)
    ensures Cong(Value(x), Value(y), 0x400_0000)
  {
    hide *;
    var z := (x - y) >> 26;
    Split26(x, y);
    Whole26(x - y);
    Rest(x, y);
    Shl26Scales(z);
    PlusValue(y, Shl26(z));
    Leaves(Value(x), Value(y), Value(Shl26(z)), Value(z), 0x400_0000, 0x40);
  }

  // --- shifting down ---

  lemma Bounded30(y: bv32)
    requires Byte3(y) < 0x40
    ensures Value(y) < 0x4000_0000
  {
    hide Num, Byte0, Byte1, Byte2, Byte3;
    ByteLess(Byte3(y), 0x40);
    SmallBytes();
  }
  lemma Bounded20(y: bv32)
    requires Byte3(y) == 0 && Byte2(y) < 0x10
    ensures Value(y) < 0x10_0000
  {
    hide Num, Byte0, Byte1, Byte2, Byte3;
    ByteLess(Byte2(y), 0x10);
    SmallBytes();
  }
  lemma Bounded12(y: bv32)
    requires Byte3(y) == 0 && Byte2(y) == 0 && Byte1(y) < 0x10
    ensures Value(y) < 0x1000
  {
    hide Num, Byte0, Byte1, Byte2, Byte3;
    ByteLess(Byte1(y), 0x10);
    SmallBytes();
  }
  lemma Bounded2(y: bv32)
    requires Byte3(y) == 0 && Byte2(y) == 0 && Byte1(y) == 0 && Byte0(y) < 4
    ensures Value(y) < 4
  {
    hide Num, Byte0, Byte1, Byte2, Byte3;
    ByteLess(Byte0(y), 4);
    SmallBytes();
  }
  lemma SmallBytes()
    ensures Num(0) == 0 && Num(4) == 4 && Num(0x10) == 0x10 && Num(0x40) == 0x40
  {
  }

  lemma Shr2Is(x: bv32)
    ensures Shr2(x) == x >> 2
  {
  }
  lemma Parts2(x: bv32)
    ensures x == Plus(Shl2(x >> 2), x & 3) && Byte3(x >> 2) < 0x40
    ensures Byte3(x & 3) == 0 && Byte2(x & 3) == 0 && Byte1(x & 3) == 0 && Byte0(x & 3) < 4
  {
  }
  lemma Shr2Value(x: bv32)
    ensures Value(Shr2(x)) == Value(x) / 4 && Value(x & 3) == Value(x) % 4
  {
    hide *;
    var y, z := x >> 2, x & 3;
    Shr2Is(x);
    Parts2(x);
    Bounded30(y);
    Bounded2(z);
    Shl2Scales(y);
    PlusValue(Shl2(y), z);
    Quotient(Value(x), Value(Shl2(y)), Value(y), Value(z), 4);
  }
  lemma Parts12(x: bv32)
    ensures x == Plus(Shl12(x >> 12), x & 0xfff) && Byte3(x >> 12) == 0 && Byte2(x >> 12) < 0x10
    ensures Byte3(x & 0xfff) == 0 && Byte2(x & 0xfff) == 0 && Byte1(x & 0xfff) < 0x10
  {
  }
  lemma Shr12Value(x: bv32)
    ensures Value(x >> 12) == Value(x) / 0x1000
  {
    hide *;
    var y, z := x >> 12, x & 0xfff;
    Parts12(x);
    Bounded20(y);
    Bounded12(z);
    Shl12Scales(y);
    PlusValue(Shl12(y), z);
    Quotient(Value(x), Value(Shl12(y)), Value(y), Value(z), 0x1000);
  }
  lemma Quotient(x: int, m: int, y: int, z: int, p: int)
    requires 0 <= y && 0 <= z < p && p * y + p <= 0x1_0000_0000
    requires Scaled(m, y, p) && x == (m + z) % 0x1_0000_0000
    ensures y == x / p && z == x % p
  {
    assert 0 <= p * y < 0x1_0000_0000;
    InRange(p * y);
    InRange(p * y + z);
    Only(x, y, z, p);
  }
  lemma InRange(x: int)
    requires 0 <= x < 0x1_0000_0000
    ensures x % 0x1_0000_0000 == x
  {
  }
}
