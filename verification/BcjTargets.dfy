/** Where an x86 branch goes: what the filter does to an operand, in numbers. */
module BcjTargets {
  import opened Basics
  import opened Words
  import opened WordValues
  import opened BcjOperand
  import opened Bcj

  // The four operand bytes as a number.
  function NumberOf(b: seq<bv8>): int
    requires |b| == 4
  {
    Number(b[0], b[1], b[2], b[3])
  }

  // --- flipping the low bytes ---

  // The history mask says how many of them.
  function Width(mask: Lone): int {
    if mask <= 1 then 0x100 else if mask == 2 then 0x1_0000 else 0x100_0000
  }

  function FlippedNumber(n: int, width: int): int
    requires width > 0
  {
    n - n % width + (width - 1 - n % width)
  }

  lemma NotNum(b: bv8)
    ensures Num(Not(b)) == 0xff - Num(b)
  {
  }

  lemma Flip8Bytes(v: bv32)
    ensures Byte0(Flip8(v)) == Not(Byte0(v))
    ensures Byte1(Flip8(v)) == Byte1(v) && Byte2(Flip8(v)) == Byte2(v) && Byte3(Flip8(v)) == Byte3(v)
  {
  }
  lemma Flip16Bytes(v: bv32)
    ensures Byte0(Flip16(v)) == Not(Byte0(v)) && Byte1(Flip16(v)) == Not(Byte1(v))
    ensures Byte2(Flip16(v)) == Byte2(v) && Byte3(Flip16(v)) == Byte3(v)
  {
  }
  lemma Flip24Bytes(v: bv32)
    ensures Byte0(Flip24(v)) == Not(Byte0(v)) && Byte1(Flip24(v)) == Not(Byte1(v)) && Byte2(Flip24(v)) == Not(Byte2(v))
    ensures Byte3(Flip24(v)) == Byte3(v)
  {
  }

  // What is left of a number by a width are its low bytes.
  lemma LowBytes(v: bv32)
    ensures Value(v) % 0x100 == Num(Byte0(v))
    ensures Value(v) % 0x1_0000 == Num(Byte0(v)) + 0x100 * Num(Byte1(v))
    ensures Value(v) % 0x100_0000 == Num(Byte0(v)) + 0x100 * Num(Byte1(v)) + 0x1_0000 * Num(Byte2(v))
  {
    hide Num, Byte0, Byte1, Byte2, Byte3;
    var b0, b1, b2, b3 := Num(Byte0(v)), Num(Byte1(v)), Num(Byte2(v)), Num(Byte3(v));
    Only(Value(v), b1 + 0x100 * b2 + 0x1_0000 * b3, b0, 0x100);
    Only(Value(v), b2 + 0x100 * b3, b0 + 0x100 * b1, 0x1_0000);
    Only(Value(v), b3, b0 + 0x100 * b1 + 0x1_0000 * b2, 0x100_0000);
  }

  lemma FlipValue(v: bv32, mask: Lone)
    ensures Value(FlipLow(v, mask)) == FlippedNumber(Value(v), Width(mask))
  {
    hide Num, Byte0, Byte1, Byte2, Byte3, Flip8, Flip16, Flip24, Not;
    LowBytes(v);
    NotNum(Byte0(v));
    NotNum(Byte1(v));
    NotNum(Byte2(v));
    Flip8Bytes(v);
    Flip16Bytes(v);
    Flip24Bytes(v);
  }

  // The byte that guards a pending opcode is the highest of those.
  lemma GuardValue(v: bv32, mask: Lone)
    ensures Num(GuardByte(v, mask)) == Value(v) % Width(mask) / (Width(mask) / 0x100)
  {
    hide Num, Byte0, Byte1, Byte2, Byte3;
    LowBytes(v);
    var b0, b1, b2 := Num(Byte0(v)), Num(Byte1(v)), Num(Byte2(v));
    Only(b0 + 0x100 * b1, b1, b0, 0x100);
    Only(b0 + 0x100 * b1 + 0x1_0000 * b2, b2, b0 + 0x100 * b1, 0x1_0000);
  }

  lemma ExtremeNum(b: bv8)
    ensures Extreme(b) <==> Num(b) == 0 || Num(b) == 0xff
  {
  }

  // --- the operand ---

  // The operand moved by an address; where that makes the guarding byte 00 or FF, it is flipped and
  // moved again.
  function MovedOperand(n: int, a: int, mask: Lone, encoding: bool): int {
    var m := Moved(n, a, encoding) % 0x1_0000_0000;
    var guard := m % Width(mask) / (Width(mask) / 0x100);
    if mask != 0 && (guard == 0 || guard == 0xff) then Moved(FlippedNumber(m, Width(mask)), a, encoding) else m
  }

  lemma SignKeeps(x: bv32)
    ensures Same25(SignTop(x), x) && Extreme(Byte3(SignTop(x)))
  {
    hide *;
    SignTopSame(x);
    LowIs(SignTop(x));
    LowIs(x);
    Same25Is(SignTop(x), x);
  }
  lemma Same25Is(x: bv32, y: bv32)
    ensures Same25(x, y) <==> x & 0x01ff_ffff == y & 0x01ff_ffff
  {
  }

  // Modulo 2^25 that is what is written, and the top byte is its sign.
  lemma OperandValue(v: bv32, a: u32, mask: Lone, encoding: bool)
    ensures var r := Operand(v, FromInt(a), mask, encoding);
            && Cong(Value(r), MovedOperand(Value(v), a, mask, encoding), 0x200_0000)
            && Num(Byte3(r)) == if Value(r) % 0x200_0000 >= 0x100_0000 then 0xff else 0
  {
    hide Value, FromInt, SignTop, Step, FlipLow, GuardByte, Extreme, Cong, Moved, FlippedNumber, Num, Byte3, Operand;
    var p := FromInt(a);
    var w := Step(v, p, encoding);
    OperandIs(v, p, mask, encoding);
    ValueOfInt(a);
    StepValue(v, p, encoding);
    GuardValue(w, mask);
    ExtremeNum(GuardByte(w, mask));
    FlipValue(w, mask);
    var x := if mask != 0 && Extreme(GuardByte(w, mask)) then Step(FlipLow(w, mask), p, encoding) else w;
    var r := SignTop(x);
    SignKeeps(x);
    Same25Value(r, x);
    ExtremeNum(Byte3(r));
    TopIsSign(r);
    if mask != 0 && Extreme(GuardByte(w, mask)) {
      StepCong(FlipLow(w, mask), p, encoding, 0x80, 0x200_0000);
      CongThrough(Value(r), Value(x), MovedOperand(Value(v), a, mask, encoding), 0x200_0000);
    }
  }

  lemma TopIsSign(r: bv32)
    requires Num(Byte3(r)) == 0 || Num(Byte3(r)) == 0xff
    ensures Num(Byte3(r)) == if Value(r) % 0x200_0000 >= 0x100_0000 then 0xff else 0
  {
    hide Num, Byte0, Byte1, Byte2, Byte3;
    var low := Num(Byte0(r)) + 0x100 * Num(Byte1(r)) + 0x1_0000 * Num(Byte2(r));
    if Num(Byte3(r)) == 0 {
      Only(Value(r), 0, low, 0x200_0000);
    } else {
      Only(Value(r), 127, 0x100_0000 + low, 0x200_0000);
    }
  }

  lemma ValueOfBytes(b: seq<bv8>)
    requires |b| == 4
    ensures Value(FromLE(b)) == NumberOf(b)
  {
    hide Join, Number, Value;
    ValueOfJoin(b[0], b[1], b[2], b[3]);
  }

  // --- the scan ---

  lemma OpcodeIs(b: bv8)
    ensures Opcode(b) <==> b == 0xe8 || b == 0xe9
  {
  }
  lemma ExtremeIs(b: bv8)
    ensures Extreme(b) <==> b == 0 || b == 0xff
  {
  }

  // Whether the bytes at a position are converted: E8 or E9 with a last byte 00 or FF, and of the three
  // positions before it none is pending, or one whose own last byte is not 00 or FF.
  predicate Convertible(s: seq<bv8>, mask: nat)
    requires |s| >= 5 && mask < 8
  {
    && (s[0] == 0xe8 || s[0] == 0xe9) && (s[4] == 0 || s[4] == 0xff)
    && (mask == 0 || (mask == 1 && s[1] != 0 && s[1] != 0xff) || (mask == 2 && s[2] != 0 && s[2] != 0xff)
        || (mask == 4 && s[3] != 0 && s[3] != 0xff))
  }

  lemma ConvertsIff(s: seq<bv8>, mask: nat)
    requires |s| >= 5 && mask < 8
    ensures Converts(s, mask) <==> Convertible(s, mask)
  {
    hide Opcode, Extreme;
    OpcodeIs(s[0]);
    ExtremeIs(s[4]);
    ExtremeIs(s[1]);
    ExtremeIs(s[2]);
    ExtremeIs(s[3]);
  }

  // What the filter does at the first position, at address ip: it leaves the first byte, and of a branch
  // that is converted it moves the operand by the address of the next instruction, modulo 2^25 with the
  // sign above; the scan goes on behind it. Anything else is passed over.
  lemma FirstResolved(s: seq<bv8>, mask: nat, ip: u32, encoding: bool)
    requires |s| >= 5 && mask < 8
    ensures Convertible(s, mask) ==>
              var r := Run(s, mask, ip, encoding).out;
              && r[0] == s[0]
              && Cong(NumberOf(r[1..5]), MovedOperand(NumberOf(s[1..5]), Wrap32(ip + 5), mask, encoding), 0x200_0000)
              && r[4] == (if NumberOf(r[1..5]) % 0x200_0000 >= 0x100_0000 then 0xff else 0)
              && r[5..] == Run(s[5..], 0, Wrap32(ip + 5), encoding).out
    ensures !Convertible(s, mask) ==>
              var r := Run(s, mask, ip, encoding).out;
              var mask' := mask / 2 + if s[0] == 0xe8 || s[0] == 0xe9 then 4 else 0;
              r[0] == s[0] && r[1..] == Run(s[1..], mask', Wrap32(ip + 1), encoding).out
  {
    hide Run, Opcode, Operand, Convertible, NewOperand, MovedOperand, Cong, NumberOf, Converts, FromLE, ToLE, FromInt;
    ConvertsIff(s, mask);
    OpcodeIs(s[0]);
    if Convertible(s, mask) {
      RunConvert(s, mask, ip, encoding);
      ConvertedOperand(s, mask, ip, encoding);
      var n := NewOperand(s, mask, ip, encoding);
      AfterState(Run(s[5..], 0, Wrap32(ip + 5), encoding), s[..1] + n);
      var r := Run(s, mask, ip, encoding).out;
      assert r[1..5] == n && r[4] == n[3];
    } else {
      RunSkip(s, mask, ip, encoding);
      AfterState(Run(s[1..], Aged(s[0], mask), Wrap32(ip + 1), encoding), s[..1]);
    }
  }

  lemma ConvertedOperand(s: seq<bv8>, mask: nat, ip: u32, encoding: bool)
    requires |s| >= 5 && mask < 8 && Converts(s, mask)
    ensures mask in {0, 1, 2, 4}
    ensures var n := NewOperand(s, mask, ip, encoding);
            && Cong(NumberOf(n), MovedOperand(NumberOf(s[1..5]), Wrap32(ip + 5), mask, encoding), 0x200_0000)
            && n[3] == (if NumberOf(n) % 0x200_0000 >= 0x100_0000 then 0xff else 0)
  {
    hide Operand, MovedOperand, Cong, FromInt, Value, NumberOf, Byte0, Byte1, Byte2, Byte3, Join, Opcode, Extreme, Num;
    var v, a := FromLE(s[1..5]), Wrap32(ip + 5);
    var r := Operand(v, FromInt(a), mask, encoding);
    ValueOfBytes(s[1..5]);
    OperandValue(v, a, mask, encoding);
    BytesWord(r);
    ValueOfBytes(ToLE(r));
    FullOrZero(Byte3(r));
  }

  lemma FullOrZero(b: bv8)
    ensures Num(b) == 0xff ==> b == 0xff
    ensures Num(b) == 0 ==> b == 0
  {
  }
}
