/** Arithmetic on one x86 branch operand. */
module BcjOperand {
  import opened Words

  // test86MSByte: 00 or FF
  predicate Extreme(b: bv8) {
    (b + 1) & 0xfe == 0
  }

  // The history masks under which an operand may be rewritten: no opcode, or exactly
  // one, was left alone in the three bytes before this one.
  type Lone = m: nat | m in {0, 1, 2, 4} witness 0

  function Flip8(v: bv32): bv32 { v ^ 0xff }
  function Flip16(v: bv32): bv32 { v ^ 0xffff }
  function Flip24(v: bv32): bv32 { v ^ 0xff_ffff }

  // byte(v >> sh) with sh = (mask & 6) << 2
  function GuardByte(v: bv32, mask: Lone): bv8 {
    if mask <= 1 then Byte0(v) else if mask == 2 then Byte1(v) else Byte2(v)
  }

  // v ^ ((0x100 << sh) - 1)
  function FlipLow(v: bv32, mask: Lone): bv32 {
    if mask <= 1 then Flip8(v) else if mask == 2 then Flip16(v) else Flip24(v)
  }

  // The top byte becomes the sign of bit 24.
  function SignTop(v: bv32): bv32 {
    (v & 0x00ff_ffff) | ((0 - ((v >> 24) & 1)) << 24)
  }

  // The new value of a little-endian operand whose instruction ends at address cur.
  function Operand(v: bv32, cur: bv32, mask: Lone, encoding: bool): bv32 {
    var w := Step(v, cur, encoding);
    SignTop(if mask != 0 && Extreme(GuardByte(w, mask)) then Step(FlipLow(w, mask), cur, encoding) else w)
  }

  lemma OperandIs(v: bv32, cur: bv32, mask: Lone, encoding: bool)
    ensures var w := Step(v, cur, encoding);
            Operand(v, cur, mask, encoding)
            == SignTop(if mask != 0 && Extreme(GuardByte(w, mask)) then Step(FlipLow(w, mask), cur, encoding) else w)
  {
    hide Step, SignTop, Extreme, GuardByte, FlipLow;
  }

  // 0 - b & 1
  function Spread(b: bv8): bv8 {
    0 - (b & 1)
  }

  // On bytes.
  lemma SignTopBytes(v: bv32)
    ensures Byte0(SignTop(v)) == Byte0(v) && Byte1(SignTop(v)) == Byte1(v) && Byte2(SignTop(v)) == Byte2(v)
    ensures Byte3(SignTop(v)) == Spread(Byte3(v))
  {
  }

  // Only the low 25 bits carry information.
  lemma SignTopSame(v: bv32)
    ensures Low25(SignTop(v)) == Low25(v) && Extreme(Byte3(SignTop(v)))
  {
  }

  lemma SignTopIs(v: bv32)
    ensures SignTop(v) == (v & 0x00ff_ffff) | ((0 - ((v >> 24) & 1)) << 24)
  {
  }
  lemma SignBits(v: bv32, x: bv32)
    requires v >> 24 == 0 || v >> 24 == 0xff
    requires x & 0x01ff_ffff == v & 0x01ff_ffff
    ensures (x & 0x00ff_ffff) | ((0 - ((x >> 24) & 1)) << 24) == v
  {
  }
  lemma ExtremeIs(v: bv32)
    ensures Extreme(Byte3(v)) <==> v >> 24 == 0 || v >> 24 == 0xff
  {
  }
  lemma SignTopRestores(v: bv32, x: bv32)
    requires Extreme(Byte3(v)) && Low25(x) == Low25(v)
    ensures SignTop(x) == v
  {
    hide *;
    ExtremeIs(v);
    LowIs(x);
    LowIs(v);
    SignBits(v, x);
    SignTopIs(x);
  }

  // GuardByte and FlipLow look at the low 25 bits only.
  lemma BytesOfLow25(v: bv32)
    ensures Byte0(Low25(v)) == Byte0(v) && Byte1(Low25(v)) == Byte1(v) && Byte2(Low25(v)) == Byte2(v)
  {
  }
  lemma FlipsOfLow25(v: bv32)
    ensures Low25(Flip8(v)) == Flip8(Low25(v))
    ensures Low25(Flip16(v)) == Flip16(Low25(v))
    ensures Low25(Flip24(v)) == Flip24(Low25(v))
  {
  }
  lemma SameGuard(a: bv32, b: bv32, mask: Lone)
    requires Low25(a) == Low25(b)
    ensures GuardByte(a, mask) == GuardByte(b, mask) && Low25(FlipLow(a, mask)) == Low25(FlipLow(b, mask))
  {
    hide Byte0, Byte1, Byte2, Flip8, Flip16, Flip24, Low25;
    BytesOfLow25(a);
    BytesOfLow25(b);
    FlipsOfLow25(a);
    FlipsOfLow25(b);
  }

  // A byte is 00 or FF exactly when its complement is.
  function Not(b: bv8): bv8 { !b }

  lemma NotExtreme(b: bv8)
    ensures Extreme(Not(b)) <==> Extreme(b)
  {
  }

  lemma Twice8(w: bv32)
    ensures Flip8(Flip8(w)) == w && Byte0(Flip8(w)) == Not(Byte0(w))
  {
  }
  lemma Twice16(w: bv32)
    ensures Flip16(Flip16(w)) == w && Byte1(Flip16(w)) == Not(Byte1(w))
  {
  }
  lemma Twice24(w: bv32)
    ensures Flip24(Flip24(w)) == w && Byte2(Flip24(w)) == Not(Byte2(w))
  {
  }
  lemma FlipTwice(w: bv32, mask: Lone)
    ensures FlipLow(FlipLow(w, mask), mask) == w
    ensures GuardByte(FlipLow(w, mask), mask) == Not(GuardByte(w, mask))
  {
    hide Byte0, Byte1, Byte2, Flip8, Flip16, Flip24, Not;
    Twice8(w);
    Twice16(w);
    Twice24(w);
  }

  // Below the flipped width, flipping v + c and adding c again gives -1 - v, so the
  // guarded byte of v comes out complemented.
  function Neg(v: bv32): bv32 { -1 - v }
  function Low16(v: bv32): bv32 { v & 0xffff }
  function Low24(v: bv32): bv32 { v & 0xff_ffff }

  lemma NegPlus(v: bv32, c: bv32)
    ensures Neg(v + c) == -1 - (v + c)
  {
  }
  lemma PlusNeg(v: bv32, c: bv32)
    ensures Plus(-1 - (v + c), c) == Neg(v)
  {
  }
  // Addition does not look above the bits of its result.
  lemma Low16Is(x: bv32)
    ensures Low16(x) == x & 0xffff
  {
  }
  lemma Low16Plus(a: bv32, p: bv32)
    ensures Low16(Plus(a, p)) == (a + p) & 0xffff
  {
  }
  lemma Low16PlusMasked(a: bv32, p: bv32)
    ensures Low16(Plus(a & 0xffff, p)) == (a + p) & 0xffff
  {
  }
  lemma PlusLow16(x: bv32, y: bv32, c: bv32)
    requires Low16(x) == Low16(y)
    ensures Low16(Plus(x, c)) == Low16(Plus(y, c))
  {
    hide *;
    Low16Is(x);
    Low16Is(y);
    Low16Plus(x, c);
    Low16Plus(y, c);
    Low16PlusMasked(x, c);
    Low16PlusMasked(y, c);
  }
  lemma Low24Is(x: bv32)
    ensures Low24(x) == x & 0xff_ffff
  {
  }
  lemma Low24Plus(a: bv32, p: bv32)
    ensures Low24(Plus(a, p)) == (a + p) & 0xff_ffff
  {
  }
  lemma Low24PlusMasked(a: bv32, p: bv32)
    ensures Low24(Plus(a & 0xff_ffff, p)) == (a + p) & 0xff_ffff
  {
  }
  lemma PlusLow24(x: bv32, y: bv32, c: bv32)
    requires Low24(x) == Low24(y)
    ensures Low24(Plus(x, c)) == Low24(Plus(y, c))
  {
    hide *;
    Low24Is(x);
    Low24Is(y);
    Low24Plus(x, c);
    Low24Plus(y, c);
    Low24PlusMasked(x, c);
    Low24PlusMasked(y, c);
  }
  function Inv(w: bv32): bv32 { !w }

  lemma InvIsNeg(w: bv32)
    ensures Inv(w) == Neg(w)
  {
  }
  lemma FlipInv(w: bv32)
    ensures Low16(Flip16(w)) == Low16(Inv(w)) && Low24(Flip24(w)) == Low24(Inv(w))
  {
  }
  lemma NegByte1(x: bv32, v: bv32)
    requires Low16(x) == Low16(Neg(v))
    ensures Byte1(x) == Not(Byte1(v))
  {
  }
  lemma NegByte2(x: bv32, v: bv32)
    requires Low24(x) == Low24(Neg(v))
    ensures Byte2(x) == Not(Byte2(v))
  {
  }

  lemma AddFlip8(v: bv32, c: bv32)
    ensures Byte0(Plus(Flip8(Plus(v, c)), c)) == Not(Byte0(v))
  {
  }
  lemma AddFlip16(v: bv32, c: bv32)
    ensures Byte1(Plus(Flip16(Plus(v, c)), c)) == Not(Byte1(v))
  {
    hide *;
    var w := Plus(v, c);
    InvIsNeg(w);
    FlipInv(w);
    PlusLow16(Flip16(w), Neg(w), c);
    PlusIs(v, c);
    NegPlus(v, c);
    PlusNeg(v, c);
    NegByte1(Plus(Flip16(w), c), v);
  }
  lemma AddFlip24(v: bv32, c: bv32)
    ensures Byte2(Plus(Flip24(Plus(v, c)), c)) == Not(Byte2(v))
  {
    hide *;
    var w := Plus(v, c);
    InvIsNeg(w);
    FlipInv(w);
    PlusLow24(Flip24(w), Neg(w), c);
    PlusIs(v, c);
    NegPlus(v, c);
    PlusNeg(v, c);
    NegByte2(Plus(Flip24(w), c), v);
  }
  lemma AddFlip(v: bv32, c: bv32, mask: Lone)
    ensures GuardByte(Plus(FlipLow(Plus(v, c), mask), c), mask) == Not(GuardByte(v, mask))
  {
    hide Byte0, Byte1, Byte2, Flip8, Flip16, Flip24, Not, Plus;
    AddFlip8(v, c);
    AddFlip16(v, c);
    AddFlip24(v, c);
  }

  // An operand that may be rewritten is still one that may be rewritten after encoding,
  // and decoding it gives the operand back.
  lemma OperandInverts(v: bv32, cur: bv32, mask: Lone)
    requires Extreme(Byte3(v))
    requires mask != 0 ==> !Extreme(GuardByte(v, mask))
    ensures var e := Operand(v, cur, mask, true);
            && Extreme(Byte3(e))
            && (mask != 0 ==> !Extreme(GuardByte(e, mask)))
            && Operand(e, cur, mask, false) == v
  {
    hide Plus, Minus, SignTop, FlipLow, GuardByte, Extreme, Byte3, Low25, Not;
    var w := Plus(v, cur);
    var flipped := mask != 0 && Extreme(GuardByte(w, mask));
    var x := if flipped then Plus(FlipLow(w, mask), cur) else w;
    var e := SignTop(x);
    SignTopSame(x);
    SameGuard(e, x, mask);
    MinusLow25(e, x, cur);
    MinusPlus(v, cur);
    if flipped {
      AddFlip(v, cur, mask);
      NotExtreme(GuardByte(v, mask));
      MinusPlus(FlipLow(w, mask), cur);
      FlipTwice(w, mask);
      NotExtreme(GuardByte(w, mask));
      SameGuard(Minus(e, cur), FlipLow(w, mask), mask);
      MinusLow25(FlipLow(Minus(e, cur), mask), w, cur);
      SignTopRestores(v, Minus(FlipLow(Minus(e, cur), mask), cur));
    } else {
      SameGuard(Minus(e, cur), v, mask);
      SignTopRestores(v, Minus(e, cur));
    }
  }
}
