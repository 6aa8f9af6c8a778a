/** Where a branch goes: what the four fixed-width filters do to it, in numbers. */
module BranchTargets {
  import opened Basics
  import opened Words
  import opened WordValues
  import opened BranchWord

  // Addresses whose number is a multiple of four have their low bits clear.
  lemma AddrAligned(ip: u32)
    requires ip % 4 == 0
    ensures Aligned(FromInt(ip))
  {
    hide *;
    var p := FromInt(ip);
    ValueOfInt(ip);
    Shr2Value(p);
    IntOfValue(p & 3);
    ZeroWord();
    AlignedIs(p);
  }

  // --- 24, 26 and 26 bits: ARM, PPC, ARM64 ---

  lemma BlKeeps(x: bv32)
    ensures Same24(BlFix(x), x)
  {
  }
  lemma BKeeps(x: bv32)
    ensures Same26(BFix(x), x)
  {
  }
  lemma Bl64Keeps(x: bv32)
    ensures Same26(Bl64Fix(x), x)
  {
  }

  // A BL of ARM is moved by the number of words to the address behind the next instruction.
  lemma BlTarget(v: bv32, a: u32, encoding: bool)
    requires IsBl(v)
    ensures var r := Word(Arm, v, FromInt(a), encoding);
            IsBl(r) && Cong(Value(r), Moved(Value(v), a / 4, encoding), 0x100_0000)
  {
    hide Value, Cong, Moved, FromInt, IsBl, BlFix, Step, Shr2;
    var p := FromInt(a);
    var x := Step(v, Shr2(p), encoding);
    BlFixMatches(x);
    BlKeeps(x);
    Same24Value(BlFix(x), x);
    StepCong(v, Shr2(p), encoding, 0x100, 0x100_0000);
    Shr2Value(p);
    ValueOfInt(a);
    CongThrough(Value(BlFix(x)), Value(x), Moved(Value(v), a / 4, encoding), 0x100_0000);
  }

  // A b of PPC, by its address; its opcode and its link bit stay.
  lemma BTarget(v: bv32, a: u32, encoding: bool)
    requires IsB(v) && a % 4 == 0
    ensures var r := Word(Ppc, v, FromInt(a), encoding);
            IsB(r) && Cong(Value(r), Moved(Value(v), a, encoding), 0x400_0000)
  {
    hide Value, Cong, Moved, FromInt, IsB, BFix, Step, Aligned, Plus, Minus;
    var p := FromInt(a);
    var x := Step(v, p, encoding);
    AddrAligned(a);
    WordMatches(Ppc, v, p, encoding);
    BKeeps(x);
    Same26Value(BFix(x), x);
    StepCong(v, p, encoding, 0x40, 0x400_0000);
    ValueOfInt(a);
    CongThrough(Value(BFix(x)), Value(x), Moved(Value(v), a, encoding), 0x400_0000);
  }

  // A BL of ARM64, by the number of words to it.
  lemma Bl64Target(v: bv32, a: u32, encoding: bool)
    requires IsBl64(v)
    ensures var r := Word(Arm64, v, FromInt(a), encoding);
            IsBl64(r) && Cong(Value(r), Moved(Value(v), a / 4, encoding), 0x400_0000)
  {
    hide Value, Cong, Moved, FromInt, IsBl64, Bl64Fix, Step, Shr2, AdrpFix, IsAdrp, Biased, Page, PageOf;
    var p := FromInt(a);
    var x := Step(v, Shr2(p), encoding);
    Bl64FixMatches(x);
    Bl64Keeps(x);
    Same26Value(Bl64Fix(x), x);
    StepCong(v, Shr2(p), encoding, 0x40, 0x400_0000);
    Shr2Value(p);
    ValueOfInt(a);
    CongThrough(Value(Bl64Fix(x)), Value(x), Moved(Value(v), a / 4, encoding), 0x400_0000);
  }

  // --- SPARC ---

  lemma Same25Is(x: bv32, y: bv32)
    ensures Same25(x, y) <==> x & 0x01ff_ffff == y & 0x01ff_ffff
  {
  }
  lemma CallKeeps(x: bv32, r: bv32)
    requires Low25(Shl2(r)) == Low25(x)
    ensures Same25(Shl2(r), x)
  {
    hide *;
    LowIs(Shl2(r));
    LowIs(x);
    Same25Is(Shl2(r), x);
  }

  // A call of SPARC counts words: four times it moves by its address, modulo 2^25. What is above is the
  // opcode and the sign.
  lemma CallTarget(v: bv32, a: u32, encoding: bool)
    requires IsCall(v) && a % 4 == 0
    ensures var r := Word(Sparc, v, FromInt(a), encoding);
            IsCall(r) && Cong(4 * Value(r), Moved(4 * Value(v), a, encoding), 0x200_0000)
  {
    hide Value, Cong, Moved, FromInt, IsCall, CallFix, Step, Shl2, Aligned, Plus, Minus, Low25, Scaled;
    var p := FromInt(a);
    var x := Step(Shl2(v), p, encoding);
    var r := CallFix(x);
    AddrAligned(a);
    ShlAligned(v);
    StepAligned(Shl2(v), p, encoding);
    CallFixMatches(x);
    CallFixLow(x);
    CallKeeps(x, r);
    Same25Value(Shl2(r), x);
    StepCong(Shl2(v), p, encoding, 0x80, 0x200_0000);
    ValueOfInt(a);
    Fourfold(v);
    Fourfold(r);
    CongMoved(Value(Shl2(v)), 4 * Value(v), a, encoding, 0x200_0000);
    CongThrough(4 * Value(r), Value(Shl2(r)), Value(x), 0x200_0000);
    CongThrough(4 * Value(r), Value(x), Moved(Value(Shl2(v)), a, encoding), 0x200_0000);
    CongThrough(4 * Value(r), Moved(Value(Shl2(v)), a, encoding), Moved(4 * Value(v), a, encoding), 0x200_0000);
  }

  lemma Fourfold(v: bv32)
    ensures Cong(Value(Shl2(v)), 4 * Value(v), 0x200_0000) && Cong(4 * Value(v), Value(Shl2(v)), 0x200_0000)
  {
    hide *;
    Shl2Scales(v);
    ScaledIs(Value(Shl2(v)), Value(v), 4);
    CongLeft(4 * Value(v), 0x80 * 0x200_0000);
    CongDown(Value(Shl2(v)), 4 * Value(v), 0x80, 0x200_0000);
    CongThrough(4 * Value(v), 4 * Value(v), Value(Shl2(v)), 0x200_0000);
  }

  lemma StepAligned(x: bv32, y: bv32, encoding: bool)
    requires Aligned(x) && Aligned(y)
    ensures Aligned(Step(x, y, encoding))
  {
  }

  // --- ADRP of ARM64 ---

  // The page displacement: 19 bits in the middle of the word over two at its top.
  function Imm(v: bv32): bv32 { (((v >> 5) & 0x7ffff) << 2) | ((v >> 29) & 3) }

  // As a number of 21 bits with a sign, it has 18.
  predicate Reach(n: int) { 0 <= n < 0x2_0000 || 0x1e_0000 <= n < 0x20_0000 }

  function Opcode(v: bv32): bv32 { v & 0x9f00_0000 }

  lemma AdrpBits(v: bv32)
    ensures IsAdrp(v) <==> Opcode(v) == 0x9000_0000 && (Imm(v) < 0x2_0000 || Imm(v) >= 0x1e_0000)
  {
  }

  lemma ImmBytes(i: bv32)
    ensures i < 0x2_0000 <==> Byte3(i) == 0 && Byte2(i) < 2
    ensures i >= 0x1e_0000 <==> Byte3(i) != 0 || Byte2(i) >= 0x1e
  {
  }
  lemma ImmSmall(v: bv32)
    ensures Byte3(Imm(v)) == 0 && Byte2(Imm(v)) < 0x20
  {
  }
  lemma MoreSmallBytes()
    ensures Num(0) == 0 && Num(2) == 2 && Num(0x1e) == 0x1e && Num(0x20) == 0x20
  {
  }

  lemma ReachIs(v: bv32)
    ensures Value(Imm(v)) < 0x20_0000
    ensures Reach(Value(Imm(v))) <==> Imm(v) < 0x2_0000 || Imm(v) >= 0x1e_0000
  {
    hide Num, Byte0, Byte1, Byte2, Byte3, Imm;
    var i := Imm(v);
    ImmSmall(v);
    ImmBytes(i);
    ByteLess(Byte2(i), 2);
    ByteLess(Byte2(i), 0x1e);
    ByteLess(Byte2(i), 0x20);
    MoreSmallBytes();
  }

  // The words that are converted: an ADRP whose displacement has 18 bits.
  lemma AdrpMeans(v: bv32)
    ensures IsAdrp(v) <==> Opcode(v) == 0x9000_0000 && Reach(Value(Imm(v)))
  {
    hide *;
    AdrpBits(v);
    ReachIs(v);
  }

  lemma PageIs(v: bv32)
    requires IsAdrp(v)
    ensures Same21(Page(Biased(v)), Plus(Shl3(Imm(v)), 0x10_0000))
  {
    hide *;
    PageLow(v);
    FlagLow(Shl3(Imm(v)));
    ImmLow(v);
    Same21Of(Page(Biased(v)), Plus(Shl3(Imm(v)), 0x10_0000));
  }

  // Of the low 21 bits, in which a bias of 2^20 only flips one.
  function Flip20(x: bv32): bv32 { x ^ 0x10_0000 }
  function Bits21(v: bv32): bv32 { (v & 0x1f_ffe0) | ((v >> 26) & 0x18) }

  lemma AdrpRaw(v: bv32)
    requires IsAdrp(v)
    ensures (v - 0x9000_0000) & 0x9f00_0000 == 0 && (v - 0x9000_0000 + 0x10_0000) & 0xe0_0000 == 0
  {
  }
  lemma PageBits(v: bv32)
    ensures Low21(Page(Biased(v)))
            == (((v - 0x9000_0000 + 0x10_0000) & 0xffff_ffe0) | ((v - 0x9000_0000 + 0x10_0000) >> 26)) & 0x1f_ffff
  {
  }
  lemma PageFlip(v: bv32)
    ensures Flip20(Bits21(v)) == ((v & 0x1f_ffe0) | ((v >> 26) & 0x18)) ^ 0x10_0000
  {
  }
  lemma PageRaw(v: bv32)
    requires (v - 0x9000_0000) & 0x9f00_0000 == 0 && (v - 0x9000_0000 + 0x10_0000) & 0xe0_0000 == 0
    ensures (((v - 0x9000_0000 + 0x10_0000) & 0xffff_ffe0) | ((v - 0x9000_0000 + 0x10_0000) >> 26)) & 0x1f_ffff
            == ((v & 0x1f_ffe0) | ((v >> 26) & 0x18)) ^ 0x10_0000
  {
  }
  lemma PageLow(v: bv32)
    requires IsAdrp(v)
    ensures Low21(Page(Biased(v))) == Flip20(Bits21(v))
  {
    hide *;
    AdrpRaw(v);
    PageBits(v);
    PageFlip(v);
    PageRaw(v);
  }
  lemma ImmLow(v: bv32)
    ensures Low21(Shl3(Imm(v))) == Bits21(v)
  {
  }
  lemma FlagSum(i: bv32)
    ensures Low21(Plus(i, 0x10_0000)) == (i + 0x10_0000) & 0x1f_ffff
  {
  }
  lemma FlagFlip(i: bv32)
    ensures Flip20(Low21(i)) == (i & 0x1f_ffff) ^ 0x10_0000
  {
  }
  lemma FlagRaw(i: bv32)
    ensures (i + 0x10_0000) & 0x1f_ffff == (i & 0x1f_ffff) ^ 0x10_0000
  {
  }
  lemma FlagLow(i: bv32)
    ensures Low21(Plus(i, 0x10_0000)) == Flip20(Low21(i))
  {
    hide *;
    FlagSum(i);
    FlagFlip(i);
    FlagRaw(i);
  }
  lemma PageOfIs(p: bv32)
    ensures PageOf(p) == Shl3(p >> 12)
  {
  }
  lemma Flag()
    ensures Value(0x10_0000) == 0x10_0000
  {
  }
  lemma Same21Of(x: bv32, y: bv32)
    requires Low21(x) == Low21(y)
    ensures Same21(x, y)
  {
  }

  // What the filter works on is eight times the displacement, and a bias.
  lemma PageValue(v: bv32)
    requires IsAdrp(v)
    ensures Cong(Value(Page(Biased(v))), 8 * Value(Imm(v)) + 0x10_0000, 0x20_0000)
  {
    hide *;
    PageIs(v);
    Same21Value(Page(Biased(v)), Plus(Shl3(Imm(v)), 0x10_0000));
    PlusValue(Shl3(Imm(v)), 0x10_0000);
    Flag();
    Shl3Scales(Imm(v));
    BiasedCong(Value(Plus(Shl3(Imm(v)), 0x10_0000)), Value(Shl3(Imm(v))), Value(Imm(v)));
    CongThrough(Value(Page(Biased(v))), Value(Plus(Shl3(Imm(v)), 0x10_0000)), 8 * Value(Imm(v)) + 0x10_0000, 0x20_0000);
  }

  lemma BiasedCong(x: int, m: int, i: int)
    requires x == (m + 0x10_0000) % 0x1_0000_0000 && Scaled(m, i, 8)
    ensures Cong(x, 8 * i + 0x10_0000, 0x20_0000)
  {
    hide *;
    ScaledIs(m, i, 8);
    CongLeft(8 * i, 0x800 * 0x20_0000);
    CongDown(m, 8 * i, 0x800, 0x20_0000);
    CongAdd(m, 8 * i, 0x10_0000, 0x20_0000);
    CongLeft(m + 0x10_0000, 0x800 * 0x20_0000);
    CongDown(x, m + 0x10_0000, 0x800, 0x20_0000);
    CongThrough(x, m + 0x10_0000, 8 * i + 0x10_0000, 0x20_0000);
  }

  lemma PageOfValue(a: u32)
    ensures Value(PageOf(FromInt(a))) == 8 * (a / 0x1000)
  {
    hide *;
    var p := FromInt(a);
    PageOfIs(p);
    ValueOfInt(a);
    Shr12Value(p);
    Shl3Scales(p >> 12);
    EightPages(Value(Shl3(p >> 12)), a);
  }

  lemma EightPages(m: int, a: u32)
    requires Scaled(m, a / 0x1000, 8)
    ensures m == 8 * (a / 0x1000)
  {
  }

  // The displacement moves by the number of pages to the instruction, modulo 2^18, and again has 18 bits;
  // opcode and register stay.
  lemma AdrpTarget(v: bv32, a: u32, encoding: bool)
    requires IsAdrp(v)
    ensures var r := Word(Arm64, v, FromInt(a), encoding);
            && Opcode(r) == 0x9000_0000 && Register(r) == Register(v) && Reach(Value(Imm(r)))
            && Cong(Value(Imm(r)), Moved(Value(Imm(v)), a / 0x1000, encoding), 0x4_0000)
  {
    hide *;
    var p := FromInt(a);
    AdrpNotBl(v);
    AdrpWord(v, p, encoding);
    var z := Step(Page(Biased(v)), PageOf(p), encoding);
    var r := AdrpFix(Biased(v), z);
    AdrpPage(v);
    StepKept(Page(Biased(v)), p, encoding);
    AdrpFixed(Biased(v), z);
    AdrpMeans(r);
    BiasedRegister(v);
    BiasedRegister(r);
    Same21Of(Page(Biased(r)), z);
    Same21Value(Page(Biased(r)), z);
    StepCong(Page(Biased(v)), PageOf(p), encoding, 0x800, 0x20_0000);
    PageValue(v);
    PageValue(r);
    PageOfValue(a);
    EightTimes(Value(Imm(r)), Value(Page(Biased(r))), Value(z), Value(Page(Biased(v))), Value(Imm(v)), a / 0x1000,
      encoding);
  }

  lemma AdrpWord(v: bv32, p: bv32, encoding: bool)
    requires IsAdrp(v) && !IsBl64(v)
    ensures Word(Arm64, v, p, encoding) == AdrpFix(Biased(v), Step(Page(Biased(v)), PageOf(p), encoding))
  {
    hide IsAdrp, IsBl64, AdrpFix, Biased, Page, PageOf, Step;
  }
  lemma StepKept(z: bv32, p: bv32, encoding: bool)
    requires Low3(z)
    ensures Low3(Step(z, PageOf(p), encoding))
  {
    hide Low3, PageOf, Plus, Minus;
    LowKept(z, p);
  }
  lemma BiasedRegister(v: bv32)
    ensures Register(Biased(v)) == Register(v)
  {
  }

  lemma EightTimes(ir: int, pr: int, z: int, pv: int, iv: int, page: int, encoding: bool)
    requires Cong(pr, 8 * ir + 0x10_0000, 0x20_0000) && Cong(pv, 8 * iv + 0x10_0000, 0x20_0000)
    requires Cong(pr, z, 0x20_0000) && Cong(z, Moved(pv, 8 * page, encoding), 0x20_0000)
    ensures Cong(ir, Moved(iv, page, encoding), 0x4_0000)
  {
    hide Cong, Moved;
    var m := Moved(iv, page, encoding);
    MovedEight(iv, page, encoding);
    CongMoved(pv, 8 * iv + 0x10_0000, 8 * page, encoding, 0x20_0000);
    CongThrough(z, Moved(pv, 8 * page, encoding), 8 * m + 0x10_0000, 0x20_0000);
    CongBack(pr, 8 * ir + 0x10_0000, 0x20_0000);
    CongThrough(8 * ir + 0x10_0000, pr, z, 0x20_0000);
    CongThrough(8 * ir + 0x10_0000, z, 8 * m + 0x10_0000, 0x20_0000);
    CongAdd(8 * ir + 0x10_0000, 8 * m + 0x10_0000, -0x10_0000, 0x20_0000);
    CongScaled(ir, m, 8, 0x4_0000);
  }

  lemma CongBack(x: int, y: int, p: int)
    requires Cong(x, y, p)
    ensures Cong(y, x, p)
  {
  }

  lemma MovedEight(i: int, page: int, encoding: bool)
    ensures Moved(8 * i + 0x10_0000, 8 * page, encoding) == 8 * Moved(i, page, encoding) + 0x10_0000
  {
  }

  // So the page that is meant is exact, as far as 21 bits go, if and only if it can be reached.
  lemma AdrpExact(v: bv32, a: u32, encoding: bool)
    requires IsAdrp(v)
    ensures var r := Word(Arm64, v, FromInt(a), encoding);
            var meant := Moved(Value(Imm(v)), a / 0x1000, encoding) % 0x20_0000;
            Value(Imm(r)) == meant <==> Reach(meant)
  {
    hide *;
    AdrpTarget(v, a, encoding);
    Exact(Value(Imm(Word(Arm64, v, FromInt(a), encoding))), Moved(Value(Imm(v)), a / 0x1000, encoding));
  }

  lemma Exact(n: int, m: int)
    requires Reach(n) && Cong(n, m, 0x4_0000)
    ensures n == m % 0x20_0000 <==> Reach(m % 0x20_0000)
  {
    hide Cong;
    var k := m % 0x20_0000;
    CongLeft(m, 8 * 0x4_0000);
    CongDown(k, m, 8, 0x4_0000);
    CongThrough(n, m, k, 0x4_0000);
    if Reach(k) {
      var q := CongHas(n, k, 0x4_0000);
      Nearest(n, k, q);
    }
  }

  lemma Nearest(n: int, k: int, q: int)
    requires Reach(n) && Reach(k) && n == k + 0x4_0000 * q
    ensures n == k
  {
  }

  // It cannot be for page 0 at the start of page 0x20001.
  lemma OutOfReach()
    ensures IsAdrp(0x9000_0000) && !Reach(Moved(Value(Imm(0x9000_0000)), 0x2000_1000 / 0x1000, false) % 0x20_0000)
  {
    hide Value;
    assert Imm(0x9000_0000) == 0;
    ZeroValue();
  }

  lemma ZeroValue()
    ensures Value(0) == 0
  {
  }
}
