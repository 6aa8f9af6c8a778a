/** One instruction word of each fixed-width branch filter. Addresses are multiples of 4. */
module BranchWord {
  import opened Basics
  import opened Words

  datatype Arch = Arm | Arm64 | Ppc | Sparc

  predicate Aligned(p: bv32) { p & 3 == 0 }

  lemma AlignedIs(p: bv32)
    ensures Aligned(p) <==> p & 3 == 0
  {
  }
  lemma ShlAligned(k: bv32)
    ensures Aligned(Shl2(k))
  {
  }

  // --- ARM: BL with a 24-bit word displacement ---

  predicate IsBl(v: bv32) { Byte3(v) == 0xeb }
  function BlFix(x: bv32): bv32 { (x & 0x00ff_ffff) | 0xeb00_0000 }

  lemma BlFixMatches(x: bv32)
    ensures IsBl(BlFix(x))
  {
  }
  lemma BlUndo(v: bv32, p: bv32)
    requires IsBl(v)
    ensures BlFix((((v + p) & 0x00ff_ffff) | 0xeb00_0000) - p) == v
  {
  }
  lemma BlFixIs(v: bv32, p: bv32)
    ensures BlFix(Plus(v, p)) == ((v + p) & 0x00ff_ffff) | 0xeb00_0000
  {
  }
  lemma BlInverts(v: bv32, p: bv32)
    requires IsBl(v)
    ensures BlFix(Minus(BlFix(Plus(v, p)), p)) == v
  {
    hide *;
    BlFixIs(v, p);
    MinusIs(((v + p) & 0x00ff_ffff) | 0xeb00_0000, p);
    BlUndo(v, p);
  }

  // --- PPC: b with AA clear and LK set; the low two bits of the address are clear ---

  predicate IsB(v: bv32) { Byte3(v) & 0xfc == 0x48 && Byte0(v) & 3 == 1 }
  function BFix(x: bv32): bv32 { (x & 0x03ff_ffff) | 0x4800_0000 }

  lemma BBits(v: bv32)
    ensures IsB(v) <==> v >> 26 == 0x12 && v & 3 == 1
  {
  }
  lemma BUndo(v: bv32, p: bv32)
    requires p & 3 == 0 && v >> 26 == 0x12 && v & 3 == 1
    ensures BFix((((v + p) & 0x03ff_ffff) | 0x4800_0000) - p) == v
  {
  }
  lemma BMatches(v: bv32, p: bv32)
    requires p & 3 == 0 && v & 3 == 1
    ensures IsB(BFix(v + p)) && IsB(BFix(v - p))
  {
  }
  lemma BFixIs(v: bv32, p: bv32)
    ensures BFix(Plus(v, p)) == ((v + p) & 0x03ff_ffff) | 0x4800_0000
  {
  }
  lemma BInverts(v: bv32, p: bv32)
    requires IsB(v) && Aligned(p)
    ensures BFix(Minus(BFix(Plus(v, p)), p)) == v
  {
    hide *;
    BBits(v);
    AlignedIs(p);
    BFixIs(v, p);
    MinusIs(((v + p) & 0x03ff_ffff) | 0x4800_0000, p);
    BUndo(v, p);
  }
  lemma BFixMatches(v: bv32, p: bv32)
    requires IsB(v) && Aligned(p)
    ensures IsB(BFix(Plus(v, p))) && IsB(BFix(Minus(v, p)))
  {
    hide *;
    BBits(v);
    AlignedIs(p);
    PlusIs(v, p);
    MinusIs(v, p);
    BMatches(v, p);
  }

  // --- SPARC: call with a displacement sign-extended from 23 bits ---

  predicate IsCall(v: bv32) {
    (Byte3(v) == 0x40 && Byte2(v) & 0xc0 == 0) || (Byte3(v) == 0x7f && Byte2(v) >= 0xc0)
  }
  function CallFix(x: bv32): bv32 { ((((x & 0x01ff_ffff) - 0x0100_0000) ^ 0xff00_0000) >> 2) | 0x4000_0000 }

  lemma CallFixMatches(x: bv32)
    ensures IsCall(CallFix(x))
  {
  }
  lemma CallFixIs(x: bv32)
    ensures CallFix(x) == ((((x & 0x01ff_ffff) - 0x0100_0000) ^ 0xff00_0000) >> 2) | 0x4000_0000
  {
  }
  lemma ShlCallFix(x: bv32)
    requires x & 3 == 0
    ensures Low25(Shl2(((((x & 0x01ff_ffff) - 0x0100_0000) ^ 0xff00_0000) >> 2) | 0x4000_0000)) == x & 0x01ff_ffff
  {
  }
  lemma CallFixLow(x: bv32)
    requires Aligned(x)
    ensures Low25(Shl2(CallFix(x))) == Low25(x)
  {
    hide *;
    AlignedIs(x);
    CallFixIs(x);
    ShlCallFix(x);
    LowIs(x);
  }
  lemma CallBits(v: bv32)
    ensures IsCall(v) <==> v >> 22 == 0x100 || v >> 22 == 0x1ff
  {
  }
  lemma CallRestoresBits(x: bv32, v: bv32)
    requires v >> 22 == 0x100 || v >> 22 == 0x1ff
    requires x & 0x01ff_ffff == (v << 2) & 0x01ff_ffff
    ensures ((((x & 0x01ff_ffff) - 0x0100_0000) ^ 0xff00_0000) >> 2) | 0x4000_0000 == v
  {
  }
  lemma ShlLow(v: bv32)
    ensures Low25(Shl2(v)) == (v << 2) & 0x01ff_ffff
  {
  }
  lemma CallRestores(x: bv32, v: bv32)
    requires IsCall(v) && Low25(x) == Low25(Shl2(v))
    ensures CallFix(x) == v
  {
    hide *;
    CallBits(v);
    LowIs(x);
    ShlLow(v);
    CallFixIs(x);
    CallRestoresBits(x, v);
  }
  lemma AlignedSum(x: bv32, y: bv32)
    requires Aligned(x) && Aligned(y)
    ensures Aligned(Plus(x, y))
  {
  }
  lemma CallInverts(v: bv32, p: bv32)
    requires IsCall(v) && Aligned(p)
    ensures CallFix(Minus(Shl2(CallFix(Plus(Shl2(v), p))), p)) == v
  {
    hide *;
    var x := Plus(Shl2(v), p);
    var y := Shl2(CallFix(x));
    ShlAligned(v);
    AlignedSum(Shl2(v), p);
    CallFixLow(x);
    MinusLow25(y, x, p);
    MinusPlus(Shl2(v), p);
    CallRestores(Minus(y, p), v);
  }

  // --- ARM64: BL with a 26-bit word displacement, and ADRP ---

  predicate IsBl64(v: bv32) { (v - 0x9400_0000) & 0xfc00_0000 == 0 }
  function Bl64Fix(x: bv32): bv32 { (x & 0x03ff_ffff) | 0x9400_0000 }

  lemma Bl64FixMatches(x: bv32)
    ensures IsBl64(Bl64Fix(x))
  {
  }
  lemma Bl64Is(v: bv32)
    ensures IsBl64(v) <==> v >> 26 == 0x25
  {
  }
  lemma Bl64Undo(v: bv32, p: bv32)
    requires v >> 26 == 0x25
    ensures Bl64Fix((((v + p) & 0x03ff_ffff) | 0x9400_0000) - p) == v
  {
  }
  lemma Bl64FixIs(v: bv32, p: bv32)
    ensures Bl64Fix(Plus(v, p)) == ((v + p) & 0x03ff_ffff) | 0x9400_0000
  {
  }
  lemma Bl64Inverts(v: bv32, p: bv32)
    requires IsBl64(v)
    ensures Bl64Fix(Minus(Bl64Fix(Plus(v, p)), p)) == v
  {
    hide *;
    Bl64Is(v);
    Bl64FixIs(v, p);
    MinusIs(((v + p) & 0x03ff_ffff) | 0x9400_0000, p);
    Bl64Undo(v, p);
  }

  // v - 0x90000000 + flag, where flag is 1 << 20
  function Biased(v: bv32): bv32 { v - 0x9000_0000 + 0x10_0000 }
  predicate IsAdrp(v: bv32) { (v - 0x9000_0000) & 0x9f00_0000 == 0 && (v - 0x9000_0000 + 0x10_0000) & 0xe0_0000 == 0 }
  // The page displacement, shifted left by 3.
  function Page(b: bv32): bv32 { (b & 0xffff_ffe0) | (b >> 26) }
  function AdrpFix(b: bv32, z: bv32): bv32 {
    (b & 0x1f) | 0x9000_0000 | (z << 26) | (0x00ff_ffe0 & ((z & 0x1f_ffff) - 0x10_0000))
  }
  // (ip >> 9) & ^7
  function PageOf(a: bv32): bv32 { (a >> 9) & 0xffff_fff8 }
  predicate Low3(z: bv32) { z & 7 == 0 }

  lemma Low3Is(z: bv32)
    ensures Low3(z) <==> z & 7 == 0
  {
  }
  lemma AdrpFixIs(b: bv32, z: bv32)
    ensures AdrpFix(b, z) == (b & 0x1f) | 0x9000_0000 | (z << 26) | (0x00ff_ffe0 & ((z & 0x1f_ffff) - 0x10_0000))
  {
  }
  // What the fix leaves: a match, its page, and its register.
  lemma FixedAdrp(b: bv32, z: bv32)
    requires z & 7 == 0
    ensures IsAdrp((b & 0x1f) | 0x9000_0000 | (z << 26) | (0x00ff_ffe0 & ((z & 0x1f_ffff) - 0x10_0000)))
  {
  }
  lemma FixedPage(b: bv32, z: bv32)
    requires z & 7 == 0
    ensures Low21(Page(Biased((b & 0x1f) | 0x9000_0000 | (z << 26) | (0x00ff_ffe0 & ((z & 0x1f_ffff) - 0x10_0000)))))
            == z & 0x1f_ffff
  {
  }
  lemma FixedRegister(b: bv32, z: bv32)
    requires z & 7 == 0
    ensures Register(Biased((b & 0x1f) | 0x9000_0000 | (z << 26) | (0x00ff_ffe0 & ((z & 0x1f_ffff) - 0x10_0000))))
            == b & 0x1f
  {
  }
  function Register(b: bv32): bv32 { b & 0x1f }

  lemma RegisterIs(b: bv32)
    ensures Register(b) == b & 0x1f
  {
  }
  lemma AdrpFixed(b: bv32, z: bv32)
    requires Low3(z)
    ensures var e := AdrpFix(b, z);
            IsAdrp(e) && Low21(Page(Biased(e))) == Low21(z) && Register(Biased(e)) == Register(b)
  {
    hide *;
    Low3Is(z);
    AdrpFixIs(b, z);
    FixedAdrp(b, z);
    FixedPage(b, z);
    FixedRegister(b, z);
    LowIs(z);
    RegisterIs(b);
  }
  lemma AdrpPage(v: bv32)
    requires IsAdrp(v)
    ensures Low3(Page(Biased(v)))
  {
  }
  lemma PageOfLow(z: bv32, a: bv32)
    requires z & 7 == 0
    ensures Low3(z + PageOf(a)) && Low3(z - PageOf(a))
  {
  }
  lemma LowKept(z: bv32, a: bv32)
    requires Low3(z)
    ensures Low3(Plus(z, PageOf(a))) && Low3(Minus(z, PageOf(a)))
  {
    hide *;
    Low3Is(z);
    PlusIs(z, PageOf(a));
    MinusIs(z, PageOf(a));
    PageOfLow(z, a);
  }
  // The same in terms of the biased word.
  predicate AdrpBits(b: bv32) { (b - 0x10_0000) & 0x9f00_0000 == 0 && b & 0xe0_0000 == 0 }
  function Unbiased(b: bv32): bv32 { b + 0x8ff0_0000 }

  lemma AdrpBiased(v: bv32)
    ensures IsAdrp(v) ==> AdrpBits(Biased(v))
    ensures Unbiased(Biased(v)) == v
  {
  }
  lemma FixUnbiased(b: bv32, c: bv32, z: bv32)
    requires z & 7 == 0
    requires (b - 0x10_0000) & 0x9f00_0000 == 0 && b & 0xe0_0000 == 0
    requires z & 0x1f_ffff == ((b & 0xffff_ffe0) | (b >> 26)) & 0x1f_ffff
    requires c & 0x1f == b & 0x1f
    ensures (c & 0x1f) | 0x9000_0000 | (z << 26) | (0x00ff_ffe0 & ((z & 0x1f_ffff) - 0x10_0000)) == b + 0x8ff0_0000
  {
  }
  lemma FixRestores(b: bv32, c: bv32, z: bv32)
    requires z & 7 == 0
    requires (b - 0x10_0000) & 0x9f00_0000 == 0 && b & 0xe0_0000 == 0
    requires z & 0x1f_ffff == ((b & 0xffff_ffe0) | (b >> 26)) & 0x1f_ffff
    requires c & 0x1f == b & 0x1f
    ensures AdrpFix(c, z) == Unbiased(b)
  {
    FixUnbiased(b, c, z);
  }
  lemma BiasedAre(b: bv32)
    ensures AdrpBits(b) <==> (b - 0x10_0000) & 0x9f00_0000 == 0 && b & 0xe0_0000 == 0
    ensures Low21(Page(b)) == ((b & 0xffff_ffe0) | (b >> 26)) & 0x1f_ffff
  {
  }
  lemma AdrpRestores(b: bv32, c: bv32, z: bv32)
    requires AdrpBits(b) && Low3(z) && Low21(z) == Low21(Page(b)) && Register(c) == Register(b)
    ensures AdrpFix(c, z) == Unbiased(b)
  {
    hide *;
    Low3Is(z);
    LowIs(z);
    RegisterIs(c);
    RegisterIs(b);
    BiasedAre(b);
    FixRestores(b, c, z);
  }
  lemma AdrpInverts(v: bv32, a: bv32)
    requires IsAdrp(v)
    ensures var e := AdrpFix(Biased(v), Plus(Page(Biased(v)), PageOf(a)));
            IsAdrp(e) && AdrpFix(Biased(e), Minus(Page(Biased(e)), PageOf(a))) == v
  {
    hide *;
    var x, p := Page(Biased(v)), PageOf(a);
    var z := Plus(x, p);
    var e := AdrpFix(Biased(v), z);
    var y := Page(Biased(e));
    AdrpPage(v);
    LowKept(x, a);
    AdrpFixed(Biased(v), z);
    AdrpPage(e);
    LowKept(y, a);
    MinusLow21(y, z, p);
    MinusPlus(x, p);
    AdrpBiased(v);
    AdrpRestores(Biased(v), Biased(e), Minus(y, p));
  }
  lemma AdrpNotBl(v: bv32)
    requires IsAdrp(v)
    ensures !IsBl64(v)
  {
  }

  // --- One word of any of them ---

  predicate Matches(arch: Arch, v: bv32) {
    match arch
    case Arm => IsBl(v)
    case Arm64 => IsBl64(v) || IsAdrp(v)
    case Ppc => IsB(v)
    case Sparc => IsCall(v)
  }

  function Word(arch: Arch, v: bv32, a: bv32, encoding: bool): bv32 {
    match arch
    case Arm => if IsBl(v) then BlFix(Step(v, Shr2(a), encoding)) else v
    case Arm64 =>
      if IsBl64(v) then Bl64Fix(Step(v, Shr2(a), encoding))
      else if IsAdrp(v) then AdrpFix(Biased(v), Step(Page(Biased(v)), PageOf(a), encoding))
      else v
    case Ppc => if IsB(v) then BFix(Step(v, a, encoding)) else v
    case Sparc => if IsCall(v) then CallFix(Step(Shl2(v), a, encoding)) else v
  }

  lemma AdrpStillMatches(v: bv32, a: bv32, encoding: bool)
    requires IsAdrp(v)
    ensures IsAdrp(AdrpFix(Biased(v), Step(Page(Biased(v)), PageOf(a), encoding)))
  {
    hide IsAdrp, AdrpFix, Biased, Page, PageOf, Plus, Minus, Low3, Low21, Register;
    AdrpPage(v);
    LowKept(Page(Biased(v)), a);
    AdrpFixed(Biased(v), Step(Page(Biased(v)), PageOf(a), encoding));
  }

  // A branch stays a branch, and anything else stays what it is.
  lemma WordMatches(arch: Arch, v: bv32, a: bv32, encoding: bool)
    requires Aligned(a)
    ensures Matches(arch, v) <==> Matches(arch, Word(arch, v, a, encoding))
    ensures !Matches(arch, v) ==> Word(arch, v, a, encoding) == v
  {
    hide IsBl, IsBl64, IsAdrp, IsB, IsCall, BlFix, Bl64Fix, AdrpFix, BFix, CallFix, Plus, Minus, Biased, Page,
      PageOf, Shl2, Shr2, Aligned;
    match arch {
      case Arm =>
        BlFixMatches(Step(v, Shr2(a), encoding));
      case Arm64 =>
        Bl64FixMatches(Step(v, Shr2(a), encoding));
        if IsAdrp(v) {
          AdrpStillMatches(v, a, encoding);
        }
      case Ppc =>
        if IsB(v) {
          BFixMatches(v, a);
        }
      case Sparc =>
        CallFixMatches(Step(Shl2(v), a, encoding));
    }
  }

  // Decoding at the same address undoes encoding.
  lemma WordInverts(arch: Arch, v: bv32, a: bv32)
    requires Aligned(a)
    ensures Word(arch, Word(arch, v, a, true), a, false) == v
  {
    hide IsBl, IsBl64, IsAdrp, IsB, IsCall, BlFix, Bl64Fix, AdrpFix, BFix, CallFix, Plus, Minus, Biased, Page,
      PageOf, Shl2, Shr2, Aligned;
    WordMatches(arch, v, a, true);
    match arch {
      case Arm =>
        if IsBl(v) {
          BlInverts(v, Shr2(a));
        }
      case Arm64 =>
        if IsBl64(v) {
          Bl64FixMatches(Plus(v, Shr2(a)));
          Bl64Inverts(v, Shr2(a));
        } else if IsAdrp(v) {
          AdrpInverts(v, a);
          AdrpNotBl(AdrpFix(Biased(v), Plus(Page(Biased(v)), PageOf(a))));
        }
      case Ppc =>
        if IsB(v) {
          BInverts(v, a);
        }
      case Sparc =>
        if IsCall(v) {
          CallInverts(v, a);
        }
    }
  }
}
