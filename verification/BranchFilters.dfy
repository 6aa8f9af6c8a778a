/** The ARM, ARM64, PPC and SPARC branch filters: one pass over the words of a buffer. */
module BranchFilters {
  import opened Basics
  import opened Words
  import opened BranchWord
  import opened WordValues
  import opened BranchTargets

  predicate BigEndian(arch: Arch) {
    arch.Ppc? || arch.Sparc?
  }

  function Get(arch: Arch, b: seq<bv8>): bv32
    requires |b| == 4
  {
    if BigEndian(arch) then FromBE(b) else FromLE(b)
  }

  function Put(arch: Arch, v: bv32): (b: seq<bv8>)
    ensures |b| == 4
  {
    if BigEndian(arch) then ToBE(v) else ToLE(v)
  }

  // The address a word is converted at: the ARM filter counts the word first.
  function At(arch: Arch, ip: u32): (a: u32)
    requires ip % 4 == 0
    ensures a % 4 == 0
  {
    if arch.Arm? then
      WrapAligned(ip + 4);
      Wrap32(ip + 4)
    else ip
  }

  function One(arch: Arch, b: seq<bv8>, ip: u32, encoding: bool): (r: seq<bv8>)
    requires |b| == 4 && ip % 4 == 0
    ensures |r| == 4
  {
    Put(arch, Word(arch, Get(arch, b), FromInt(At(arch, ip)), encoding))
  }

  // Every whole word of s, the first at ip; a tail of fewer than four bytes is kept.
  function Map(arch: Arch, s: seq<bv8>, ip: u32, encoding: bool): (r: seq<bv8>)
    requires ip % 4 == 0
    ensures |r| == |s|
  {
    if |s| < 4 then s
    else One(arch, s[..4], ip, encoding) + Map(arch, s[4..], Wrap32(ip + 4), encoding)
  }

  // The ARM filter starts, and restarts whenever its counter wraps to zero, at 4.
  function Base(arch: Arch, ip: u32): (a: u32)
    requires ip % 4 == 0
    ensures a % 4 == 0
  {
    if arch.Arm? && ip == 0 then 4 else ip
  }

  function Whole(n: nat): nat {
    n / 4 * 4
  }

  lemma OneInverts(arch: Arch, b: seq<bv8>, ip: u32)
    requires |b| == 4 && ip % 4 == 0
    ensures One(arch, One(arch, b, ip, true), ip, false) == b
  {
    hide FromLE, ToLE, FromBE, ToBE, Word, Aligned, Shl2;
    WordBytes(b);
    BytesWord(Word(arch, Get(arch, b), FromInt(At(arch, ip)), true));
    AddrAligned(At(arch, ip));
    WordInverts(arch, Get(arch, b), FromInt(At(arch, ip)));
  }

  // Decoding an encoded buffer from the same counter restores it.
  lemma {:induction false} MapInverts(arch: Arch, s: seq<bv8>, ip: u32)
    requires ip % 4 == 0
    ensures Map(arch, Map(arch, s, ip, true), ip, false) == s
  {
    hide One;
    if |s| >= 4 {
      var e := Map(arch, s, ip, true);
      OneInverts(arch, s[..4], ip);
      MapInverts(arch, s[4..], Wrap32(ip + 4));
      assert e[..4] == One(arch, s[..4], ip, true);
      assert e[4..] == Map(arch, s[4..], Wrap32(ip + 4), true);
      assert s == s[..4] + s[4..];
    }
  }

  lemma MapStep(arch: Arch, x: seq<bv8>, y: seq<bv8>, ip: u32, encoding: bool)
    requires ip % 4 == 0 && |x| >= 4
    ensures Map(arch, x + y, ip, encoding)
            == One(arch, x[..4], ip, encoding) + Map(arch, x[4..] + y, Wrap32(ip + 4), encoding)
  {
    hide One;
    assert (x + y)[..4] == x[..4];
    assert (x + y)[4..] == x[4..] + y;
  }

  // A pass over whole words followed by a pass over the rest, the counter carried over, is
  // one pass over both.
  lemma MapShort(arch: Arch, s: seq<bv8>, ip: u32, encoding: bool)
    requires ip % 4 == 0 && |s| < 4
    ensures Map(arch, s, ip, encoding) == s
  {
  }

  lemma WrapStep(ip: u32, n: nat)
    requires ip % 4 == 0 && n % 4 == 0
    ensures Wrap32(ip + 4) % 4 == 0 && Wrap32(ip + n) % 4 == 0
    ensures Wrap32(ip + n) == if n == 0 then ip else Wrap32(Wrap32(ip + 4) + (n - 4))
  {
    WrapAligned(ip + 4);
    WrapAligned(ip + n);
    WrapTwice(ip + 4, n - 4);
  }

  lemma {:induction false} MapSplits(arch: Arch, x: seq<bv8>, y: seq<bv8>, ip: u32, encoding: bool)
    requires ip % 4 == 0 && |x| % 4 == 0
    ensures Wrap32(ip + |x|) % 4 == 0
    ensures Map(arch, x + y, ip, encoding) == Map(arch, x, ip, encoding) + Map(arch, y, Wrap32(ip + |x|), encoding)
  {
    hide *;
    WrapStep(ip, |x|);
    if |x| == 0 {
      MapShort(arch, x, ip, encoding);
      assert x + y == y && [] + Map(arch, y, ip, encoding) == Map(arch, y, ip, encoding);
    } else {
      var one, rest := One(arch, x[..4], ip, encoding), Map(arch, x[4..], Wrap32(ip + 4), encoding);
      MapStep(arch, x, y, ip, encoding);
      MapStep(arch, x, [], ip, encoding);
      assert x + [] == x && x[4..] + [] == x[4..];
      MapSplits(arch, x[4..], y, Wrap32(ip + 4), encoding);
      var last := Map(arch, y, Wrap32(ip + |x|), encoding);
      assert one + (rest + last) == (one + rest) + last;
    }
  }

  // --- where branches go ---

  // What one word becomes, in bytes and numbers: r for w, at address a. The displacement of a branch
  // moves by the address, and what is not a branch stays.
  predicate Resolved(arch: Arch, w: seq<bv8>, r: seq<bv8>, a: u32, encoding: bool)
    requires |w| == 4 && |r| == 4
  {
    match arch
    case Arm =>
      if w[3] == 0xeb then
        r[3] == 0xeb && Cong(Value(FromLE(r)), Moved(Value(FromLE(w)), a / 4, encoding), 0x100_0000)
      else r == w
    case Ppc =>
      if w[0] & 0xfc == 0x48 && w[3] & 3 == 1 then
        && r[0] & 0xfc == 0x48 && r[3] & 3 == 1
        && Cong(Value(FromBE(r)), Moved(Value(FromBE(w)), a, encoding), 0x400_0000)
      else r == w
    case Sparc =>
      if (w[0] == 0x40 && w[1] & 0xc0 == 0) || (w[0] == 0x7f && w[1] >= 0xc0) then
        && ((r[0] == 0x40 && r[1] & 0xc0 == 0) || (r[0] == 0x7f && r[1] >= 0xc0))
        && Cong(4 * Value(FromBE(r)), Moved(4 * Value(FromBE(w)), a, encoding), 0x200_0000)
      else r == w
    case Arm64 =>
      var v, u := FromLE(w), FromLE(r);
      if v >> 26 == 0x25 then
        u >> 26 == 0x25 && Cong(Value(u), Moved(Value(v), a / 4, encoding), 0x400_0000)
      else if Opcode(v) == 0x9000_0000 && Reach(Value(Imm(v))) then
        && Opcode(u) == 0x9000_0000 && Register(u) == Register(v) && Reach(Value(Imm(u)))
        && Cong(Value(Imm(u)), Moved(Value(Imm(v)), a / 0x1000, encoding), 0x4_0000)
      else r == w
  }

  lemma OneResolves(arch: Arch, w: seq<bv8>, ip: u32, encoding: bool)
    requires |w| == 4 && ip % 4 == 0
    ensures Resolved(arch, w, One(arch, w, ip, encoding), At(arch, ip), encoding)
  {
    hide *;
    var a, r := At(arch, ip), One(arch, w, ip, encoding);
    AddrAligned(a);
    WordBytes(w);
    WordBytes(r);
    OneIs(arch, w, ip, encoding);
    match arch {
      case Arm => ArmResolves(w, r, a, encoding);
      case Ppc => PpcResolves(w, r, a, encoding);
      case Sparc => SparcResolves(w, r, a, encoding);
      case Arm64 => Arm64Resolves(w, r, a, encoding);
    }
  }

  lemma OneIs(arch: Arch, w: seq<bv8>, ip: u32, encoding: bool)
    requires |w| == 4 && ip % 4 == 0
    ensures Get(arch, One(arch, w, ip, encoding)) == Word(arch, Get(arch, w), FromInt(At(arch, ip)), encoding)
    ensures Word(arch, Get(arch, w), FromInt(At(arch, ip)), encoding) == Get(arch, w)
            ==> One(arch, w, ip, encoding) == w
  {
    hide FromLE, ToLE, FromBE, ToBE, Word, FromInt;
    WordBytes(w);
    BytesWord(Word(arch, Get(arch, w), FromInt(At(arch, ip)), encoding));
  }

  lemma ArmResolves(w: seq<bv8>, r: seq<bv8>, a: u32, encoding: bool)
    requires |w| == |r| == 4 && a % 4 == 0 && Aligned(FromInt(a))
    requires Get(Arm, r) == Word(Arm, Get(Arm, w), FromInt(a), encoding)
    requires Word(Arm, Get(Arm, w), FromInt(a), encoding) == Get(Arm, w) ==> r == w
    ensures Resolved(Arm, w, r, a, encoding)
  {
    hide FromLE, FromInt, Word, IsBl, Value, Cong, Moved;
    ArmTest(w);
    ArmTest(r);
    WordMatches(Arm, FromLE(w), FromInt(a), encoding);
    if IsBl(FromLE(w)) {
      BlTarget(FromLE(w), a, encoding);
    }
  }

  lemma PpcResolves(w: seq<bv8>, r: seq<bv8>, a: u32, encoding: bool)
    requires |w| == |r| == 4 && a % 4 == 0 && Aligned(FromInt(a))
    requires Get(Ppc, r) == Word(Ppc, Get(Ppc, w), FromInt(a), encoding)
    requires Word(Ppc, Get(Ppc, w), FromInt(a), encoding) == Get(Ppc, w) ==> r == w
    ensures Resolved(Ppc, w, r, a, encoding)
  {
    hide FromBE, FromInt, Word, IsB, Value, Cong, Moved;
    PpcTest(w);
    PpcTest(r);
    WordMatches(Ppc, FromBE(w), FromInt(a), encoding);
    if IsB(FromBE(w)) {
      BTarget(FromBE(w), a, encoding);
    }
  }

  lemma SparcResolves(w: seq<bv8>, r: seq<bv8>, a: u32, encoding: bool)
    requires |w| == |r| == 4 && a % 4 == 0 && Aligned(FromInt(a))
    requires Get(Sparc, r) == Word(Sparc, Get(Sparc, w), FromInt(a), encoding)
    requires Word(Sparc, Get(Sparc, w), FromInt(a), encoding) == Get(Sparc, w) ==> r == w
    ensures Resolved(Sparc, w, r, a, encoding)
  {
    hide FromBE, FromInt, Word, IsCall, Value, Cong, Moved;
    SparcTest(w);
    SparcTest(r);
    WordMatches(Sparc, FromBE(w), FromInt(a), encoding);
    if IsCall(FromBE(w)) {
      CallTarget(FromBE(w), a, encoding);
    }
  }

  lemma Arm64Resolves(w: seq<bv8>, r: seq<bv8>, a: u32, encoding: bool)
    requires |w| == |r| == 4 && a % 4 == 0 && Aligned(FromInt(a))
    requires Get(Arm64, r) == Word(Arm64, Get(Arm64, w), FromInt(a), encoding)
    requires Word(Arm64, Get(Arm64, w), FromInt(a), encoding) == Get(Arm64, w) ==> r == w
    ensures Resolved(Arm64, w, r, a, encoding)
  {
    hide FromLE, FromInt, Word, IsBl64, IsAdrp, Value, Cong, Moved, Opcode, Register, Reach, Imm;
    var v, u := FromLE(w), FromLE(r);
    Bl64Is(v);
    Bl64Is(u);
    AdrpMeans(v);
    WordMatches(Arm64, v, FromInt(a), encoding);
    if IsBl64(v) {
      Bl64Target(v, a, encoding);
    } else if IsAdrp(v) {
      AdrpTarget(v, a, encoding);
    }
  }

  // Every whole word of a buffer is resolved at its own address; the tail stays.
  lemma {:induction false} MapWord(arch: Arch, s: seq<bv8>, ip: u32, encoding: bool, k: nat)
    requires ip % 4 == 0 && k % 4 == 0 && k + 4 <= |s|
    ensures Wrap32(ip + k) % 4 == 0
    ensures Map(arch, s, ip, encoding)[k..k + 4] == One(arch, s[k..k + 4], Wrap32(ip + k), encoding)
    decreases k
  {
    hide One, Wrap32, Map;
    WrapStep(ip, k);
    MapStep(arch, s, [], ip, encoding);
    assert s + [] == s && s[4..] + [] == s[4..];
    var first, more := One(arch, s[..4], ip, encoding), Map(arch, s[4..], Wrap32(ip + 4), encoding);
    if k == 0 {
      assert s[0..4] == s[..4] && (first + more)[0..4] == first;
    } else {
      MapWord(arch, s[4..], Wrap32(ip + 4), encoding, k - 4);
      assert s[4..][k - 4..k] == s[k..k + 4];
      assert (first + more)[k..k + 4] == more[k - 4..k];
    }
  }

  // The address that a branch counts from: that of its word, and for ARM that of the second word behind.
  function BranchAddress(arch: Arch, ip: u32, k: nat): u32 {
    if arch.Arm? then Wrap32(ip + k + 4) else Wrap32(ip + k)
  }

  lemma MapResolves(arch: Arch, s: seq<bv8>, ip: u32, encoding: bool, k: nat)
    requires ip % 4 == 0 && k % 4 == 0 && k + 4 <= |s|
    ensures Resolved(arch, s[k..k + 4], Map(arch, s, ip, encoding)[k..k + 4], BranchAddress(arch, ip, k), encoding)
  {
    hide One, Map, Resolved;
    MapWord(arch, s, ip, encoding, k);
    OneResolves(arch, s[k..k + 4], Wrap32(ip + k), encoding);
    WrapTwice(ip + k, 4);
  }

  // In a new filter a word's address is its place, and an ARM branch counts from eight bytes behind it.
  lemma FreshAddress(arch: Arch, k: nat)
    ensures BranchAddress(arch, Base(arch, 0), k) == Wrap32(if arch.Arm? then k + 8 else k)
  {
  }

  // What a Convert call does: nothing to a buffer shorter than a word.
  ghost predicate Converted(arch: Arch, s: seq<bv8>, ip: u32, encoding: bool, t: seq<bv8>, ip': u32, n: nat)
    requires ip % 4 == 0
  {
    if |s| < 4 then t == s && ip' == ip && n == 0
    else
      && n == Whole(|s|)
      && t == Map(arch, s, Base(arch, ip), encoding)
      && ip' == Wrap32(Base(arch, ip) + n)
  }

  lemma ConvertedIs(arch: Arch, s: seq<bv8>, ip: u32, encoding: bool)
    requires ip % 4 == 0
    ensures |s| < 4 ==> Converted(arch, s, ip, encoding, s, ip, 0)
    ensures |s| >= 4 ==>
              Converted(arch, s, ip, encoding, Map(arch, s, Base(arch, ip), encoding),
                        Wrap32(Base(arch, ip) + Whole(|s|)), Whole(|s|))
  {
    hide Map, Wrap32, Whole, Base;
  }

  // The buffer after the words before i are done.
  ghost predicate Upto(arch: Arch, s: seq<bv8>, ip: u32, encoding: bool, t: seq<bv8>, i: nat)
    requires ip % 4 == 0
  {
    i <= |s| && t == Map(arch, s[..i], ip, encoding) + s[i..]
  }

  lemma UptoStart(arch: Arch, s: seq<bv8>, ip: u32, encoding: bool)
    requires ip % 4 == 0
    ensures Upto(arch, s, ip, encoding, s, 0)
  {
  }

  lemma UptoNext(arch: Arch, s: seq<bv8>, ip: u32, encoding: bool, t: seq<bv8>, i: nat)
    requires ip % 4 == 0 && i % 4 == 0 && i + 4 <= |s|
    requires Upto(arch, s, ip, encoding, t, i)
    ensures |t| == |s| && t[i..i + 4] == s[i..i + 4] && Wrap32(ip + i) % 4 == 0
    ensures Upto(arch, s, ip, encoding, t[..i] + One(arch, t[i..i + 4], Wrap32(ip + i), encoding) + t[i + 4..], i + 4)
  {
    hide One;
    var w := s[i..i + 4];
    assert t[i..i + 4] == w && t[..i] == Map(arch, s[..i], ip, encoding) && t[i + 4..] == s[i + 4..];
    assert s[..i + 4] == s[..i] + w;
    MapSplits(arch, s[..i], w, ip, encoding);
    assert w[..4] == w && w[4..] == [];
  }

  lemma WholeIs(n: nat)
    ensures Whole(n) <= n < Whole(n) + 4 && Whole(n) % 4 == 0
  {
  }

  lemma WordFits(i: nat, n: nat)
    requires i % 4 == 0 && i < Whole(n)
    ensures i + 4 <= Whole(n) <= n
  {
  }

  lemma UptoEnd(arch: Arch, s: seq<bv8>, ip: u32, encoding: bool, t: seq<bv8>)
    requires ip % 4 == 0
    requires Upto(arch, s, ip, encoding, t, Whole(|s|))
    ensures t == Map(arch, s, ip, encoding)
  {
    hide Map, Wrap32, Whole, One;
    var i := Whole(|s|);
    WholeIs(|s|);
    WrapStep(ip, i);
    MapSplits(arch, s[..i], s[i..], ip, encoding);
    MapShort(arch, s[i..], Wrap32(ip + i), encoding);
    assert s == s[..i] + s[i..];
  }

  // Encoding and then decoding from the same counter gives back the buffer, the count
  // and the counter.
  lemma ConvertedInverts(arch: Arch, s: seq<bv8>, ip: u32, e: seq<bv8>, ip1: u32, n1: nat, d: seq<bv8>, ip2: u32,
      n2: nat)
    requires ip % 4 == 0
    requires Converted(arch, s, ip, true, e, ip1, n1) && Converted(arch, e, ip, false, d, ip2, n2)
    ensures d == s && ip2 == ip1 && n2 == n1
  {
    hide Map;
    MapInverts(arch, s, Base(arch, ip));
  }

  // Some whole word is a branch with link.
  predicate HasBl(y: seq<bv8>) {
    |y| >= 4 && (IsBl(FromLE(y[..4])) || HasBl(y[4..]))
  }

  // Two passes of the ARM filter, either way, over any bytes cut at a word agree with one pass if
  // and only if the counter between them is not zero, or the second pass finds no branch.
  lemma ArmRestarts(x: seq<bv8>, y: seq<bv8>, ip: u32, encoding: bool)
    requires ip % 4 == 0 && |x| % 4 == 0 && |x| >= 4
    ensures var mid := Wrap32(Base(Arm, ip) + |x|);
            && mid % 4 == 0
            && (Map(Arm, x + y, Base(Arm, ip), encoding)
                  == Map(Arm, x, Base(Arm, ip), encoding) + Map(Arm, y, Base(Arm, mid), encoding)
                <==> mid != 0 || !HasBl(y))
  {
    hide Map, HasBl;
    var mid := Wrap32(Base(Arm, ip) + |x|);
    MapSplits(Arm, x, y, Base(Arm, ip), encoding);
    if mid == 0 {
      ArmShifted(y, 0, encoding);
      var m := Map(Arm, x, Base(Arm, ip), encoding);
      assert (m + Map(Arm, y, 0, encoding))[|m|..] == Map(Arm, y, 0, encoding);
      assert (m + Map(Arm, y, 4, encoding))[|m|..] == Map(Arm, y, 4, encoding);
    }
  }

  // A pass that starts one word further agrees only if there is nothing to convert.
  lemma {:induction false} ArmShifted(y: seq<bv8>, ip: u32, encoding: bool)
    requires ip % 4 == 0
    ensures Wrap32(ip + 4) % 4 == 0
    ensures Map(Arm, y, ip, encoding) == Map(Arm, y, Wrap32(ip + 4), encoding) <==> !HasBl(y)
  {
    hide One, IsBl, FromLE;
    WrapFour(ip);
    var next: int := Wrap32(ip + 4);
    WrapFour(next);
    if |y| >= 4 {
      var a, b := Map(Arm, y, ip, encoding), Map(Arm, y, next, encoding);
      assert a[..4] == One(Arm, y[..4], ip, encoding) && a[4..] == Map(Arm, y[4..], next, encoding);
      assert b[..4] == One(Arm, y[..4], next, encoding) && b[4..] == Map(Arm, y[4..], Wrap32(next + 4), encoding);
      assert a == a[..4] + a[4..] && b == b[..4] + b[4..];
      OneShifted(y[..4], ip, encoding);
      ArmShifted(y[4..], next, encoding);
    }
  }

  // Addresses of neighbouring words move a branch differently.
  lemma OneShifted(w: seq<bv8>, ip: u32, encoding: bool)
    requires |w| == 4 && ip % 4 == 0
    ensures Wrap32(ip + 4) % 4 == 0
    ensures One(Arm, w, ip, encoding) == One(Arm, w, Wrap32(ip + 4), encoding) <==> !IsBl(FromLE(w))
  {
    hide FromLE, ToLE, IsBl, BlFix, Shr2, FromInt, Step, Value, Cong, Moved;
    WrapFour(ip);
    var next: int := Wrap32(ip + 4);
    WrapFour(next);
    var v := FromLE(w);
    var x, y := Word(Arm, v, FromInt(next), encoding), Word(Arm, v, FromInt(Wrap32(next + 4)), encoding);
    BytesWord(x);
    BytesWord(y);
    if IsBl(v) {
      BlTarget(v, next, encoding);
      BlTarget(v, Wrap32(next + 4), encoding);
      NeighboursDiffer(Value(x), Value(y), Value(v), next, encoding);
    }
  }

  lemma NeighboursDiffer(x: int, y: int, v: u32, a: u32, encoding: bool)
    requires a % 4 == 0 && Cong(x, Moved(v, a / 4, encoding), 0x100_0000)
    requires Cong(y, Moved(v, Wrap32(a + 4) / 4, encoding), 0x100_0000)
    ensures x != y
  {
    hide Cong;
    WrapFour(a);
    if x == y {
      CongBack(x, Moved(v, a / 4, encoding), 0x100_0000);
      CongThrough(Moved(v, a / 4, encoding), x, Moved(v, Wrap32(a + 4) / 4, encoding), 0x100_0000);
      var q := CongHas(Moved(v, a / 4, encoding), Moved(v, Wrap32(a + 4) / 4, encoding), 0x100_0000);
      assert false;
    }
  }

  lemma WrapAdd(ip: u32, i: nat, k: nat)
    ensures Wrap32(Wrap32(ip + i) + k) == Wrap32(ip + (i + k))
  {
    WrapTwice(ip + i, k);
  }

  // The byte tests of the filters are tests of the word.
  lemma ArmTest(w: seq<bv8>)
    requires |w| == 4
    ensures IsBl(FromLE(w)) <==> w[3] == 0xeb
  {
    hide Byte0, Byte1, Byte2, Byte3, Join;
    JoinBytes(w[0], w[1], w[2], w[3]);
  }

  lemma PpcTest(w: seq<bv8>)
    requires |w| == 4
    ensures IsB(FromBE(w)) <==> w[0] & 0xfc == 0x48 && w[3] & 3 == 1
  {
    hide Byte0, Byte1, Byte2, Byte3, Join;
    JoinBytes(w[3], w[2], w[1], w[0]);
  }

  lemma SparcTest(w: seq<bv8>)
    requires |w| == 4
    ensures IsCall(FromBE(w)) <==> (w[0] == 0x40 && w[1] & 0xc0 == 0) || (w[0] == 0x7f && w[1] >= 0xc0)
  {
    hide Byte0, Byte1, Byte2, Byte3, Join;
    JoinBytes(w[3], w[2], w[1], w[0]);
  }

  lemma WrapFour(ip: u32)
    requires ip % 4 == 0
    ensures Wrap32(ip + 4) % 4 == 0
    ensures Wrap32(ip + 4) == if ip == 0xffff_fffc then 0 else ip + 4
  {
    WrapAligned(ip + 4);
    if ip == 0xffff_fffc {
      WrapOver(0);
    } else {
      LastWord(ip / 4);
      WrapSmall(ip + 4);
    }
  }

  lemma LastWord(k: nat)
    requires 4 * k < 0x1_0000_0000 && 4 * k != 0xffff_fffc
    ensures 4 * k + 4 < 0x1_0000_0000
  {
  }

  // The one case of the other words.
  lemma OneArm(w: seq<bv8>, ip: u32, encoding: bool)
    requires |w| == 4 && ip % 4 == 0 && Wrap32(ip + 4) % 4 == 0
    ensures var v := FromLE(w);
            One(Arm, w, ip, encoding)
              == ToLE(if IsBl(v) then BlFix(Step(v, Shr2(FromInt(Wrap32(ip + 4))), encoding)) else v)
  {
    hide FromLE, ToLE, FromInt, Step, IsBl, BlFix, Shr2, Wrap32;
  }

  lemma OnePpc(w: seq<bv8>, ip: u32, encoding: bool)
    requires |w| == 4 && ip % 4 == 0
    ensures var v := FromBE(w);
            One(Ppc, w, ip, encoding) == ToBE(if IsB(v) then BFix(Step(v, FromInt(ip), encoding)) else v)
  {
    hide FromBE, ToBE, FromInt, Step, IsB, BFix, Wrap32;
  }

  lemma OneSparc(w: seq<bv8>, ip: u32, encoding: bool)
    requires |w| == 4 && ip % 4 == 0
    ensures var v := FromBE(w);
            One(Sparc, w, ip, encoding) == ToBE(if IsCall(v) then CallFix(Step(Shl2(v), FromInt(ip), encoding)) else v)
  {
    hide FromBE, ToBE, FromInt, Step, IsCall, CallFix, Shl2, Wrap32;
  }

  // The three cases of an ARM64 word.
  lemma One64(w: seq<bv8>, ip: u32, encoding: bool)
    requires |w| == 4 && ip % 4 == 0
    ensures var v := FromLE(w);
            One(Arm64, w, ip, encoding)
            == (if IsBl64(v) then ToLE(Bl64Fix(Step(v, Shr2(FromInt(ip)), encoding)))
                else if IsAdrp(v) then ToLE(AdrpFix(Biased(v), Step(Page(Biased(v)), PageOf(FromInt(ip)), encoding)))
                else w)
  {
    hide FromLE, ToLE, FromInt, Step, IsBl64, Bl64Fix, IsAdrp, AdrpFix, Biased, Page, PageOf, Shr2;
    WordBytes(w);
  }

  // A fixed-width filter: its architecture and its counter.
  class Filter {
    const arch: Arch
    var ip: u32

    ghost predicate Valid()
      reads this
    {
      ip % 4 == 0
    }

    constructor (arch: Arch)
      ensures Valid() && ip == 0 && this.arch == arch
    {
      this.arch, ip := arch, 0;
    }

    // The loop body of the ARM filter: one word, and the counter past it.
    method ArmWord(b: array<bv8>, i: nat, encoding: bool)
      requires Valid() && i + 4 <= b.Length
      modifies this`ip, b
      ensures Valid() && ip == Wrap32(old(ip) + 4)
      ensures b[..] == old(b[..i]) + One(Arm, old(b[i..i + 4]), old(ip), encoding) + old(b[i + 4..])
    {
      hide FromLE, ToLE, FromInt, Step, IsBl, BlFix, Shr2, One, Wrap32;
      ghost var w := b[i..i + 4];
      WrapFour(ip);
      OneArm(w, ip, encoding);
      ArmTest(w);
      var v := FromLE(b[i..i + 4]);
      ip := Wrap32(ip + 4);
      if b[i + 3] == 0xeb {
        v := BlFix(Step(v, Shr2(FromInt(ip)), encoding));
      }
      StoreLE(b, i, v);
    }

    // The loop body of the ARM64 filter: one word, and the counter past it.
    method Arm64Word(b: array<bv8>, i: nat, encoding: bool)
      requires Valid() && i + 4 <= b.Length
      modifies this`ip, b
      ensures Valid() && ip == Wrap32(old(ip) + 4)
      ensures b[..] == old(b[..i]) + One(Arm64, old(b[i..i + 4]), old(ip), encoding) + old(b[i + 4..])
    {
      hide FromLE, ToLE, Byte0, Byte1, Byte2, Byte3, FromInt, IsBl64, Bl64Fix, IsAdrp, AdrpFix, Biased, Page, PageOf,
        Shr2, Step, One, Word, Wrap32;
      ghost var w := b[i..i + 4];
      One64(w, ip, encoding);
      var v := FromLE(b[i..i + 4]);
      if IsBl64(v) {
        v := Bl64Fix(Step(v, Shr2(FromInt(ip)), encoding));
        StoreLE(b, i, v);
      } else if IsAdrp(v) {
        v := Biased(v);
        v := AdrpFix(v, Step(Page(v), PageOf(FromInt(ip)), encoding));
        StoreLE(b, i, v);
      } else {
        assert b[..] == b[..i] + w + b[i + 4..];
      }
      WrapFour(ip);
      ip := Wrap32(ip + 4);
    }

    // The loop body of the PPC filter: one word, and the counter past it.
    method PpcWord(b: array<bv8>, i: nat, encoding: bool)
      requires Valid() && i + 4 <= b.Length
      modifies this`ip, b
      ensures Valid() && ip == Wrap32(old(ip) + 4)
      ensures b[..] == old(b[..i]) + One(Ppc, old(b[i..i + 4]), old(ip), encoding) + old(b[i + 4..])
    {
      hide FromBE, ToBE, FromInt, Step, IsB, BFix, One, Wrap32;
      ghost var w := b[i..i + 4];
      WrapFour(ip);
      OnePpc(w, ip, encoding);
      var v := FromBE(b[i..i + 4]);
      var branch := b[i] & 0xfc == 0x48 && b[i + 3] & 3 == 1;
      assert branch == IsB(v) by {
        PpcTest(w);
      }
      if branch {
        v := BFix(Step(v, FromInt(ip), encoding));
      }
      StoreBE(b, i, v);
      ip := Wrap32(ip + 4);
    }

    // The loop body of the SPARC filter: one word, and the counter past it.
    method SparcWord(b: array<bv8>, i: nat, encoding: bool)
      requires Valid() && i + 4 <= b.Length
      modifies this`ip, b
      ensures Valid() && ip == Wrap32(old(ip) + 4)
      ensures b[..] == old(b[..i]) + One(Sparc, old(b[i..i + 4]), old(ip), encoding) + old(b[i + 4..])
    {
      hide FromBE, ToBE, FromInt, Step, IsCall, CallFix, Shl2, One, Wrap32;
      ghost var w := b[i..i + 4];
      WrapFour(ip);
      OneSparc(w, ip, encoding);
      var v := FromBE(b[i..i + 4]);
      var call := (b[i] == 0x40 && b[i + 1] & 0xc0 == 0) || (b[i] == 0x7f && b[i + 1] >= 0xc0);
      assert call == IsCall(v) by {
        SparcTest(w);
      }
      if call {
        v := CallFix(Step(Shl2(v), FromInt(ip), encoding));
      }
      StoreBE(b, i, v);
      ip := Wrap32(ip + 4);
    }

    method ConvertWord(b: array<bv8>, i: nat, encoding: bool)
      requires Valid() && i + 4 <= b.Length
      modifies this`ip, b
      ensures Valid() && ip == Wrap32(old(ip) + 4)
      ensures b[..] == old(b[..i]) + One(arch, old(b[i..i + 4]), old(ip), encoding) + old(b[i + 4..])
    {
      hide One, Wrap32;
      match arch
      case Arm => ArmWord(b, i, encoding);
      case Arm64 => Arm64Word(b, i, encoding);
      case Ppc => PpcWord(b, i, encoding);
      case Sparc => SparcWord(b, i, encoding);
    }

    // Every whole word, in place; only the ARM filter looks at its counter first.
    method Convert(b: array<bv8>, encoding: bool) returns (n: nat)
      requires Valid()
      modifies this`ip, b
      ensures Valid()
      ensures Converted(arch, old(b[..]), old(ip), encoding, b[..], ip, n)
    {
      hide Map, One, Upto, Wrap32, Whole, Converted;
      WholeIs(b.Length);
      ConvertedIs(arch, b[..], ip, encoding);
      if b.Length < 4 {
        return 0;
      }
      if arch.Arm? && ip == 0 {
        ip := 4;
      }
      ghost var s, ip0 := b[..], ip;
      UptoStart(arch, s, ip0, encoding);
      WrapStep(ip0, 0);
      var i := 0;
      while i < Whole(b.Length)
        invariant 0 <= i <= Whole(b.Length) && i % 4 == 0
        invariant Valid() && ip == Wrap32(ip0 + i)
        invariant Upto(arch, s, ip0, encoding, b[..], i)
      {
        WordFits(i, b.Length);
        UptoNext(arch, s, ip0, encoding, b[..], i);
        ghost var t := b[..];
        assert t[i..i + 4] == b[i..i + 4];
        ConvertWord(b, i, encoding);
        WrapAdd(ip0, i, 4);
        i := i + 4;
      }
      assert i == Whole(b.Length);
      UptoEnd(arch, s, ip0, encoding, b[..]);
      return i;
    }
  }
}
