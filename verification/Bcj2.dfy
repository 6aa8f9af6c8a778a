/** The BCJ2 decoder: a range decoder says which branches had their operands moved elsewhere. */
module Bcj2 {
  import opened Basics
  import opened HeaderData
  import Words

  const TOP: nat := 0x100_0000
  const FULL: nat := 0x1_0000_0000
  const UINT: nat := 0x1_0000_0000_0000_0000
  const PROBS: nat := 258
  // what a refill takes the code modulo, before it makes room for a byte
  const TOPLESS: nat := 0x100_0000_0000_0000

  predicate IsJcc(b0: byte, b1: byte) {
    b0 == 0x0f && b1 / 0x10 == 8
  }

  // A call, a jump, or a conditional jump.
  predicate IsJ(b0: byte, b1: byte) {
    b1 == 0xe8 || b1 == 0xe9 || IsJcc(b0, b1)
  }

  function Index(b0: byte, b1: byte): (i: nat)
    ensures i < PROBS
  {
    if b1 == 0xe8 then b0 else if b1 == 0xe9 then 256 else 257
  }

  // The decoder between two bytes: the four streams, the range decoder, and what the last
  // bytes written leave behind.
  datatype State = State(main: seq<byte>, call: seq<byte>, jump: seq<byte>, rd: seq<byte>,
                         nrange: nat, code: nat, sd: seq<nat>, previous: byte, written: u32)

  // --- the range decoder ---

  // Past its end the stream reads as zeros. The code is a 64-bit uint.
  function Refill(s: State): State {
    if s.nrange < TOP then
      var b := if s.rd == [] then 0 else s.rd[0];
      s.(rd := if s.rd == [] then [] else s.rd[1..], code := (s.code * 0x100 + b) % UINT, nrange := s.nrange * 0x100)
    else s
  }

  function Bound(s: State, i: nat): nat
    requires i < |s.sd|
  {
    s.nrange / 0x800 * s.sd[i]
  }

  // The state before the range is refilled.
  function Narrowed(s: State, i: nat): State
    requires |s.sd| == PROBS && i < PROBS && s.sd[i] <= 0x800
  {
    var bound := Bound(s, i);
    BoundFits(s.nrange, s.sd[i]);
    if s.code < bound then s.(nrange := bound, sd := s.sd[i := s.sd[i] + (0x800 - s.sd[i]) / 0x20])
    else s.(nrange := s.nrange - bound, code := s.code - bound, sd := s.sd[i := s.sd[i] - s.sd[i] / 0x20])
  }

  lemma BoundFits(n: nat, p: nat)
    requires p <= 0x800
    ensures n / 0x800 * p <= n
  {
    assert n / 0x800 * p <= n / 0x800 * 0x800;
  }

  function DecodeBit(s: State, i: nat): (State, bool)
    requires |s.sd| == PROBS && i < PROBS && s.sd[i] <= 0x800
  {
    (Refill(Narrowed(s, i)), s.code >= Bound(s, i))
  }

  // The range has 24 to 32 bits, and no probability gets close to 0 or 1.
  ghost predicate Wide(s: State) {
    && TOP <= s.nrange < FULL && |s.sd| == PROBS
    && forall i :: 0 <= i < PROBS ==> Probable(s.sd[i])
  }

  // And the code is inside it.
  ghost predicate InRange(s: State) {
    Wide(s) && s.code < s.nrange
  }

  predicate Probable(p: nat) {
    31 <= p <= 2017
  }

  lemma ProbabilityMoves(p: nat)
    requires Probable(p)
    ensures Probable(p + (0x800 - p) / 0x20) && Probable(p - p / 0x20)
  {
  }

  // Either part of the range keeps 16 bits.
  lemma PartsAreWide(n: nat, p: nat)
    requires TOP <= n < FULL && Probable(p)
    ensures 0x1_0000 <= n / 0x800 * p && n / 0x800 * p + 0x1_0000 <= n
  {
    var q := n / 0x800;
    Scaled(q, 31, p);
    Scaled(q, p, 2017);
    assert q * 0x800 <= n;
  }

  lemma Scaled(q: nat, a: nat, b: nat)
    requires a <= b
    ensures q * a <= q * b
  {
  }

  // Before the refill 16 bits are left, whichever way the bit goes; the code stays where it is,
  // inside the range or not.
  lemma NarrowedWide(s: State, i: nat)
    requires Wide(s) && i < PROBS
    ensures Probable(s.sd[i])
    ensures var n := Narrowed(s, i);
            && 0x1_0000 <= n.nrange < FULL && |n.sd| == PROBS && (forall k :: 0 <= k < PROBS ==> Probable(n.sd[k]))
            && (n.code < n.nrange <==> s.code < s.nrange) && n.code <= s.code
  {
    hide Probable, Bound;
    assert Probable(s.sd[i]);
    ProbabilityMoves(s.sd[i]);
    WideParts(s, i);
  }

  lemma WideParts(s: State, i: nat)
    requires TOP <= s.nrange < FULL && i < |s.sd| && Probable(s.sd[i])
    ensures s.sd[i] <= 0x800 && 0x1_0000 <= Bound(s, i) && Bound(s, i) + 0x1_0000 <= s.nrange
  {
    PartsAreWide(s.nrange, s.sd[i]);
  }

  lemma RefillWide(s: State)
    requires 0x1_0000 <= s.nrange < FULL
    ensures var r := Refill(s); TOP <= r.nrange < FULL && r.sd == s.sd
  {
  }

  // The refill shifts the top byte of the code out of its 64 bits: what is left of it is compared
  // with the range as it was.
  lemma RefillRange(s: State)
    requires 0x1_0000 <= s.nrange < FULL
    ensures var r := Refill(s); r.code < r.nrange <==> (if s.nrange < TOP then s.code % TOPLESS else s.code) < s.nrange
  {
    if s.nrange < TOP {
      var b := if s.rd == [] then 0 else s.rd[0];
      Shifted(s.code, b);
    }
  }

  lemma Shifted(c: nat, b: byte)
    ensures (c * 0x100 + b) % UINT == c % TOPLESS * 0x100 + b
  {
    var q, m := c / TOPLESS, c % TOPLESS;
    assert c * 0x100 + b == q * UINT + (m * 0x100 + b);
    Remainder(q, m * 0x100 + b);
  }

  lemma Remainder(q: nat, c: nat)
    requires c < UINT
    ensures (q * UINT + c) % UINT == c
  {
  }

  lemma SmallCode(c: nat)
    requires c < TOPLESS
    ensures c % TOPLESS == c
  {
  }

  // Decoding a bit keeps the range wide, whatever the stream holds; so the one `if` of the refill
  // is enough.
  lemma DecodeKeeps(s: State, i: nat)
    requires Wide(s) && i < PROBS
    ensures Probable(s.sd[i]) && Wide(DecodeBit(s, i).0)
  {
    hide Refill, Narrowed, Probable;
    NarrowedWide(s, i);
    ProbablyFits(s.sd[i]);
    RefillWide(Narrowed(s, i));
  }

  // A code outside the range overflows in the refill after a bit, and what is left of it is inside.
  predicate Overflows(s: State, i: nat)
    requires i < |s.sd| && Bound(s, i) <= s.code
  {
    var n := s.nrange - Bound(s, i);
    n < TOP && (s.code - Bound(s, i)) % TOPLESS < n
  }

  lemma NarrowedIs(s: State, i: nat)
    requires Wide(s) && i < PROBS && Probable(s.sd[i])
    ensures var n := Narrowed(s, i);
            s.code >= s.nrange ==>
              Bound(s, i) <= s.nrange && n.nrange == s.nrange - Bound(s, i) && n.code == s.code - Bound(s, i)
  {
    BoundFits(s.nrange, s.sd[i]);
  }

  // A code inside the range stays inside. Outside it the bit is one, and the code is inside
  // afterwards if and only if it overflows into the range, for which it has to have 57 bits.
  lemma RangeKept(s: State, i: nat)
    requires Wide(s) && i < PROBS
    ensures Probable(s.sd[i])
    ensures InRange(s) ==> InRange(DecodeBit(s, i).0)
    ensures !InRange(s) ==>
      && Bound(s, i) <= s.code && DecodeBit(s, i).1
      && (InRange(DecodeBit(s, i).0) <==> Overflows(s, i))
      && (Overflows(s, i) ==> s.code >= TOPLESS)
  {
    hide Refill, Narrowed, Probable, Wide, Bound;
    WideIs(s, i);
    DecodeKeeps(s, i);
    NarrowedWide(s, i);
    NarrowedIs(s, i);
    var n := Narrowed(s, i);
    RefillRange(n);
    WideParts(s, i);
    if n.code < TOPLESS {
      SmallCode(n.code);
    }
  }

  // What is outside the range may so come back inside.
  lemma ComesBack(s: State)
    requires s.nrange == TOP && s.code == TOPLESS + TOP / 2 && s.sd == seq(PROBS, _ => 0x400)
    ensures Wide(s) && !InRange(s) && InRange(DecodeBit(s, 0).0)
  {
    assert Bound(s, 0) == TOP / 2;
    RangeKept(s, 0);
  }

  // Any bits one after another, with any of the probabilities.
  function DecodeBits(s: State, indices: seq<nat>): (State, seq<bool>)
    requires Wide(s) && forall k :: 0 <= k < |indices| ==> indices[k] < PROBS
    decreases |indices|
  {
    if indices == [] then (s, [])
    else
      DecodeKeeps(s, indices[0]);
      var (t, bit) := DecodeBit(s, indices[0]);
      var (u, bits) := DecodeBits(t, indices[1..]);
      (u, [bit] + bits)
  }

  // A code inside the range is still inside after any of them. One outside it has come back inside,
  // or every bit was one.
  lemma {:induction false} BitsKeepRange(s: State, indices: seq<nat>)
    requires Wide(s) && forall k :: 0 <= k < |indices| ==> indices[k] < PROBS
    ensures Wide(DecodeBits(s, indices).0) && |DecodeBits(s, indices).1| == |indices|
    ensures InRange(s) ==> InRange(DecodeBits(s, indices).0)
    ensures !InRange(DecodeBits(s, indices).0) ==> forall k :: 0 <= k < |indices| ==> DecodeBits(s, indices).1[k]
    decreases |indices|
  {
    hide DecodeBit, Wide, InRange, Probable, Overflows;
    if indices != [] {
      WideIs(s, indices[0]);
      DecodeKeeps(s, indices[0]);
      RangeKept(s, indices[0]);
      BitsKeepRange(DecodeBit(s, indices[0]).0, indices[1..]);
    }
  }

  lemma WideIs(s: State, i: nat)
    requires Wide(s) && i < PROBS
    ensures TOP <= s.nrange < FULL && |s.sd| == PROBS && Probable(s.sd[i]) && s.sd[i] <= 0x800
  {
  }

  lemma ProbablyFits(p: nat)
    requires Probable(p)
    ensures p <= 0x800
  {
  }

  // A refill that is repeated until the range is wide.
  function RefillLoop(s: State): State
    decreases if s.nrange < TOP then TOP - s.nrange else 0
  {
    if 0 < s.nrange < TOP then RefillLoop(Refill(s)) else s
  }

  // The decoder with a refilling loop is the same decoder.
  lemma LoopNotNeeded(s: State, i: nat)
    requires Wide(s) && i < PROBS
    ensures Probable(s.sd[i]) && RefillLoop(Narrowed(s, i)) == DecodeBit(s, i).0
  {
    hide Narrowed;
    NarrowedWide(s, i);
    var n := Narrowed(s, i);
    RefillWide(n);
    assert RefillLoop(Refill(n)) == Refill(n);
  }

  // --- one byte of the main stream ---

  datatype Outcome = Fine | AtEnd | CutShort

  // The state after the byte, what was written, whether the loop goes on, and how it ended if not.
  datatype Turn = Turn(next: State, out: seq<byte>, more: bool, err: Outcome)

  function BigEndian(b: seq<byte>): u32
    requires |b| == 4
  {
    var b0: int, b1: int, b2: int, b3: int := b[0], b[1], b[2], b[3];
    b0 * 0x100_0000 + b1 * 0x1_0000 + b2 * 0x100 + b3
  }

  function LittleEndian(v: u32): (b: seq<byte>)
    ensures |b| == 4
  {
    [v % 0x100, v / 0x100 % 0x100, v / 0x1_0000 % 0x100, v / 0x100_0000]
  }

  function Operands(s: State, b: byte): seq<byte> {
    if b == 0xe8 then s.call else s.jump
  }

  function WithOperands(s: State, b: byte, rest: seq<byte>): State {
    if b == 0xe8 then s.(call := rest) else s.(jump := rest)
  }

  // The operand of branch b: four bytes of its stream, made relative to the place behind it.
  function Operand(s: State, b: byte): (t: Turn)
    ensures !t.more
  {
    var src := Operands(s, b);
    if src == [] then Turn(s, [], false, AtEnd)
    else if |src| < 4 then Turn(WithOperands(s, b, []), [], false, CutShort)
    else
      var dest: u32 := (BigEndian(src[..4]) - (s.written + 4)) % FULL;
      var t := WithOperands(s, b, src[4..]);
      Turn(t.(previous := dest / 0x100_0000, written := (s.written + 4) % FULL), LittleEndian(dest), false, Fine)
  }

  function Step(s: State): (t: Turn)
    requires s.main != [] && Wide(s)
    ensures |t.next.main| == |s.main| - 1 && |t.out| > 0
  {
    var b := s.main[0];
    var s1 := s.(main := s.main[1..], written := (s.written + 1) % FULL);
    if !IsJ(s.previous, b) then Turn(s1.(previous := b), [b], true, Fine)
    else
      var i := Index(s.previous, b);
      assert Probable(s1.sd[i]);
      var (s2, bit) := DecodeBit(s1, i);
      if bit then
        var t := Operand(s2, b);
        t.(out := [b] + t.out)
      else Turn(s2.(previous := b), [b], false, Fine)
  }

  lemma StepKeeps(s: State)
    requires s.main != [] && Wide(s)
    ensures Wide(Step(s).next) && (InRange(s) ==> InRange(Step(s).next))
  {
    hide Narrowed, Refill, Probable, Overflows;
    var b := s.main[0];
    var s1 := s.(main := s.main[1..], written := (s.written + 1) % FULL);
    if IsJ(s.previous, b) {
      DecodeKeeps(s1, Index(s.previous, b));
      RangeKept(s1, Index(s.previous, b));
    }
  }

  // Everything that is still to be written.
  function Merge(s: State): seq<byte>
    requires Wide(s)
    decreases |s.main|
  {
    if s.main == [] then []
    else
      StepKeeps(s);
      Step(s).out + Merge(Step(s).next)
  }

  // No branch that was moved lacks its operand.
  ghost predicate Complete(s: State)
    requires Wide(s)
    decreases |s.main|
  {
    s.main == [] ||
    (StepKeeps(s);
     Step(s).err == Fine && Complete(Step(s).next))
  }

  lemma CompleteStep(s: State)
    requires Wide(s) && s.main != []
    ensures Wide(Step(s).next) && |Step(s).next.main| < |s.main|
    ensures Complete(s) ==> Step(s).err == Fine && Complete(Step(s).next)
  {
    hide Step, Wide;
    StepKeeps(s);
  }

  // --- behind the end of the range stream ---

  // The same decoder, with a zero behind its range stream, or with that zero read.
  predicate Longer(s: State, t: State) {
    t == s.(rd := t.rd) && (t.rd == s.rd || t.rd == s.rd + [0])
  }

  lemma BitLonger(s: State, t: State, i: nat)
    requires Longer(s, t) && |s.sd| == PROBS && i < PROBS && s.sd[i] <= 0x800
    ensures Longer(DecodeBit(s, i).0, DecodeBit(t, i).0) && DecodeBit(s, i).1 == DecodeBit(t, i).1
  {
    hide Bound;
    var m, n := Narrowed(s, i), Narrowed(t, i);
    assert Bound(s, i) == Bound(t, i) by { BoundIs(s, t, i); }
    assert Longer(m, n);
    RefillLonger(m, n);
  }

  lemma BoundIs(s: State, t: State, i: nat)
    requires i < |s.sd| && s.sd == t.sd && s.nrange == t.nrange
    ensures Bound(s, i) == Bound(t, i)
  {
  }

  lemma RefillLonger(s: State, t: State)
    requires Longer(s, t)
    ensures Longer(Refill(s), Refill(t))
  {
    if t.rd != s.rd && s.rd != [] {
      assert t.rd[1..] == s.rd[1..] + [0];
    }
  }

  lemma StepLonger(s: State, t: State)
    requires Wide(s) && Longer(s, t) && s.main != []
    ensures Wide(t) && Longer(Step(s).next, Step(t).next)
    ensures Step(s).out == Step(t).out && Step(s).err == Step(t).err
  {
    hide DecodeBit, BigEndian, LittleEndian;
    var b := s.main[0];
    if IsJ(s.previous, b) {
      var i := Index(s.previous, b);
      assert Probable(s.sd[i]);
      BitLonger(s.(main := s.main[1..], written := (s.written + 1) % FULL),
                t.(main := s.main[1..], written := (s.written + 1) % FULL), i);
    }
  }

  // The range stream reads as if zeros followed it: putting one there changes nothing.
  lemma {:induction false} ZerosBehind(s: State, t: State)
    requires Wide(s) && Longer(s, t)
    ensures Wide(t) && Merge(s) == Merge(t) && (Complete(s) <==> Complete(t))
    decreases |s.main|
  {
    hide Step, Wide;
    WideLonger(s, t);
    if s.main != [] {
      StepKeeps(s);
      StepKeeps(t);
      StepLonger(s, t);
      ZerosBehind(Step(s).next, Step(t).next);
    }
  }

  lemma WideLonger(s: State, t: State)
    requires Wide(s) && Longer(s, t)
    ensures Wide(t)
  {
  }

  // --- what the last bytes leave behind ---

  // written counts the bytes written, and previous is the last of them.
  ghost predicate Tracks(s: State, out: seq<byte>) {
    s.written == |out| % FULL && s.previous == (if out == [] then 0 else out[|out| - 1])
  }

  lemma CountMore(n: nat, k: nat)
    ensures (n % FULL + k) % FULL == (n + k) % FULL
  {
    Words.WrapTwice(n, k);
  }

  // A bit touches nothing but the range decoder.
  lemma DecodeLeaves(s: State, i: nat)
    requires Wide(s) && i < PROBS
    ensures Probable(s.sd[i])
    ensures var t := DecodeBit(s, i).0;
            && t.main == s.main && t.call == s.call && t.jump == s.jump
            && t.previous == s.previous && t.written == s.written
  {
  }

  // Unless a branch's operand is missing, that stays so.
  lemma StepTracks(s: State, out: seq<byte>)
    requires s.main != [] && Wide(s) && Tracks(s, out) && Step(s).err == Fine
    ensures Tracks(Step(s).next, out + Step(s).out)
  {
    hide Narrowed, Refill, Wide, Probable;
    CountMore(|out|, 1);
    CountMore(|out| + 1, 4);
    var t := Step(s);
    var s1 := s.(main := s.main[1..], written := (s.written + 1) % FULL);
    if IsJ(s.previous, s.main[0]) {
      SameRange(s, s1);
      DecodeLeaves(s1, Index(s.previous, s.main[0]));
    }
    assert t.out == [s.main[0]] || |t.out| == 5;
    if |t.out| == 5 {
      assert (out + t.out)[|out| + 4] == t.out[4];
    } else {
      assert (out + t.out)[|out|] == t.out[0];
    }
  }

  // The operand added to the number of bytes written up to its end is the address that stands in
  // the operand stream.
  lemma OperandTarget(s: State, b: byte, out: seq<byte>)
    requires s.written == |out| % FULL && |Operands(s, b)| >= 4
    ensures var t := Operand(s, b);
            && |t.out| == 4
            && (BigEndian([t.out[3], t.out[2], t.out[1], t.out[0]]) + |out + t.out|) % FULL
               == BigEndian(Operands(s, b)[..4])
  {
    hide BigEndian, LittleEndian;
    var target := BigEndian(Operands(s, b)[..4]);
    var dest: u32 := (target - (s.written + 4)) % FULL;
    Reversed(dest);
    Relative(target, s.written, |out|, dest);
  }

  lemma Reversed(v: u32)
    ensures var b := LittleEndian(v); BigEndian([b[3], b[2], b[1], b[0]]) == v
  {
    var q := v / 0x100;
    var r := q / 0x100;
    assert v == 0x100 * q + v % 0x100 && q == 0x100 * r + q % 0x100 && r == 0x100 * (r / 0x100) + r % 0x100;
    assert v / 0x1_0000 == r && v / 0x100_0000 == r / 0x100;
  }

  lemma Relative(target: u32, written: u32, n: nat, dest: u32)
    requires written == n % FULL && dest == (target - (written + 4)) % FULL
    ensures (dest + (n + 4)) % FULL == target
  {
  }

  // The decoder before the first byte: five bytes of the range stream are its code.
  function Start(main: seq<byte>, call: seq<byte>, jump: seq<byte>, rd: seq<byte>): State
    requires |rd| >= 5
  {
    State(main, call, jump, rd[5..], FULL - 1, BigEndian(rd[1..5]) + rd[0] * FULL, seq(PROBS, _ => 0x400), 0, 0)
  }

  // --- the reader ---

  class ReadCloser {
    var main: seq<byte>
    var call: seq<byte>
    var jump: seq<byte>
    var rd: seq<byte>
    var nrange: nat
    var code: nat
    const sd: array<nat>
    var previous: byte
    var written: u32
    // decoded bytes that were not given out yet
    var buf: seq<byte>

    // everything given out so far
    ghost var given: seq<byte>

    ghost function Now(): State
      reads this, sd
    {
      State(main, call, jump, rd, nrange, code, sd[..], previous, written)
    }

    ghost predicate Valid()
      reads this, sd
    {
      sd.Length == PROBS && Wide(Now())
    }

    ghost function Whole(): seq<byte>
      requires Valid()
      reads this, sd
    {
      given + buf + Merge(Now())
    }

    // The first five bytes of the range stream fill the code. The range decoder starts in range
    // exactly when the first is zero and the others are not all ones.
    constructor (main: seq<byte>, call: seq<byte>, jump: seq<byte>, rd: seq<byte>)
      requires |rd| >= 5
      ensures buf == [] && given == [] && this.main == main && this.rd == rd[5..] && fresh(sd)
      ensures Valid() && (InRange(Now()) <==> rd[0] == 0 && rd[1..5] != [0xff, 0xff, 0xff, 0xff])
      ensures Now() == Start(main, call, jump, rd)
    {
      this.main, this.call, this.jump, this.rd := main, call, jump, rd[5..];
      nrange := FULL - 1;
      code := BigEndian(rd[1..5]) + rd[0] * FULL;
      sd := new nat[PROBS](_ => 0x400);
      previous, written, buf, given := 0, 0, [], [];
    }

    // The range gets a byte's worth of room when it is narrow.
    method Update()
      requires 0x1_0000 <= nrange < FULL
      modifies this`rd, this`code, this`nrange
      ensures Now() == Refill(old(Now())) && TOP <= nrange < FULL
    {
      if nrange < TOP {
        var b: byte := 0;
        if |rd| > 0 {
          b := rd[0];
          rd := rd[1..];
        }
        code := (code * 0x100 + b) % UINT;
        nrange := nrange * 0x100;
      }
    }

    // One bit, with probability i, which is adapted.
    method Decode(i: nat) returns (bit: bool)
      requires Valid() && i < PROBS
      modifies this`rd, this`code, this`nrange, sd
      ensures Valid() && Probable(old(Now().sd[i])) && (Now(), bit) == DecodeBit(old(Now()), i)
      ensures old(InRange(Now())) ==> InRange(Now())
    {
      hide Wide, InRange, Refill, Probable;
      ghost var s := Now();
      NarrowedWide(s, i);
      ProbablyFits(s.sd[i]);
      DecodeKeeps(s, i);
      RangeKept(s, i);
      BoundFits(nrange, sd[i]);
      var newBound := nrange / 0x800 * sd[i];
      bit := code >= newBound;
      if !bit {
        nrange := newBound;
        sd[i] := sd[i] + (0x800 - sd[i]) / 0x20;
      } else {
        nrange := nrange - newBound;
        code := code - newBound;
        sd[i] := sd[i] - sd[i] / 0x20;
      }
      assert Now() == Narrowed(s, i);
      Update();
    }

    // The operand of a branch is moved into place.
    method MoveOperand(b: byte) returns (err: Outcome)
      modifies this`call, this`jump, this`buf, this`previous, this`written
      ensures var t := Operand(old(Now()), b);
              Now() == t.next && buf == old(buf) + t.out && err == t.err
    {
      hide BigEndian, LittleEndian;
      var src := if b == 0xe8 then call else jump;
      if |src| == 0 {
        return AtEnd;
      }
      var rest := if |src| < 4 then [] else src[4..];
      if b == 0xe8 {
        call := rest;
      } else {
        jump := rest;
      }
      if |src| < 4 {
        return CutShort;
      }
      var dest: u32 := (BigEndian(src[..4]) - (written + 4)) % FULL;
      buf := buf + LittleEndian(dest);
      previous := dest / 0x100_0000;
      written := (written + 4) % FULL;
      return Fine;
    }

    // One byte of the main stream, and what belongs to it.
    method TakeByte() returns (more: bool, err: Outcome)
      requires Valid() && |main| > 0
      modifies this, sd
      ensures given == old(given)
      ensures Valid()
      ensures var t := Step(old(Now()));
              Now() == t.next && buf == old(buf) + t.out && more == t.more && err == t.err
      ensures old(InRange(Now())) ==> InRange(Now())
    {
      hide Wide, InRange, DecodeBit, Operand, Probable, IsJ, Index;
      ghost var s := Now();
      StepKeeps(s);
      var b := main[0];
      main := main[1..];
      written := (written + 1) % FULL;
      buf := buf + [b];
      if !IsJ(previous, b) {
        previous := b;
        return true, Fine;
      }
      SameRange(s, Now());
      var bit := Decode(Index(previous, b));
      if bit {
        err := MoveOperand(b);
        return false, err;
      }
      previous := b;
      return false, Fine;
    }

    // Bytes of the main stream until a branch was dealt with, the buffer is full or the stream
    // ends. Nothing is lost or added, wherever it stops, and the code stays inside the range.
    method Fill(capacity: nat) returns (err: Outcome)
      requires Valid()
      modifies this, sd
      ensures Valid() && Whole() == old(Whole()) && given == old(given)
      ensures old(InRange(Now())) ==> InRange(Now())
      ensures old(Complete(Now())) ==> Complete(Now()) && err != CutShort
      ensures |buf| >= |old(buf)|
      ensures old(main) == [] ==> err == AtEnd && buf == old(buf) && main == []
      ensures old(main) != [] ==> |buf| > |old(buf)| && |main| < |old(main)|
    {
      hide Merge, Step, Wide, InRange, Complete;
      while true
        invariant Valid() && Whole() == old(Whole()) && given == old(given)
        invariant old(InRange(Now())) ==> InRange(Now())
        invariant old(Complete(Now())) ==> Complete(Now())
        invariant if |main| == |old(main)| then main == old(main) && buf == old(buf)
                  else |buf| > |old(buf)| && |main| < |old(main)|
        decreases |main|
      {
        if |main| == 0 {
          return AtEnd;
        }
        MergeStep(Now(), given, buf);
        CompleteStep(Now());
        var more, e := TakeByte();
        if !more {
          return e;
        }
        if |buf| == capacity {
          return Fine;
        }
      }
    }

    // One filling and then what is there, at least a byte unless the stream is at its end or
    // ends inside an operand. Whatever the sizes of the reads, the bytes come in the same order.
    method Read(len: nat, capacity: nat) returns (p: seq<byte>, err: Outcome)
      requires Valid()
      modifies this, sd
      ensures Valid() && Whole() == old(Whole()) && given == old(given) + p && |p| <= len
      ensures old(InRange(Now())) ==> InRange(Now())
      ensures old(Complete(Now())) ==> Complete(Now()) && err != CutShort
      ensures len > 0 && p == [] ==> err != Fine
      ensures err == AtEnd ==> p == [] && buf == [] && main == []
    {
      hide Merge, Wide, InRange, Complete;
      var e := Fill(capacity);
      if e == CutShort {
        return [], e;
      }
      var n := Min(len, |buf|);
      p := buf[..n];
      assert given + buf == (given + p) + buf[n..];
      given := given + p;
      err := if len > 0 && |buf| == 0 then AtEnd else Fine;
      buf := buf[n..];
    }
  }

  lemma SameRange(s: State, t: State)
    requires Wide(s) && t.nrange == s.nrange && t.sd == s.sd
    ensures Wide(t)
  {
  }

  lemma MergeStep(s: State, given: seq<byte>, buf: seq<byte>)
    requires Wide(s) && s.main != []
    ensures Wide(Step(s).next) && |Step(s).next.main| == |s.main| - 1 && |Step(s).out| > 0
    ensures given + buf + Merge(s) == given + (buf + Step(s).out) + Merge(Step(s).next)
  {
    hide Step, Wide;
    StepKeeps(s);
  }
}
