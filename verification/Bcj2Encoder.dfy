/** An encoder for BCJ2: it says what the decoder has to make of the four streams. */
module Bcj2Encoder {
  import opened Basics
  import opened HeaderData
  import B = Bcj2

  // --- which probability a branch has ---

  // One for every byte before a call, one for all jumps, one for all conditional jumps.
  function Slot(before: byte, b: byte): Option<nat> {
    var call: nat := before;
    if b == 0xe8 then Some(call)
    else if b == 0xe9 then Some(256)
    else if before == 0x0f && 0x80 <= b < 0x90 then Some(257)
    else None
  }

  lemma SlotIs(before: byte, b: byte)
    ensures B.IsJ(before, b) <==> Slot(before, b).Some?
    ensures B.IsJ(before, b) ==> B.Index(before, b) == Slot(before, b).value
  {
  }

  // Two branches share a probability if and only if they are calls behind the same byte, jumps, or neither.
  lemma SharedIff(p: byte, b: byte, q: byte, c: byte)
    ensures B.Index(p, b) == B.Index(q, c) <==>
            || (b == c == 0xe8 && p == q)
            || b == c == 0xe9
            || (b !in {0xe8, 0xe9} && c !in {0xe8, 0xe9})
  {
  }

  // --- the range ---

  datatype Range = Range(width: nat, probs: seq<nat>)

  ghost predicate Ranged(r: Range) {
    && 0x100_0000 <= r.width < 0x1_0000_0000 && |r.probs| == 258
    && forall i :: 0 <= i < 258 ==> 31 <= r.probs[i] <= 2017
  }

  // The part of the range that stands for a zero.
  function Cut(r: Range, i: nat): nat
    requires i < |r.probs|
  {
    r.width / 2048 * r.probs[i]
  }

  lemma CutInside(r: Range, i: nat)
    requires Ranged(r) && i < 258
    ensures r.probs[i] <= 2048 && 0 < Cut(r, i) < r.width
  {
    var s := Known(r);
    assert B.Probable(s.sd[i]);
    B.WideParts(s, i);
  }

  // The part that a bit chooses, and the probability that comes closer to it.
  function Chosen(r: Range, i: nat, bit: bool): Range
    requires Ranged(r) && i < 258
  {
    CutInside(r, i);
    if bit then Range(r.width - Cut(r, i), r.probs[i := r.probs[i] - r.probs[i] / 32])
    else Range(Cut(r, i), r.probs[i := r.probs[i] + (2048 - r.probs[i]) / 32])
  }

  function Refilled(r: Range): Range {
    if r.width < 0x100_0000 then r.(width := r.width * 0x100) else r
  }

  // A place in the range, and the bytes that will refine it.
  datatype Place = Place(code: nat, bytes: seq<byte>)

  // The place before a bit for the place after it.
  function Before(r: Range, i: nat, bit: bool, p: Place): Place
    requires Ranged(r) && i < 258
  {
    var q := if Chosen(r, i, bit).width < 0x100_0000 then Place(p.code / 0x100, [p.code % 0x100] + p.bytes) else p;
    q.(code := q.code + if bit then Cut(r, i) else 0)
  }

  // --- the encoder ---

  datatype Streams = Streams(main: seq<byte>, call: seq<byte>, jump: seq<byte>, place: Place)

  function Little(b: seq<byte>): u32
    requires |b| == 4
  {
    var b0: int, b1: int, b2: int, b3: int := b[0], b[1], b[2], b[3];
    b0 + 0x100 * b1 + 0x1_0000 * b2 + 0x100_0000 * b3
  }

  function Big(v: u32): (b: seq<byte>)
    ensures |b| == 4
  {
    [v / 0x100_0000, v / 0x1_0000 % 0x100, v / 0x100 % 0x100, v % 0x100]
  }

  lemma RangedParts(r: Range, i: nat, bit: bool)
    requires Ranged(r) && i < 258
    ensures var n := Chosen(r, i, bit); 0x1_0000 <= n.width < 0x1_0000_0000 && Ranged(Refilled(n))
  {
    var s := Known(r);
    assert B.Probable(s.sd[i]);
    B.WideParts(s, i);
    B.ProbabilityMoves(s.sd[i]);
  }

  // The decoder that has that range.
  function Known(r: Range): (s: B.State) {
    B.State([], [], [], [], r.width, 0, r.probs, 0, 0)
  }

  // Bytes are split over the streams. `pick` says, by how many bytes are left, which branches move their
  // operand, as the address it leads to, to a stream of its own.
  function Encode(x: seq<byte>, before: byte, written: u32, r: Range, pick: nat -> bool): (e: Streams)
    requires Ranged(r)
    decreases |x|
  {
    if x == [] then Streams([], [], [], Place(0, []))
    else
      var b := x[0];
      match Slot(before, b)
      case None =>
        var e := Encode(x[1..], b, (written + 1) % 0x1_0000_0000, r, pick);
        e.(main := [b] + e.main)
      case Some(i) =>
        var move := pick(|x|) && |x| >= 5;
        RangedParts(r, i, move);
        var next := Refilled(Chosen(r, i, move));
        if move then
          var e := Encode(x[5..], x[4], (written + 5) % 0x1_0000_0000, next, pick);
          var target := Big((Little(x[1..5]) + written + 5) % 0x1_0000_0000);
          Streams([b] + e.main, if b == 0xe8 then target + e.call else e.call,
                  if b == 0xe8 then e.jump else target + e.jump, Before(r, i, move, e.place))
        else
          var e := Encode(x[1..], b, (written + 1) % 0x1_0000_0000, next, pick);
          e.(main := [b] + e.main, place := Before(r, i, move, e.place))
  }

  // --- the decoder undoes it ---

  function StateOf(e: Streams, before: byte, written: u32, r: Range): B.State {
    B.State(e.main, e.call, e.jump, e.place.bytes, r.width, e.place.code, r.probs, before, written)
  }

  lemma RangedWide(r: Range, s: B.State)
    requires Ranged(r) && s.nrange == r.width && s.sd == r.probs
    ensures B.Wide(s)
  {
  }

  lemma CutIs(r: Range, s: B.State, i: nat)
    requires i < |r.probs| && s.nrange == r.width && s.sd == r.probs
    ensures B.Bound(s, i) == Cut(r, i)
  {
  }

  lemma Quotient(code: nat, width: nat)
    requires code < width * 0x100
    ensures code / 0x100 < width && code / 0x100 * 0x100 + code % 0x100 == code
  {
  }

  // The place before a bit is in the range, and from there the decoder finds the bit and the place after it.
  lemma BitDecodes(s: B.State, r: Range, i: nat, bit: bool, p: Place)
    requires Ranged(r) && i < 258 && s.nrange == r.width && s.sd == r.probs
    requires var q := Before(r, i, bit, p); s.code == q.code && s.rd == q.bytes
    requires p.code < Refilled(Chosen(r, i, bit)).width < 0x1_0000_0000
    ensures s.code < r.width && B.Wide(s) && s.sd[i] <= 0x800
    ensures var next := Refilled(Chosen(r, i, bit));
            B.DecodeBit(s, i) == (s.(rd := p.bytes, nrange := next.width, code := p.code, sd := next.probs), bit)
  {
    hide Cut, B.Bound, B.Wide, Ranged;
    RangedWide(r, s);
    B.WideIs(s, i);
    CutInside(r, i);
    CutIs(r, s, i);
    var n := Chosen(r, i, bit);
    if n.width < 0x100_0000 {
      Quotient(p.code, n.width);
    }
  }

  lemma BigBack(v: u32)
    ensures B.BigEndian(Big(v)) == v
  {
    var q := v / 0x100;
    var r := q / 0x100;
    assert v == 0x100 * q + v % 0x100 && q == 0x100 * r + q % 0x100 && r == 0x100 * (r / 0x100) + r % 0x100;
    assert v / 0x1_0000 == r && v / 0x100_0000 == r / 0x100;
  }

  lemma LittleBack(b: seq<byte>)
    requires |b| == 4
    ensures B.LittleEndian(Little(b)) == b && Little(b) / 0x100_0000 == b[3]
  {
    var b0: int, b1: int, b2: int, b3: int := b[0], b[1], b[2], b[3];
    var v := Little(b);
    var q := b1 + 0x100 * b2 + 0x1_0000 * b3;
    var r := b2 + 0x100 * b3;
    assert v == 0x100 * q + b0 && q == 0x100 * r + b1;
    assert v / 0x100 == q && v % 0x100 == b0;
    assert q / 0x100 == r && q % 0x100 == b1 && v / 0x1_0000 == r && v / 0x100_0000 == r / 0x100;
  }

  lemma TargetBack(d: u32, written: u32)
    ensures ((d + written + 5) % 0x1_0000_0000 - ((written + 1) % 0x1_0000_0000 + 4)) % 0x1_0000_0000 == d
    ensures ((written + 1) % 0x1_0000_0000 + 4) % 0x1_0000_0000 == (written + 5) % 0x1_0000_0000
  {
    var a, c := (d + written + 5) / 0x1_0000_0000, (written + 1) / 0x1_0000_0000;
    assert (d + written + 5) % 0x1_0000_0000 == d + written + 5 - a * 0x1_0000_0000;
    assert (written + 1) % 0x1_0000_0000 == written + 1 - c * 0x1_0000_0000;
  }

  // The address in front of its stream becomes the operand.
  lemma OperandDecodes(s: B.State, b: byte, operand: seq<byte>, written: u32, rest: seq<byte>)
    requires |operand| == 4 && s.written == (written + 1) % 0x1_0000_0000
    requires B.Operands(s, b) == Big((Little(operand) + written + 5) % 0x1_0000_0000) + rest
    ensures B.Operand(s, b)
            == B.Turn(B.WithOperands(s, b, rest).(previous := operand[3], written := (written + 5) % 0x1_0000_0000),
                                      operand, false, B.Fine)
  {
    hide B.BigEndian, B.LittleEndian, Big, Little;
    var target := Big((Little(operand) + written + 5) % 0x1_0000_0000);
    assert (target + rest)[..4] == target && (target + rest)[4..] == rest;
    BigBack((Little(operand) + written + 5) % 0x1_0000_0000);
    TargetBack(Little(operand), written);
    LittleBack(operand);
  }

  // --- one branch or byte ---

  ghost predicate Undone(s: B.State, next: B.State, out: seq<byte>) {
    && B.Wide(s) && s.main != []
    && B.Step(s).next == next && B.Step(s).out == out && B.Step(s).err == B.Fine
  }

  lemma PlainUndone(s: B.State, b: byte, main: seq<byte>)
    requires B.Wide(s) && s.main == [b] + main && Slot(s.previous, b).None?
    ensures Undone(s, s.(main := main, previous := b, written := (s.written + 1) % 0x1_0000_0000), [b])
  {
    hide B.Wide, B.DecodeBit, B.Operand, B.IsJ, B.Index, Slot;
    SlotIs(s.previous, b);
    assert s.main[1..] == main;
  }

  lemma KeptUndone(s: B.State, b: byte, main: seq<byte>, r: Range, i: nat, p: Place)
    requires Ranged(r) && i < 258 && s.nrange == r.width && s.sd == r.probs && Slot(s.previous, b) == Some(i)
    requires s.main == [b] + main && p.code < Refilled(Chosen(r, i, false)).width < 0x1_0000_0000
    requires var q := Before(r, i, false, p); s.code == q.code && s.rd == q.bytes
    ensures s.code < r.width
    ensures var n := Refilled(Chosen(r, i, false));
            Undone(s, s.(main := main, previous := b, written := (s.written + 1) % 0x1_0000_0000, rd := p.bytes,
                         nrange := n.width, code := p.code, sd := n.probs), [b])
  {
    hide B.Wide, B.DecodeBit, B.Operand, B.IsJ, B.Index, Slot, Chosen, Refilled, Before, Ranged, B.Probable;
    SlotIs(s.previous, b);
    assert s.main[1..] == main;
    var s1 := s.(main := main, written := (s.written + 1) % 0x1_0000_0000);
    BitDecodes(s, r, i, false, p);
    BitDecodes(s1, r, i, false, p);
  }

  lemma MovedUndone(s: B.State, b: byte, main: seq<byte>, r: Range, i: nat, p: Place, operand: seq<byte>,
      rest: seq<byte>)
    requires Ranged(r) && i < 258 && s.nrange == r.width && s.sd == r.probs && Slot(s.previous, b) == Some(i)
    requires s.main == [b] + main && p.code < Refilled(Chosen(r, i, true)).width < 0x1_0000_0000
    requires var q := Before(r, i, true, p); s.code == q.code && s.rd == q.bytes
    requires |operand| == 4
    requires (if b == 0xe8 then s.call else s.jump) == Big((Little(operand) + s.written + 5) % 0x1_0000_0000) + rest
    ensures s.code < r.width
    ensures var n := Refilled(Chosen(r, i, true));
            Undone(s, s.(main := main, previous := operand[3],
                         written := (s.written + 5) % 0x1_0000_0000, rd := p.bytes,
                         nrange := n.width, code := p.code, sd := n.probs,
                         call := if b == 0xe8 then rest else s.call, jump := if b == 0xe8 then s.jump else rest),
                   [b] + operand)
  {
    hide B.Wide, B.DecodeBit, B.Operand, B.IsJ, B.Index, Slot, Chosen, Refilled, Before, Ranged, Big, Little,
      B.Probable;
    SlotIs(s.previous, b);
    assert s.main[1..] == main;
    var s1 := s.(main := main, written := (s.written + 1) % 0x1_0000_0000);
    BitDecodes(s, r, i, true, p);
    BitDecodes(s1, r, i, true, p);
    var n := Refilled(Chosen(r, i, true));
    var s2 := s1.(rd := p.bytes, nrange := n.width, code := p.code, sd := n.probs);
    OperandDecodes(s2, b, operand, s.written, rest);
  }

  lemma MergeOn(s: B.State, next: B.State, out: seq<byte>)
    requires Undone(s, next, out)
    ensures B.Wide(next) && B.Merge(s) == out + B.Merge(next) && (B.Complete(next) ==> B.Complete(s))
  {
    hide B.Wide, B.Step;
    B.StepKeeps(s);
  }

  lemma NothingLeft(s: B.State)
    requires B.Wide(s) && s.main == []
    ensures B.Merge(s) == [] && B.Complete(s)
  {
    hide B.Wide;
  }

  // The decoder gives back the bytes, for all bytes and every choice of branches to move: nothing is missing
  // on the way, and the code is in the range.
  lemma {:induction false} MergeEncoded(x: seq<byte>, before: byte, written: u32, r: Range, pick: nat -> bool)
    requires Ranged(r)
    ensures var s := StateOf(Encode(x, before, written, r, pick), before, written, r);
            B.Wide(s) && B.InRange(s) && B.Merge(s) == x && B.Complete(s)
    decreases |x|
  {
    hide B.Merge, B.Complete, B.Wide, Slot, Chosen, Refilled, Before, Ranged, Big, Little, Undone;
    var s := StateOf(Encode(x, before, written, r, pick), before, written, r);
    RangedWide(r, s);
    RangedSome(r);
    if x == [] {
      NothingLeft(s);
    } else {
      var b := x[0];
      match Slot(before, b)
      case None =>
        var at := (written + 1) % 0x1_0000_0000;
        var e := Encode(x[1..], b, at, r, pick);
        MergeEncoded(x[1..], b, at, r, pick);
        PlainUndone(s, b, e.main);
        MergeOn(s, StateOf(e, b, at, r), [b]);
        assert x == [b] + x[1..];
      case Some(i) =>
        var move := pick(|x|) && |x| >= 5;
        SlotSmall(before, b);
        RangedParts(r, i, move);
        var next := Refilled(Chosen(r, i, move));
        RangedSome(next);
        if move {
          var at := (written + 5) % 0x1_0000_0000;
          var e := Encode(x[5..], x[4], at, next, pick);
          MergeEncoded(x[5..], x[4], at, next, pick);
          MovedUndone(s, b, e.main, r, i, e.place, x[1..5], if b == 0xe8 then e.call else e.jump);
          MergeOn(s, StateOf(e, x[4], at, next), [b] + x[1..5]);
          assert x == [b] + x[1..5] + x[5..];
        } else {
          var at := (written + 1) % 0x1_0000_0000;
          var e := Encode(x[1..], b, at, next, pick);
          MergeEncoded(x[1..], b, at, next, pick);
          KeptUndone(s, b, e.main, r, i, e.place);
          MergeOn(s, StateOf(e, b, at, next), [b]);
          assert x == [b] + x[1..];
        }
    }
  }

  lemma SlotSmall(before: byte, b: byte)
    ensures Slot(before, b).Some? ==> Slot(before, b).value < 258
  {
  }

  lemma RangedSome(r: Range)
    requires Ranged(r)
    ensures 0 < r.width < 0x1_0000_0000
  {
  }

  // --- a whole stream ---

  function Fresh(): (r: Range)
    ensures Ranged(r)
  {
    Range(0xffff_ffff, seq(258, _ => 0x400))
  }

  // The first byte of a range stream is zero, the next four are the place in the range.
  function RangeStream(p: Place): (rd: seq<byte>)
    requires p.code < 0x1_0000_0000
    ensures |rd| >= 5
  {
    [0] + Big(p.code) + p.bytes
  }

  lemma StartEncoded(e: Streams)
    requires e.place.code < 0x1_0000_0000
    ensures B.Start(e.main, e.call, e.jump, RangeStream(e.place)) == StateOf(e, 0, 0, Fresh())
  {
    hide B.BigEndian, Big;
    var rd := RangeStream(e.place);
    assert rd[1..5] == Big(e.place.code) && rd[5..] == e.place.bytes;
    BigBack(e.place.code);
  }

  // Bytes that were encoded come back from a reader, in any pieces, and all of them when there are more reads
  // than bytes.
  method EncodeThenRead(x: seq<byte>, pick: nat -> bool, lens: seq<nat>, capacity: nat) returns (got: seq<byte>)
    ensures |got| <= |x| && got == x[..|got|]
    ensures |lens| > |x| && (forall i :: 0 <= i < |lens| ==> lens[i] > 0) ==> got == x
  {
    hide B.Merge, B.Complete, B.Wide, B.InRange, Encode, Ranged, Fresh, B.Start, StateOf;
    var e := Encode(x, 0, 0, Fresh(), pick);
    MergeEncoded(x, 0, 0, Fresh(), pick);
    PlaceFits(e);
    StartEncoded(e);
    var r := new B.ReadCloser(e.main, e.call, e.jump, RangeStream(e.place));
    got := [];
    assert r.Whole() == x;
    for i := 0 to |lens|
      invariant r.Valid() && B.Complete(r.Now()) && r.Whole() == x && r.given == got && fresh(r) && fresh(r.sd)
      invariant (forall k :: 0 <= k < |lens| ==> lens[k] > 0) ==> |got| >= i || got == x
    {
      var p, err := r.Read(lens[i], capacity);
      got := got + p;
      if lens[i] > 0 && p == [] {
        NothingLeft(r.Now());
      }
    }
  }

  lemma PlaceFits(e: Streams)
    requires B.InRange(StateOf(e, 0, 0, Fresh()))
    ensures e.place.code < 0x1_0000_0000
  {
  }
}
