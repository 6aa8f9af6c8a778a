/** The x86 branch filter: a scan for E8/E9 opcodes that rewrites their operands. */
module Bcj {
  import opened Basics
  import opened Words
  import opened BcjOperand

  // E8 (call) or E9 (jump)
  predicate Opcode(b: bv8) {
    b & 0xfe == 0xe8
  }

  // The history mask records the opcodes left alone in the last three bytes: bit 2 one
  // byte back, bit 1 two bytes back, bit 0 three bytes back. Its only use is to block a
  // conversion: always when two are pending, and when the pending one's own last operand
  // byte, which a conversion here would overwrite, is 00 or FF.
  predicate Blocked(s: seq<bv8>, mask: nat)
    requires |s| >= 5 && mask < 8
  {
    mask != 0 && (mask > 4 || mask == 3 || Extreme(s[mask / 2 + 1]))
  }

  predicate Converts(s: seq<bv8>, mask: nat)
    requires |s| >= 5 && mask < 8
  {
    Opcode(s[0]) && !Blocked(s, mask) && Extreme(s[4])
  }

  // The four operand bytes after rewriting; the instruction at s[0] is at address ip.
  function NewOperand(s: seq<bv8>, mask: nat, ip: u32, encoding: bool): (r: seq<bv8>)
    requires |s| >= 5 && mask < 8 && Converts(s, mask)
    ensures |r| == 4
  {
    ToLE(Operand(FromLE(s[1..5]), FromInt(Wrap32(ip + 5)), mask, encoding))
  }

  // What a scan leaves: the bytes, how many of them are final, and the state carried over.
  datatype Scan = Scan(out: seq<bv8>, done: nat, mask: nat, ip: u32)
  {
    function After(head: seq<bv8>): Scan {
      Scan(head + out, |head| + done, mask, ip)
    }
  }

  // One step at a position: the bytes it settles and the mask it leaves.
  datatype Move = Move(head: seq<bv8>, mask: nat)

  // The mask after a byte is passed over.
  function Aged(b: bv8, mask: nat): (m: nat)
    requires mask < 8
    ensures m < 8
  {
    if Opcode(b) then mask / 2 + 4 else mask / 2
  }

  function Next(s: seq<bv8>, mask: nat, ip: u32, encoding: bool): (m: Move)
    requires |s| >= 5 && mask < 8
    ensures 1 <= |m.head| <= 5 && m.mask < 8
  {
    if Converts(s, mask) then Move(s[..1] + NewOperand(s, mask, ip, encoding), 0)
    else Move(s[..1], Aged(s[0], mask))
  }

  // The filter, one step at a time.
  function Run(s: seq<bv8>, mask: nat, ip: u32, encoding: bool): (r: Scan)
    requires mask < 8
    ensures |r.out| == |s| && r.mask < 8
    decreases |s|
  {
    if |s| < 5 then Scan(s, 0, mask, ip)
    else
      var m := Next(s, mask, ip, encoding);
      Run(s[|m.head|..], m.mask, Wrap32(ip + |m.head|), encoding).After(m.head)
  }

  // Run and its steps as equations, for proofs that hide the definitions.
  lemma RunShort(s: seq<bv8>, mask: nat, ip: u32, encoding: bool)
    requires |s| < 5 && mask < 8
    ensures Run(s, mask, ip, encoding) == Scan(s, 0, mask, ip)
  {
  }

  lemma RunSkip(s: seq<bv8>, mask: nat, ip: u32, encoding: bool)
    requires |s| >= 5 && mask < 8 && !Converts(s, mask)
    ensures Run(s, mask, ip, encoding)
            == Run(s[1..], Aged(s[0], mask), Wrap32(ip + 1), encoding).After(s[..1])
  {
    hide NewOperand, Opcode, Extreme;
  }

  lemma RunConvert(s: seq<bv8>, mask: nat, ip: u32, encoding: bool)
    requires |s| >= 5 && mask < 8 && Converts(s, mask)
    ensures Run(s, mask, ip, encoding)
            == Run(s[5..], 0, Wrap32(ip + 5), encoding).After(s[..1] + NewOperand(s, mask, ip, encoding))
  {
  }

  lemma RunLong(s: seq<bv8>, mask: nat, ip: u32, encoding: bool)
    requires |s| >= 5 && mask < 8
    ensures var m := Next(s, mask, ip, encoding);
            Run(s, mask, ip, encoding) == Run(s[|m.head|..], m.mask, Wrap32(ip + |m.head|), encoding).After(m.head)
  {
  }

  // At most four bytes stay unconverted, they are untouched, and ip has moved with the rest.
  predicate Shape(s: seq<bv8>, ip: u32, r: Scan) {
    && |r.out| == |s| && r.done <= |s| <= r.done + 4
    && (|s| >= 5 ==> r.done > 0)
    && r.out[r.done..] == s[r.done..]
    && r.ip == Wrap32(ip + r.done)
  }

  lemma ShapeAfter(s: seq<bv8>, ip: u32, head: seq<bv8>, r: Scan)
    requires 0 < |head| <= |s| && Shape(s[|head|..], Wrap32(ip + |head|), r)
    ensures Shape(s, ip, r.After(head))
  {
    var k := |head|;
    assert (head + r.out)[k + r.done..] == r.out[r.done..] == s[k..][r.done..] == s[k + r.done..];
  }

  lemma {:induction false} RunShape(s: seq<bv8>, mask: nat, ip: u32, encoding: bool)
    requires mask < 8
    ensures Shape(s, ip, Run(s, mask, ip, encoding))
    decreases |s|
  {
    hide Next;
    if |s| >= 5 {
      var m := Next(s, mask, ip, encoding);
      var k := |m.head|;
      RunShape(s[k..], m.mask, Wrap32(ip + k), encoding);
      ShapeAfter(s, ip, m.head, Run(s[k..], m.mask, Wrap32(ip + k), encoding));
    }
  }

  // A conversion leaves an operand that decodes back, and still converts. The byte a
  // pending opcode relies on was not 00 or FF and is not made so.
  lemma NewOperandInverts(s: seq<bv8>, mask: nat, ip: u32, tail: seq<bv8>)
    requires |s| >= 5 && mask < 8 && Converts(s, mask)
    ensures var n := NewOperand(s, mask, ip, true);
            var e := s[..1] + n + tail;
            && Extreme(n[3])
            && (mask != 0 ==> mask / 2 < 3 && !Extreme(n[mask / 2]))
            && Converts(e, mask)
            && NewOperand(e, mask, ip, false) == s[1..5]
  {
    hide Byte0, Byte1, Byte2, Byte3, Join, Operand, Extreme, Opcode;
    var v := FromLE(s[1..5]);
    var cur := FromInt(Wrap32(ip + 5));
    var w := Operand(v, cur, mask, true);
    WordBytes(s[1..5]);
    BytesWord(w);
    OperandInverts(v, cur, mask);
    var e := s[..1] + NewOperand(s, mask, ip, true) + tail;
    assert e[1..5] == ToLE(w);
  }

  // What the rest of an encoding scan does to the bytes a pending opcode looked at. The
  // opcode is `back` bytes behind s, so its last operand byte is s[4 - back].
  predicate Kept(s: seq<bv8>, e: seq<bv8>, mask: nat)
    requires |e| == |s| && mask < 8
  {
    && (mask >= 4 && |s| > 3 ==> if Extreme(s[3]) then e[..4] == s[..4] else !Extreme(e[3]))
    && (mask / 2 % 2 == 1 && |s| > 2 ==> if Extreme(s[2]) then e[..3] == s[..3] else !Extreme(e[2]))
    && (mask % 2 == 1 && |s| > 1 ==> if Extreme(s[1]) then e[..2] == s[..2] else !Extreme(e[1]))
    && (|s| > 0 ==> e[0] == s[0])
  }

  lemma KeptSkip(s: seq<bv8>, f: seq<bv8>, mask: nat)
    requires |f| + 1 == |s| && mask < 8
    requires Kept(s[1..], f, Aged(s[0], mask))
    ensures Kept(s, s[..1] + f, mask)
  {
    hide Opcode, Extreme;
    var e := s[..1] + f;
    if mask >= 4 && |s| > 3 && Extreme(s[3]) {
      assert f[..3] == s[1..][..3];
      assert e[..4] == s[..1] + f[..3];
    }
    if mask / 2 % 2 == 1 && |s| > 2 && Extreme(s[2]) {
      assert f[..2] == s[1..][..2];
      assert e[..3] == s[..1] + f[..2];
    }
  }

  lemma KeptConvert(s: seq<bv8>, n: seq<bv8>, tail: seq<bv8>, mask: nat)
    requires |s| >= 5 && mask < 8 && Converts(s, mask)
    requires |n| == 4 && |tail| + 5 == |s| && (mask != 0 ==> mask / 2 < 3 && !Extreme(n[mask / 2]))
    ensures Kept(s, s[..1] + n + tail, mask)
  {
    hide Opcode, Extreme;
    var e := s[..1] + n + tail;
    assert forall i | 0 <= i < 4 :: e[i + 1] == n[i];
  }

  lemma KeptShort(s: seq<bv8>, mask: nat)
    requires |s| < 5 && mask < 8
    ensures Kept(s, s, mask)
  {
    hide Extreme;
  }

  lemma {:induction false} PendingKept(s: seq<bv8>, mask: nat, ip: u32)
    requires mask < 8
    ensures Kept(s, Run(s, mask, ip, true).out, mask)
    decreases |s|
  {
    hide *;
    if |s| < 5 {
      RunShort(s, mask, ip, true);
      KeptShort(s, mask);
    } else if Converts(s, mask) {
      var rest := Run(s[5..], 0, Wrap32(ip + 5), true);
      RunConvert(s, mask, ip, true);
      NewOperandInverts(s, mask, ip, rest.out);
      AfterState(rest, s[..1] + NewOperand(s, mask, ip, true));
      KeptConvert(s, NewOperand(s, mask, ip, true), rest.out, mask);
    } else {
      var rest := Run(s[1..], Aged(s[0], mask), Wrap32(ip + 1), true);
      RunSkip(s, mask, ip, true);
      PendingKept(s[1..], Aged(s[0], mask), Wrap32(ip + 1));
      AfterState(rest, s[..1]);
      KeptSkip(s, rest.out, mask);
    }
  }

  lemma StillSkipped(s: seq<bv8>, e: seq<bv8>, mask: nat)
    requires |e| == |s| >= 5 && mask < 8
    requires !Converts(s, mask)
    requires e[0] == s[0] && Kept(s[1..], e[1..], Aged(s[0], mask))
    ensures !Converts(e, mask)
  {
    hide Opcode, Extreme;
    assert e[4] == e[1..][3];
    if Opcode(s[0]) && Extreme(s[4]) {
      assert e[1..][..4] == s[1..][..4];
      assert e[1] == e[1..][..4][0] && e[2] == e[1..][..4][1] && e[3] == e[1..][..4][2];
    }
  }

  // Decoding an encoded buffer from the same state restores it and ends in the same state:
  // every position takes the branch it took when encoding.
  lemma {:induction false} DecodeEncode(s: seq<bv8>, mask: nat, ip: u32)
    requires mask < 8
    ensures var e := Run(s, mask, ip, true);
            Run(e.out, mask, ip, false) == e.(out := s)
    decreases |s|
  {
    hide *;
    var e := Run(s, mask, ip, true);
    if |s| < 5 {
      RunShort(s, mask, ip, true);
      RunShort(s, mask, ip, false);
    } else if Converts(s, mask) {
      var n := NewOperand(s, mask, ip, true);
      var rest := Run(s[5..], 0, Wrap32(ip + 5), true);
      RunConvert(s, mask, ip, true);
      AfterState(rest, s[..1] + n);
      NewOperandInverts(s, mask, ip, rest.out);
      DecodeEncode(s[5..], 0, Wrap32(ip + 5));
      assert e.out[5..] == rest.out && e.out[..1] == s[..1];
      RunConvert(e.out, mask, ip, false);
      AfterState(rest.(out := s[5..]), s[..1] + s[1..5]);
      assert s == s[..1] + s[1..5] + s[5..];
    } else {
      var rest := Run(s[1..], Aged(s[0], mask), Wrap32(ip + 1), true);
      RunSkip(s, mask, ip, true);
      AfterState(rest, s[..1]);
      DecodeEncode(s[1..], Aged(s[0], mask), Wrap32(ip + 1));
      PendingKept(s[1..], Aged(s[0], mask), Wrap32(ip + 1));
      assert e.out[1..] == rest.out && e.out[..1] == s[..1] && e.out[0] == s[0];
      StillSkipped(s, e.out, mask);
      RunSkip(e.out, mask, ip, false);
      AfterState(rest.(out := s[1..]), s[..1]);
      assert s == s[..1] + s[1..];
    }
  }

  lemma AfterGlue(x: seq<bv8>, y: seq<bv8>, head: seq<bv8>, rx: Scan, t: Scan)
    requires |head| <= |x| && |rx.out| == |x| - |head| && rx.done <= |rx.out|
    ensures (x + y)[|head|..] == x[|head|..] + y
    ensures x[|head|..][rx.done..] == x[|head| + rx.done..]
    ensures var r := rx.After(head);
            t.After(rx.out[..rx.done]).After(head) == t.After(r.out[..r.done])
  {
    var r := rx.After(head);
    assert r.out[..r.done] == head + rx.out[..rx.done];
  }

  lemma SameNext(x: seq<bv8>, y: seq<bv8>, mask: nat, ip: u32, encoding: bool)
    requires |x| >= 5 && mask < 8
    ensures Next(x + y, mask, ip, encoding) == Next(x, mask, ip, encoding)
  {
    hide Opcode, Extreme, Operand, FromLE, ToLE;
    assert (x + y)[1..5] == x[1..5];
    assert (x + y)[..1] == x[..1];
  }

  lemma AfterNothing(r: Scan)
    ensures r.After([]) == r
  {
  }

  lemma AfterState(r: Scan, head: seq<bv8>)
    ensures var a := r.After(head);
            a == Scan(head + r.out, |head| + r.done, r.mask, r.ip)
  {
  }

  // A scan of a prefix stops short of any byte it would need the rest for: resuming
  // over its unconverted bytes and the rest is the same as never having stopped.
  lemma {:induction false} RunResumes(x: seq<bv8>, y: seq<bv8>, mask: nat, ip: u32, encoding: bool)
    requires mask < 8
    ensures var r := Run(x, mask, ip, encoding);
            && r.done <= |x|
            && Run(x + y, mask, ip, encoding)
               == Run(x[r.done..] + y, r.mask, r.ip, encoding).After(r.out[..r.done])
    decreases |x|
  {
    hide *;
    var r := Run(x, mask, ip, encoding);
    if |x| < 5 {
      RunShort(x, mask, ip, encoding);
      AfterNothing(Run(x + y, mask, ip, encoding));
      assert x[0..] == x && x[..0] == [];
    } else {
      var m := Next(x, mask, ip, encoding);
      var k := |m.head|;
      var rx := Run(x[k..], m.mask, Wrap32(ip + k), encoding);
      RunLong(x, mask, ip, encoding);
      RunLong(x + y, mask, ip, encoding);
      SameNext(x, y, mask, ip, encoding);
      RunResumes(x[k..], y, m.mask, Wrap32(ip + k), encoding);
      AfterState(rx, m.head);
      var t := Run(x[k..][rx.done..] + y, rx.mask, rx.ip, encoding);
      AfterGlue(x, y, m.head, rx, t);
      calc {
        Run(x + y, mask, ip, encoding);
        Run((x + y)[k..], m.mask, Wrap32(ip + k), encoding).After(m.head);
        Run(x[k..] + y, m.mask, Wrap32(ip + k), encoding).After(m.head);
        t.After(rx.out[..rx.done]).After(m.head);
        t.After(r.out[..r.done]);
        Run(x[r.done..] + y, r.mask, r.ip, encoding).After(r.out[..r.done]);
      }
    }
  }

  // The state of a scan that has reached pos: what is left to do, after what is done.
  ghost predicate At(q: Scan, s: seq<bv8>, pos: nat, mask: nat, ip: u32, encoding: bool)
    requires pos <= |s| && mask < 8
  {
    q == Run(s[pos..], mask, Wrap32(ip + pos), encoding).After(s[..pos])
  }

  lemma AtStart(s: seq<bv8>, mask: nat, ip: u32, encoding: bool)
    requires mask < 8
    ensures At(Run(s, mask, ip, encoding), s, 0, mask, ip, encoding)
  {
    hide Run, Scan.After;
    AfterNothing(Run(s, mask, ip, encoding));
    assert s[..0] == [] && s[0..] == s;
  }

  lemma AtSkip(q: Scan, s: seq<bv8>, pos: nat, mask: nat, ip: u32, encoding: bool)
    requires pos + 5 <= |s| && mask < 8
    requires At(q, s, pos, mask, ip, encoding) && !Converts(s[pos..], mask)
    ensures At(q, s, pos + 1, Aged(s[pos], mask), ip, encoding)
  {
    hide Next, Opcode, Aged, Converts, Run, Wrap32, Scan.After;
    RunSkip(s[pos..], mask, Wrap32(ip + pos), encoding);
    assert s[..pos + 1] == s[..pos] + s[pos..][..1];
    assert s[pos..][1..] == s[pos + 1..];
    WrapNext(ip, pos);
    AfterTwice(Run(s[pos + 1..], Aged(s[pos], mask), Wrap32(ip + (pos + 1)), encoding), s[pos..][..1], s[..pos]);
  }

  lemma WrapOperand(ip: u32, p: nat)
    ensures Wrap32(Wrap32(ip + p) + 5) == Wrap32(ip + 5 + p) == Wrap32(ip + (p + 5))
  {
    WrapTwice(ip + p, 5);
  }

  lemma WrapNext(ip: u32, pos: nat)
    ensures Wrap32(Wrap32(ip + pos) + 1) == Wrap32(ip + (pos + 1))
  {
    WrapTwice(ip + pos, 1);
  }

  lemma AfterTwice(r: Scan, a: seq<bv8>, b: seq<bv8>)
    ensures r.After(a).After(b) == r.After(b + a)
  {
  }

  lemma AtConvert(q: Scan, s: seq<bv8>, t: seq<bv8>, pos: nat, mask: nat, ip: u32, encoding: bool)
    requires pos + 5 <= |s| && mask < 8
    requires At(q, s, pos, mask, ip, encoding) && Converts(s[pos..], mask)
    requires t == s[..pos + 1] + NewOperand(s[pos..], mask, Wrap32(ip + pos), encoding) + s[pos + 5..]
    ensures At(q, t, pos + 5, 0, ip, encoding)
  {
    hide Next, Opcode, Aged, Converts, Run, NewOperand, Scan.After, Wrap32;
    var n := NewOperand(s[pos..], mask, Wrap32(ip + pos), encoding);
    RunConvert(s[pos..], mask, Wrap32(ip + pos), encoding);
    Splice(s, n, t, pos);
    WrapOperand(ip, pos);
    AfterTwice(Run(t[pos + 5..], 0, Wrap32(ip + (pos + 5)), encoding), s[pos..][..1] + n, s[..pos]);
  }

  lemma NewOperandAt(s: seq<bv8>, p: nat, mask: nat, ip: u32, encoding: bool)
    requires p + 5 <= |s| && mask < 8 && Converts(s[p..], mask)
    ensures NewOperand(s[p..], mask, Wrap32(ip + p), encoding)
            == ToLE(Operand(FromLE(s[p + 1..p + 5]), FromInt(Wrap32(ip + 5 + p)), mask, encoding))
  {
    hide Operand, FromLE, ToLE, Opcode, Extreme, Converts, Wrap32;
    assert s[p..][1..5] == s[p + 1..p + 5];
    WrapOperand(ip, p);
  }

  lemma Splice(s: seq<bv8>, n: seq<bv8>, t: seq<bv8>, pos: nat)
    requires pos + 5 <= |s| && |n| == 4 && t == s[..pos + 1] + n + s[pos + 5..]
    ensures t[..pos + 5] == s[..pos] + (s[pos..][..1] + n)
    ensures s[pos..][5..] == t[pos + 5..]
  {
  }

  lemma AtEnd(q: Scan, s: seq<bv8>, pos: nat, mask: nat, ip: u32, encoding: bool)
    requires pos <= |s| < pos + 5 && mask < 8
    requires At(q, s, pos, mask, ip, encoding)
    ensures q == Scan(s, pos, mask, Wrap32(ip + pos))
  {
    hide Next, Run;
    RunShort(s[pos..], mask, Wrap32(ip + pos), encoding);
    assert s == s[..pos] + s[pos..];
  }

  // mask >> d, with the cases the code makes of it
  function Shifted(mask: nat, d: nat): (m: nat)
    requires mask < 8
    ensures m < 8
  {
    if d > 2 then 0 else if d == 2 then mask / 4 else if d == 1 then mask / 2 else mask
  }

  lemma TopBytes(v: bv32)
    ensures ToLE(SignTop(v)) == [Byte0(v), Byte1(v), Byte2(v), Spread(Byte3(v))]
  {
    hide Byte0, Byte1, Byte2, Byte3, SignTop, Spread;
    SignTopBytes(v);
  }

  class Filter {
    var ip: u32
    var state: u32

    constructor ()
      ensures ip == 0 && state == 0
    {
      ip, state := 0, 0;
    }

    // The body of the conversion branch: the operand after the opcode at b[p].
    static method Rewrite(b: array<bv8>, p: nat, mask: Lone, cur: bv32, encoding: bool)
      requires p + 5 <= b.Length
      modifies b
      ensures b[..] == old(b[..p + 1]) + ToLE(Operand(FromLE(old(b[p + 1..p + 5])), cur, mask, encoding))
              + old(b[p + 5..])
    {
      hide FromLE, Extreme, GuardByte, FlipLow, SignTop, Step, Operand, ToLE;
      var v := FromLE(b[p + 1..p + 5]);
      OperandIs(v, cur, mask, encoding);
      v := Step(v, cur, encoding);
      if mask != 0 {
        if Extreme(GuardByte(v, mask)) {
          v := Step(FlipLow(v, mask), cur, encoding);
        }
      }
      StoreTop(b, p + 1, v);
    }

    // Its four bytes, the last one made the sign of bit 24.
    static method StoreTop(b: array<bv8>, i: nat, v: bv32)
      requires i + 4 <= b.Length
      modifies b
      ensures b[..] == old(b[..i]) + ToLE(SignTop(v)) + old(b[i + 4..])
    {
      hide Byte0, Byte1, Byte2, Byte3, SignTop, Spread, ToLE;
      b[i], b[i + 1], b[i + 2], b[i + 3] := Byte0(v), Byte1(v), Byte2(v), Byte3(v);
      b[i + 3] := Spread(b[i + 3]);
      TopBytes(v);
    }

    // The conversion branch, in terms of the scan.
    method ConvertAt(ghost q: Scan, b: array<bv8>, p: nat, mask: nat, encoding: bool)
      requires p + 5 <= b.Length && mask < 8
      requires At(q, b[..], p, mask, ip, encoding) && Converts(b[p..], mask)
      modifies b
      ensures At(q, b[..], p + 5, 0, ip, encoding)
    {
      hide Run, At, NewOperand, Opcode, Extreme, Operand, FromLE, ToLE;
      ghost var s := b[..];
      assert s[p..] == b[p..];
      Rewrite(b, p, mask, FromInt(Wrap32(ip + 5 + p)), encoding);
      NewOperandAt(s, p, mask, ip, encoding);
      AtConvert(q, s, b[..], p, mask, ip, encoding);
    }

    // Rewrites b in place and returns how many bytes are final. Positions are uint32.
    method Convert(b: array<bv8>, encoding: bool) returns (n: nat)
      requires b.Length < 0x1_0000_0000
      modifies this, b
      ensures var q := Run(old(b[..]), old(state) % 8, old(ip), encoding);
              && b[..] == q.out
              && n == q.done
              && ip == q.ip
              && state == if b.Length < 5 then old(state) else q.mask
    {
      hide Run, At, NewOperand, Opcode, Extreme, Scan.After, Wrap32;
      ghost var q := Run(b[..], state % 8, ip, encoding);
      if b.Length < 5 {
        RunShort(b[..], state % 8, ip, encoding);
        return 0;
      }
      var pos: nat, mask: nat := 0, state % 8;
      AtStart(b[..], mask, ip, encoding);
      while true
        invariant 0 <= pos <= b.Length && mask < 8
        invariant ip == old(ip) && At(q, b[..], pos, mask, ip, encoding)
        decreases b.Length - pos
      {
        var p: nat := pos;
        while p + 4 < b.Length
          invariant pos <= p <= b.Length && (p > pos ==> p + 4 <= b.Length)
          invariant ip == old(ip) && At(q, b[..], p, Shifted(mask, p - pos), ip, encoding)
        {
          if Opcode(b[p]) {
            break;
          }
          AtSkip(q, b[..], p, Shifted(mask, p - pos), ip, encoding);
          p := p + 1;
        }
        var d := p - pos;
        pos := p;
        if p + 4 >= b.Length {
          state := Shifted(mask, d);
          AtEnd(q, b[..], pos, state, ip, encoding);
          ip := Wrap32(ip + pos);
          return pos;
        }
        mask := Shifted(mask, d);
        if mask != 0 && (mask > 4 || mask == 3 || Extreme(b[p + mask / 2 + 1])) {
          AtSkip(q, b[..], p, mask, ip, encoding);
          mask := mask / 2 + 4;
          pos := pos + 1;
          continue;
        }
        if Extreme(b[p + 4]) {
          pos := pos + 5;
          ConvertAt(q, b, p, mask, encoding);
          mask := 0;
        } else {
          AtSkip(q, b[..], p, mask, ip, encoding);
          mask := mask / 2 + 4;
          pos := pos + 1;
        }
      }
    }
  }

  // Two filters in the same state, one encoding and one decoding in place: the buffer comes back,
  // and both agree on the count, the position and the mask.
  method EncodeThenDecode(c: Filter, d: Filter, b: array<bv8>) returns (n: nat, m: nat)
    requires c != d && c.state == d.state && c.ip == d.ip && b.Length < 0x1_0000_0000
    modifies c, d, b
    ensures b[..] == old(b[..]) && m == n && d.ip == c.ip && d.state == c.state
  {
    hide Run;
    ghost var s, mask, ip := b[..], c.state % 8, c.ip;
    n := c.Convert(b, true);
    m := d.Convert(b, false);
    DecodeEncode(s, mask, ip);
  }
}
