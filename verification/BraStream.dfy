/** The streaming reader over a branch filter as a function: buffer, convert, deliver. */
module BraStream {
  import opened Basics
  import opened Words
  import opened BranchWord
  import BranchFilters
  import Bcj

  // A converter's state as a value.
  datatype State = X86(state: u32, ip: u32) | Fixed(arch: Arch, ip: u32)
  {
    predicate Valid() {
      Fixed? ==> ip % 4 == 0
    }

    function Size(): nat {
      if X86? then 5 else 4
    }
  }

  datatype Conversion = Conversion(out: seq<bv8>, done: nat, next: State)

  // One decoding Convert call on a whole buffer.
  function Convert(f: State, s: seq<bv8>): (c: Conversion)
    requires f.Valid()
    ensures c.next.Valid() && |c.out| == |s|
  {
    match f
    case X86(state, ip) =>
      var q := Bcj.Run(s, state % 8, ip, false);
      Conversion(q.out, q.done, if |s| < 5 then f else X86(q.mask, q.ip))
    case Fixed(arch, ip) =>
      if |s| < 4 then Conversion(s, 0, f)
      else
        BranchFilters.WrapStep(BranchFilters.Base(arch, ip), BranchFilters.Whole(|s|));
        Conversion(BranchFilters.Map(arch, s, BranchFilters.Base(arch, ip), false), BranchFilters.Whole(|s|),
                   Fixed(arch, Wrap32(BranchFilters.Base(arch, ip) + BranchFilters.Whole(|s|))))
  }

  // Whether a filter can take n more bytes without the ARM counter passing zero.
  predicate Room(f: State, n: nat) {
    f.Valid() && (f.Fixed? && f.arch.Arm? ==> BranchFilters.Base(Arm, f.ip) + n < 0x1_0000_0000)
  }

  lemma ConvertShape(f: State, s: seq<bv8>)
    requires f.Valid()
    ensures var c := Convert(f, s);
            && c.done <= |s| && c.out[c.done..] == s[c.done..]
            && (|s| < f.Size() ==> c.done == 0 && c.out == s && c.next == f)
            && (|s| >= f.Size() ==> c.done > 0)
            && c.next.Size() == f.Size()
  {
    match f
    case X86(state, ip) => X86Shape(f, s);
    case Fixed(arch, ip) => FixedShape(arch, ip, s);
  }

  lemma X86Shape(f: State, s: seq<bv8>)
    requires f.X86?
    ensures var c := Convert(f, s);
            && c.done <= |s| && c.out[c.done..] == s[c.done..] && c.next.Size() == f.Size()
            && (if |s| < f.Size() then c.done == 0 && c.out == s && c.next == f else c.done > 0)
  {
    hide Bcj.Run;
    Bcj.RunShape(s, f.state % 8, f.ip, false);
    if |s| < 5 {
      Bcj.RunShort(s, f.state % 8, f.ip, false);
    }
  }

  lemma FixedIs(arch: Arch, ip: u32, s: seq<bv8>)
    requires ip % 4 == 0 && |s| >= 4
    ensures var c := Convert(Fixed(arch, ip), s);
            && c.done == BranchFilters.Whole(|s|) && c.next.Fixed?
            && c.out == BranchFilters.Map(arch, s, BranchFilters.Base(arch, ip), false)
  {
    hide BranchFilters.Map, BranchFilters.Base, BranchFilters.Whole, Wrap32;
    BranchFilters.WholeIs(|s|);
    BranchFilters.WrapStep(BranchFilters.Base(arch, ip), BranchFilters.Whole(|s|));
  }

  lemma FixedShape(arch: Arch, ip: u32, s: seq<bv8>)
    requires ip % 4 == 0
    ensures var c := Convert(Fixed(arch, ip), s);
            && c.done <= |s| && c.out[c.done..] == s[c.done..] && c.next.Fixed?
            && (if |s| < 4 then c.done == 0 && c.out == s && c.next == Fixed(arch, ip) else c.done > 0)
  {
    if |s| >= 4 {
      hide BranchFilters.Map, BranchFilters.Base, BranchFilters.Whole, Wrap32, Convert;
      FixedIs(arch, ip, s);
      BranchFilters.WholeIs(|s|);
      MapTail(arch, s, BranchFilters.Base(arch, ip));
    }
  }

  // A tail that does not fill a word stays as it is.
  lemma MapTail(arch: Arch, s: seq<bv8>, b: u32)
    requires b % 4 == 0
    ensures BranchFilters.Whole(|s|) <= |s|
    ensures BranchFilters.Map(arch, s, b, false)[BranchFilters.Whole(|s|)..] == s[BranchFilters.Whole(|s|)..]
  {
    hide BranchFilters.Map, BranchFilters.Whole, Wrap32;
    BranchFilters.WholeIs(|s|);
    var k := BranchFilters.Whole(|s|);
    BranchFilters.WrapStep(b, k);
    BranchFilters.MapSplits(arch, s[..k], s[k..], b, false);
    BranchFilters.MapShort(arch, s[k..], Wrap32(b + k), false);
    assert s == s[..k] + s[k..];
  }

  // Conversion may be cut anywhere: what is left unconverted goes in front of the rest.
  lemma ConvertResumes(f: State, x: seq<bv8>, y: seq<bv8>)
    requires Room(f, |x| + |y|)
    ensures var c := Convert(f, x);
            && c.done <= |x|
            && Room(c.next, |x| - c.done + |y|)
            && Convert(f, x + y).out == c.out[..c.done] + Convert(c.next, x[c.done..] + y).out
  {
    hide Convert;
    ConvertShape(f, x);
    match f {
      case X86(state, ip) =>
        X86Resumes(state, ip, x, y);
      case Fixed(arch, ip) =>
        FixedResumes(arch, ip, x, y);
    }
  }

  lemma X86Resumes(state: u32, ip: u32, x: seq<bv8>, y: seq<bv8>)
    ensures var c := Convert(X86(state, ip), x);
            && c.done <= |x|
            && Convert(X86(state, ip), x + y).out == c.out[..c.done] + Convert(c.next, x[c.done..] + y).out
  {
    hide Bcj.Run;
    Bcj.RunResumes(x, y, state % 8, ip, false);
    if |x| < 5 {
      Bcj.RunShort(x, state % 8, ip, false);
      assert x[0..] == x;
    }
  }

  lemma BaseStays(arch: Arch, ip: u32, k: nat, m: nat)
    requires ip % 4 == 0 && k % 4 == 0 && Room(Fixed(arch, ip), k + m)
    ensures var mid := Wrap32(BranchFilters.Base(arch, ip) + k);
            && mid % 4 == 0
            && (k > 0 ==> BranchFilters.Base(arch, mid) == mid && Room(Fixed(arch, mid), m))
  {
    BranchFilters.WrapStep(BranchFilters.Base(arch, ip), k);
  }

  lemma FixedResumes(arch: Arch, ip: u32, x: seq<bv8>, y: seq<bv8>)
    requires ip % 4 == 0 && Room(Fixed(arch, ip), |x| + |y|)
    ensures var c := Convert(Fixed(arch, ip), x);
            && c.done <= |x|
            && Room(c.next, |x| - c.done + |y|)
            && Convert(Fixed(arch, ip), x + y).out == c.out[..c.done] + Convert(c.next, x[c.done..] + y).out
  {
    hide BranchFilters.Map, BranchFilters.Base, BranchFilters.Whole, Wrap32;
    BranchFilters.WholeIs(|x|);
    BranchFilters.WholeIs(|x + y|);
    if |x| < 4 {
      assert x[0..] == x;
    } else {
      hide Room;
      var b, k := BranchFilters.Base(arch, ip), BranchFilters.Whole(|x|);
      var z := x[k..] + y;
      BaseStays(arch, ip, k, |x| - k + |y|);
      BranchFilters.MapSplits(arch, x[..k], x[k..], b, false);
      BranchFilters.MapSplits(arch, x[..k], z, b, false);
      assert x == x[..k] + x[k..] && x + y == x[..k] + z;
      if |z| < 4 {
        BranchFilters.MapShort(arch, z, Wrap32(b + k), false);
      }
    }
  }

  // The reader's fields as a value: what the underlying reader still holds, the buffer,
  // how many of its bytes are converted, and the converter.
  datatype Stream = Stream(src: seq<bv8>, buf: seq<bv8>, n: nat, f: State)
  {
    predicate Good() {
      n <= |buf| && Room(f, |buf| - n + |src|)
    }

    // The bytes still to be delivered, if the rest is converted in one go.
    function Future(): seq<bv8>
      requires Good()
    {
      buf[..n] + Convert(f, buf[n..] + src).out
    }
  }

  // io.CopyN of max(len, Size) - |buf| bytes, and whether it met the end of the source.
  function Fill(s: Stream, len: nat): (r: (Stream, bool)) {
    var want := Max(len, s.f.Size()) - |s.buf|;
    if want <= 0 then (s, false)
    else
      var k := Min(want, |s.src|);
      (Stream(s.src[k..], s.buf + s.src[..k], s.n, s.f), k < want)
  }

  datatype Reply = Reply(next: Stream, out: seq<bv8>, eof: bool)

  // The tail of fewer bytes than the filter looks at counts as converted.
  function Flush(t: Stream, eof: bool): Stream {
    if eof && |t.buf| < t.f.Size() then t.(n := |t.buf|) else t
  }

  // Convert what is not converted yet.
  function Rest(t: Stream): (u: Stream)
    requires t.Good()
    ensures u.n <= |u.buf| == |t.buf|
  {
    ConvertShape(t.f, t.buf[t.n..]);
    var c := Convert(t.f, t.buf[t.n..]);
    Stream(t.src, t.buf[..t.n] + c.out, t.n + c.done, c.next)
  }

  // Hand over up to len converted bytes.
  function Deliver(t: Stream, len: nat): (r: Reply)
    requires t.Good()
    ensures !r.eof
  {
    var u := Rest(t);
    var k := Min(u.n, len);
    Reply(u.(buf := u.buf[k..], n := u.n - k), u.buf[..k], false)
  }

  // One Read call with a buffer of len bytes.
  function Read(s: Stream, len: nat): Reply
    requires s.Good()
  {
    FillKeeps(s, len);
    var (t, eof) := Fill(s, len);
    FlushKeeps(t, eof);
    if eof && |t.buf| == 0 then Reply(t, [], true) else Deliver(Flush(t, eof), len)
  }

  lemma FillKeeps(s: Stream, len: nat)
    requires s.Good()
    ensures var (t, eof) := Fill(s, len);
            && t.Good() && t.Future() == s.Future() && t.f == s.f
            && (if eof then t.src == [] else |t.buf| >= len && |t.buf| >= t.f.Size())
  {
    hide Convert;
    var (t, _) := Fill(s, len);
    assert t.buf[..t.n] == s.buf[..s.n];
    assert t.buf[t.n..] + t.src == s.buf[s.n..] + s.src;
  }

  lemma FlushKeeps(t: Stream, eof: bool)
    requires t.Good() && (eof ==> t.src == [])
    ensures var u := Flush(t, eof);
            u.Good() && u.Future() == t.Future() && u.src == t.src && u.buf == t.buf && u.f == t.f
  {
    hide Convert;
    if !eof || |t.buf| >= t.f.Size() {
      return;
    }
    var b := t.buf;
    assert b[t.n..] + t.src == b[t.n..] && b[|b|..] + t.src == [];
    ConvertShape(t.f, b[t.n..]);
    ConvertShape(t.f, []);
    assert b[..t.n] + b[t.n..] == b && b[..|b|] + [] == b;
  }

  lemma RestKeeps(t: Stream)
    requires t.Good()
    ensures Rest(t).Good() && Rest(t).Future() == t.Future()
    ensures t.n > 0 || |t.buf| >= t.f.Size() ==> Rest(t).n > 0
  {
    hide Convert;
    var x := t.buf[t.n..];
    var c := Convert(t.f, x);
    var u := Rest(t);
    ConvertShape(t.f, x);
    ConvertResumes(t.f, x, t.src);
    assert u.buf[..u.n] == t.buf[..t.n] + c.out[..c.done];
    assert u.buf[u.n..] == c.out[c.done..] == x[c.done..];
  }

  lemma DeliverKeeps(u: Stream, k: nat)
    requires u.Good() && k <= u.n
    ensures var v := u.(buf := u.buf[k..], n := u.n - k);
            v.Good() && u.Future() == u.buf[..k] + v.Future()
  {
    hide Convert;
    assert u.buf[k..][u.n - k..] == u.buf[u.n..];
    assert u.buf[..u.n] == u.buf[..k] + u.buf[k..][..u.n - k];
  }

  lemma NothingLeft(t: Stream)
    requires t.Good() && t.src == [] && t.buf == []
    ensures t.Future() == []
  {
    hide Convert;
    ConvertShape(t.f, []);
    assert t.buf[..t.n] == [] && t.buf[t.n..] + t.src == [];
  }

  lemma DeliverDelivers(t: Stream, len: nat)
    requires t.Good() && len > 0 && (t.n > 0 || |t.buf| >= t.f.Size())
    ensures var r := Deliver(t, len);
            && r.next.Good() && t.Future() == r.out + r.next.Future()
            && 0 < |r.out| <= len && !r.eof
  {
    hide Rest, Stream.Future, Stream.Good;
    RestKeeps(t);
    DeliverKeeps(Rest(t), Min(Rest(t).n, len));
  }

  // A read delivers the next bytes of the one-go conversion: at least one of them, unless
  // there is none left, which is when it reports the end.
  lemma ReadDelivers(s: Stream, len: nat)
    requires s.Good() && len > 0
    ensures var r := Read(s, len);
            && r.next.Good()
            && s.Future() == r.out + r.next.Future()
            && |r.out| <= len
            && (if r.eof then s.Future() == [] else |r.out| > 0)
  {
    hide Convert, Fill, Deliver, Stream.Future;
    var (t, eof) := Fill(s, len);
    FillKeeps(s, len);
    FlushKeeps(t, eof);
    if eof && |t.buf| == 0 {
      NothingLeft(t);
      assert t.Future() == [] + t.Future();
    } else {
      DeliverDelivers(Flush(t, eof), len);
    }
  }

  // A run of reads: everything delivered, and the state after.
  function Reads(s: Stream, lens: seq<nat>): (r: (seq<bv8>, Stream))
    requires s.Good() && forall i :: 0 <= i < |lens| ==> lens[i] > 0
    ensures r.1.Good()
    decreases |lens|
  {
    if lens == [] then ([], s)
    else
      ReadDelivers(s, lens[0]);
      var r := Read(s, lens[0]);
      var (rest, t) := Reads(r.next, lens[1..]);
      (r.out + rest, t)
  }

  // For every sequence of read sizes, what is delivered is a prefix of the one-go
  // conversion of the whole stream, and all of it once there were enough reads.
  lemma {:induction false} ReadsDeliver(s: Stream, lens: seq<nat>)
    requires s.Good() && forall i :: 0 <= i < |lens| ==> lens[i] > 0
    ensures var (out, t) := Reads(s, lens);
            && s.Future() == out + t.Future()
            && (|out| < |lens| ==> out == s.Future())
    decreases |lens|
  {
    hide Read, Stream.Future, Stream.Good;
    if lens == [] {
      assert s.Future() == [] + s.Future();
    } else {
      ReadDelivers(s, lens[0]);
      var r := Read(s, lens[0]);
      ReadsDeliver(r.next, lens[1..]);
      var (rest, t) := Reads(r.next, lens[1..]);
      ReadsStep(s, lens);
      DeliverTwice(s.Future(), r, rest, t.Future(), |lens|);
    }
  }

  lemma ReadsStep(s: Stream, lens: seq<nat>)
    requires s.Good() && lens != [] && forall i :: 0 <= i < |lens| ==> lens[i] > 0
    ensures var r := Read(s, lens[0]);
            r.next.Good() && Reads(s, lens) == (r.out + Reads(r.next, lens[1..]).0, Reads(r.next, lens[1..]).1)
  {
    hide Read, Stream.Future, Stream.Good;
    ReadDelivers(s, lens[0]);
  }

  lemma DeliverTwice(all: seq<bv8>, r: Reply, rest: seq<bv8>, last: seq<bv8>, n: nat)
    requires n > 0 && all == r.out + (rest + last)
    requires if r.eof then all == [] else |r.out| > 0
    requires |rest| < n - 1 ==> last == []
    ensures all == (r.out + rest) + last
    ensures |r.out + rest| < n ==> r.out + rest == all
  {
  }

  // One encoding Convert call on a whole buffer.
  function Encode(f: State, s: seq<bv8>): (e: seq<bv8>)
    requires f.Valid()
    ensures |e| == |s|
  {
    match f
    case X86(state, ip) => Bcj.Run(s, state % 8, ip, true).out
    case Fixed(arch, ip) => if |s| < 4 then s else BranchFilters.Map(arch, s, BranchFilters.Base(arch, ip), true)
  }

  lemma ConvertEncoded(f: State, plain: seq<bv8>)
    requires f.Valid()
    ensures Convert(f, Encode(f, plain)).out == plain
  {
    match f {
      case X86(state, ip) =>
        hide Bcj.Run;
        Bcj.DecodeEncode(plain, state % 8, ip);
      case Fixed(arch, ip) =>
        hide BranchFilters.Map;
        BranchFilters.MapInverts(arch, plain, BranchFilters.Base(arch, ip));
    }
  }

  // A new reader over the bytes an encoder made of a buffer delivers that buffer.
  lemma EncodedStreamDecodes(f: State, plain: seq<bv8>, lens: seq<nat>)
    requires Room(f, |plain|)
    requires |lens| > |plain| && forall i :: 0 <= i < |lens| ==> lens[i] > 0
    ensures var s := Stream(Encode(f, plain), [], 0, f);
            s.Good() && Reads(s, lens).0 == plain
  {
    hide Convert, Encode, Reads;
    ConvertEncoded(f, plain);
    var s := Stream(Encode(f, plain), [], 0, f);
    assert [] + s.src == s.src && s.buf[..0] == [] && s.buf[0..] + s.src == s.src;
    assert [] + plain == plain;
    ReadsDeliver(s, lens);
  }
}
