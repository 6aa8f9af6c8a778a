/** The streaming reader over a branch filter as an object. */
module BraReader {
  import opened Basics
  import BranchFilters
  import Bcj
  import opened BraStream

  // The converter held by a reader: one of the filter objects.
  datatype Converter =
    | BcjConverter(x86: Bcj.Filter)
    | FixedConverter(fixed: BranchFilters.Filter)
  {
    function Object(): object {
      match this
      case BcjConverter(c) => c
      case FixedConverter(c) => c
    }

    function Get(): State
      reads Object()
    {
      match this
      case BcjConverter(c) => X86(c.state, c.ip)
      case FixedConverter(c) => Fixed(c.arch, c.ip)
    }

    function Size(): (n: nat)
      reads Object()
      ensures n == Get().Size()
    {
      if BcjConverter? then 5 else 4
    }

    method Decode(b: array<bv8>) returns (n: nat)
      requires b.Length < 0x1_0000_0000 && Get().Valid()
      modifies Object(), b
      ensures var c := BraStream.Convert(old(Get()), old(b[..]));
              b[..] == c.out && n == c.done && Get() == c.next
    {
      hide Bcj.Run, BranchFilters.Map;
      match this {
        case BcjConverter(c) =>
          ghost var s, state, ip := b[..], c.state, c.ip;
          n := c.Convert(b, false);
          if |s| < 5 {
            Bcj.RunShort(s, state % 8, ip, false);
          }
        case FixedConverter(c) => n := c.Convert(b, false);
      }
    }
  }

  datatype Outcome = Done | EOF | AlreadyClosed

  class ReadCloser {
    var open: bool
    var src: seq<bv8>
    var buf: seq<bv8>
    var n: nat
    const conv: Converter

    ghost function Now(): Stream
      reads this, conv.Object()
    {
      Stream(src, buf, n, conv.Get())
    }

    constructor (src: seq<bv8>, conv: Converter)
      ensures open && Now() == Stream(src, [], 0, conv.Get()) && this.conv == conv
    {
      this.open, this.src, this.buf, this.n, this.conv := true, src, [], 0, conv;
    }

    method Close() returns (err: Outcome)
      modifies this
      ensures !open && Now() == old(Now())
      ensures err == if old(open) then Done else AlreadyClosed
    {
      if !open {
        return AlreadyClosed;
      }
      open := false;
      return Done;
    }

    // io.CopyN into the buffer; a count below zero copies nothing.
    method CopyN(want: int) returns (eof: bool)
      modifies this`buf, this`src
      ensures var k := if want <= 0 then 0 else Min(want, old(|src|));
              buf == old(buf + src[..k]) && src == old(src[k..]) && eof == (k < want)
    {
      if want <= 0 {
        return false;
      }
      var got := Min(want, |src|);
      buf, src := buf + src[..got], src[got..];
      return got < want;
    }

    // The conversion of the bytes after the first n.
    method ConvertRest()
      requires Now().Good() && |buf| < 0x1_0000_0000
      modifies this`buf, this`n, conv.Object()
      ensures Now() == Rest(old(Now())) && |buf| == old(|buf|) && n <= |buf|
    {
      hide Convert;
      ghost var t := Now();
      ConvertShape(t.f, t.buf[t.n..]);
      var slice := new bv8[|buf| - n](i requires 0 <= i < |buf| - n reads this => buf[n + i]);
      assert slice[..] == buf[n..];
      var done := conv.Decode(slice);
      buf, n := buf[..n] + slice[..], n + done;
    }

    // bytes.Buffer.Read of k bytes
    method Drain(p: array<bv8>, k: nat)
      requires k <= n <= |buf| && k <= p.Length
      modifies this`buf, this`n, p
      ensures p[..k] == old(buf[..k]) && p[k..] == old(p[k..])
      ensures buf == old(buf[k..]) && n == old(n) - k
    {
      forall i | 0 <= i < k {
        p[i] := buf[i];
      }
      buf, n := buf[k..], n - k;
    }

    // The buffer is filled for a read of len bytes; at the end of the source a short tail counts
    // as converted.
    method FillBuffer(len: nat) returns (eof: bool)
      requires Now().Good()
      modifies this`buf, this`src, this`n
      ensures var (t, e) := Fill(old(Now()), len);
              && eof == e && Now() == (if e && |t.buf| == 0 then t else Flush(t, e)) && Now().Good()
    {
      hide Convert, Stream.Good, Stream.Future;
      ghost var s := Now();
      FillKeeps(s, len);
      eof := CopyN(Max(len, conv.Size()) - |buf|);
      assert Now() == Fill(s, len).0 && eof == Fill(s, len).1;
      FlushKeeps(Now(), eof);
      if eof && |buf| > 0 && |buf| < conv.Size() {
        n := |buf|;
      }
    }

    // A buffer of 2^32 bytes or more does not fit the x86 filter's positions.
    method Read(p: array<bv8>) returns (k: nat, err: Outcome)
      requires Now().Good() && p.Length < 0x1_0000_0000 && |buf| < 0x1_0000_0000
      modifies this, conv.Object(), p
      ensures !old(open) ==> err == AlreadyClosed && k == 0 && Now() == old(Now()) && p[..] == old(p[..])
      ensures old(open) ==>
                var r := BraStream.Read(old(Now()), p.Length);
                && err == (if r.eof then EOF else Done)
                && k == |r.out| <= p.Length && p[..k] == r.out && p[k..] == old(p[k..])
                && Now() == r.next
      ensures open == old(open) && |buf| < 0x1_0000_0000
    {
      hide Convert, Rest, Fill, Flush, Stream.Good, Stream.Future;
      if !open {
        return 0, AlreadyClosed;
      }
      ghost var s := Now();
      BufferFits(s, p.Length);
      var eof := FillBuffer(p.Length);
      if eof && |buf| == 0 {
        return 0, EOF;
      }
      ConvertRest();
      k := Min(n, p.Length);
      Drain(p, k);
      return k, Done;
    }
  }

  // Filling for a read of len bytes does not make the buffer longer than that or than it was.
  lemma BufferFits(s: Stream, len: nat)
    requires s.Good() && len < 0x1_0000_0000 && |s.buf| < 0x1_0000_0000
    ensures var (t, e) := Fill(s, len);
            && t.Good() && |t.buf| < 0x1_0000_0000 && Flush(t, e).buf == t.buf
            && (e && |t.buf| == 0 ==> Flush(t, e).buf == [])
  {
    hide Convert, Stream.Future;
    FillKeeps(s, len);
  }
}
