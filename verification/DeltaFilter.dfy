/** The delta filter: every byte is a difference to the one `delta` places before it. */
module DeltaFilter {
  import opened Basics

  // hist holds the outputs at the last |hist| places, oldest first.
  function Undo(hist: seq<byte8>, s: seq<byte8>): (r: seq<byte8>)
    requires |hist| > 0
    ensures |r| == |s|
    decreases |s|
  {
    if s == [] then []
    else
      var x := Add(hist[0], s[0]);
      [x] + Undo(hist[1..] + [x], s[1..])
  }

  // The last |hist| outputs after more of them.
  function Slide(hist: seq<byte8>, out: seq<byte8>): (r: seq<byte8>)
    ensures |r| == |hist|
  {
    (hist + out)[|out|..]
  }

  lemma SlideFirst(hist: seq<byte8>, x: byte8, out: seq<byte8>)
    requires |hist| > 0
    ensures Slide(hist, [x] + out) == Slide(hist[1..] + [x], out)
  {
    assert hist + ([x] + out) == [hist[0]] + (hist[1..] + [x] + out);
  }

  lemma SlideMore(hist: seq<byte8>, out: seq<byte8>, x: byte8)
    requires |hist| > 0
    ensures Slide(hist, out + [x]) == Slide(hist, out)[1..] + [x]
  {
    assert hist + (out + [x]) == (hist + out) + [x];
  }

  lemma SlideNone(hist: seq<byte8>)
    ensures Slide(hist, []) == hist
  {
  }

  lemma UndoStep(hist: seq<byte8>, s: seq<byte8>)
    requires |hist| > 0 && s != []
    ensures var x := Add(hist[0], s[0]);
            Undo(hist, s) == [x] + Undo(hist[1..] + [x], s[1..])
  {
  }

  lemma UndoNone(hist: seq<byte8>)
    requires |hist| > 0
    ensures Undo(hist, []) == []
  {
  }

  // Each output is its input plus the output delta places back, modulo 256, as if hist came before
  // the start.
  lemma {:induction false} UndoAt(hist: seq<byte8>, s: seq<byte8>, t: nat)
    requires |hist| > 0 && t < |s|
    ensures Num(Undo(hist, s)[t]) == (Num((hist + Undo(hist, s))[t]) + Num(s[t])) % 0x100
    decreases t
  {
    hide Add, Num, Undo;
    BytesAdd(hist[0], s[0]);
    UndoStep(hist, s);
    var x := Add(hist[0], s[0]);
    if t > 0 {
      var next := hist[1..] + [x];
      UndoAt(next, s[1..], t - 1);
      assert hist + Undo(hist, s) == [hist[0]] + (next + Undo(next, s[1..]));
    }
  }

  // From a fresh start the first delta bytes stand for themselves.
  lemma UndoFresh(delta: nat, s: seq<byte8>, t: nat)
    requires delta > 0 && t < |s|
    ensures var out := Undo(Zeros(delta), s);
            Num(out[t]) == (if t < delta then Num(s[t]) else (Num(out[t - delta]) + Num(s[t])) % 0x100)
  {
    hide Num, Undo;
    ZeroByte();
    UndoAt(Zeros(delta), s, t);
  }

  // Cutting the input anywhere, with the last outputs carried over, gives the same output.
  lemma {:induction false} UndoSplits(hist: seq<byte8>, a: seq<byte8>, b: seq<byte8>)
    requires |hist| > 0
    ensures Undo(hist, a + b) == Undo(hist, a) + Undo(Slide(hist, Undo(hist, a)), b)
    decreases |a|
  {
    hide Add, Undo, Slide;
    if a == [] {
      assert a + b == b;
      SlideNone(hist);
      UndoNone(hist);
    } else {
      var x := Add(hist[0], a[0]);
      var next := hist[1..] + [x];
      assert (a + b)[1..] == a[1..] + b;
      UndoStep(hist, a);
      UndoStep(hist, a + b);
      UndoSplits(next, a[1..], b);
      SlideFirst(hist, x, Undo(next, a[1..]));
    }
  }

  // One more byte.
  lemma UndoMore(hist: seq<byte8>, a: seq<byte8>, y: byte8)
    requires |hist| > 0
    ensures var h := Slide(hist, Undo(hist, a));
            && Undo(hist, a + [y]) == Undo(hist, a) + [Add(h[0], y)]
            && Slide(hist, Undo(hist, a + [y])) == h[1..] + [Add(h[0], y)]
  {
    hide Add, Undo, Slide;
    var h := Slide(hist, Undo(hist, a));
    UndoSplits(hist, a, [y]);
    UndoStep(h, [y]);
    UndoNone(h[1..] + [Add(h[0], y)]);
    SlideMore(hist, Undo(hist, a), Add(h[0], y));
  }

  // --- the ring and the buffer ---

  // A ring whose oldest byte is at j.
  ghost predicate Ring(b: seq<byte8>, j: nat, h: seq<byte8>) {
    j <= |b| && b[j..] + b[..j] == h
  }

  lemma RingStep(b: seq<byte8>, j: nat, h: seq<byte8>, x: byte8)
    requires Ring(b, j, h) && j < |b|
    ensures b[j] == h[0] && Ring(b[j := x], j + 1, h[1..] + [x])
  {
    var c := b[j := x];
    assert c[j + 1..] == b[j + 1..] && c[..j + 1] == b[..j] + [x];
    assert h == [b[j]] + b[j + 1..] + b[..j];
  }

  lemma RingStart(b: seq<byte8>)
    ensures Ring(b, 0, b)
  {
  }

  // At its end the ring starts over.
  lemma RingTurned(b: seq<byte8>, h: seq<byte8>)
    requires Ring(b, |b|, h)
    ensures Ring(b, 0, h)
  {
  }

  lemma RingIs(b: seq<byte8>, j: nat, h: seq<byte8>)
    requires Ring(b, j, h)
    ensures j <= |b| && h == b[j..] + b[..j]
  {
  }

  // t is s with its first i bytes turned into outputs; ring holds the outputs before byte i.
  ghost predicate Upto(hist: seq<byte8>, s: seq<byte8>, t: seq<byte8>, i: nat, ring: seq<byte8>) {
    && |hist| > 0 && |t| == |s| && i <= |s|
    && t == Undo(hist, s[..i]) + s[i..] && ring == Slide(hist, Undo(hist, s[..i]))
  }

  lemma UptoStart(hist: seq<byte8>, s: seq<byte8>)
    requires |hist| > 0
    ensures Upto(hist, s, s, 0, hist)
  {
    hide Undo, Slide;
    UndoNone(hist);
    SlideNone(hist);
    assert s[..0] == [] && s[0..] == s;
  }

  lemma UptoNext(hist: seq<byte8>, s: seq<byte8>, t: seq<byte8>, i: nat, ring: seq<byte8>)
    requires Upto(hist, s, t, i, ring) && i < |s|
    ensures |ring| > 0
    ensures var x := Add(ring[0], t[i]); Upto(hist, s, t[i := x], i + 1, ring[1..] + [x])
  {
    hide Add, Undo, Slide;
    UndoMore(hist, s[..i], s[i]);
    assert s[..i + 1] == s[..i] + [s[i]];
    assert t[i] == s[i];
  }

  lemma UptoEnd(hist: seq<byte8>, s: seq<byte8>, t: seq<byte8>, ring: seq<byte8>)
    requires Upto(hist, s, t, |s|, ring)
    ensures t == Undo(hist, s) && ring == Slide(hist, t)
  {
    hide Undo, Slide;
    assert s[..|s|] == s;
  }

  const STATE_SIZE: nat := 256

  // How the source's read ended, and how the filter's did.
  datatype SourceError = NoError | EndOfSource | SourceBroken

  datatype Outcome = Fine | EOF | AlreadyClosed | Broken

  class ReadCloser {
    var open: bool
    const delta: nat
    const state: array<byte8>

    // the property byte, as a distance; 255 makes the distance wrap to zero
    constructor (delta: nat)
      requires 0 < delta < STATE_SIZE
      ensures Valid() && open && History() == Zeros(delta) && this.delta == delta && fresh(state)
    {
      this.delta, open := delta, true;
      state := new byte8[STATE_SIZE](_ => 0);
    }

    ghost predicate Valid()
      reads this
    {
      0 < delta < STATE_SIZE && state.Length == STATE_SIZE
    }

    // The last delta outputs, oldest first.
    ghost function History(): (h: seq<byte8>)
      requires Valid()
      reads this, state
      ensures |h| == delta
    {
      state[..delta]
    }

    method Close() returns (err: Outcome)
      modifies this`open
      ensures !open && err == if old(open) then Fine else AlreadyClosed
    {
      err := if open then Fine else AlreadyClosed;
      open := false;
    }

    // Read, when the source puts these bytes into p and ends that way. The end of the source is
    // never passed on: the filter answers with no bytes and no error exactly when it is open and
    // the source gave no bytes and did not break.
    method Read(p: array<byte8>, got: seq<byte8>, end: SourceError) returns (n: nat, err: Outcome)
      requires Valid() && |got| <= p.Length && p != state
      modifies p, state
      ensures Valid() && err != EOF
      ensures !open ==> n == 0 && err == AlreadyClosed && p[..] == old(p[..]) && History() == old(History())
      ensures open ==> n == |got| && p[n..] == old(p[n..])
      ensures open && end == SourceBroken ==> err == Broken && p[..n] == got && History() == old(History())
      ensures open && end != SourceBroken ==>
                err == Fine && p[..n] == Undo(old(History()), got) && History() == Slide(old(History()), p[..n])
      ensures n == 0 && err == Fine <==> open && end != SourceBroken && got == []
    {
      hide Undo, Slide;
      if !open {
        return 0, AlreadyClosed;
      }
      n := |got|;
      forall i | 0 <= i < n {
        p[i] := got[i];
      }
      assert p[..n] == got;
      if end == SourceBroken {
        return n, Broken;
      }
      Decode(p, n);
      return n, Fine;
    }

    // The n bytes in p become the outputs, and the state the last delta outputs.
    method Decode(p: array<byte8>, n: nat)
      requires Valid() && n <= p.Length && p != state
      modifies p, state
      ensures p[..n] == Undo(old(History()), old(p[..n])) && p[n..] == old(p[n..])
      ensures History() == Slide(old(History()), p[..n])
    {
      hide Undo, Slide, Upto, Ring;
      ghost var hist, s, ring := History(), p[..n], History();
      // only the first delta bytes of the 256-byte buffer are used
      var buffer := new byte8[delta](_ => 0);
      Copy(state, delta, buffer);
      var i, j := 0, 0;
      UptoStart(hist, s);
      RingStart(buffer[..]);
      while i < n
        invariant 0 <= i <= n && 0 <= j <= delta && (i == 0 ==> j == 0) && (0 < i < n ==> j == delta)
        invariant Upto(hist, s, p[..n], i, ring) && p[n..] == old(p[n..])
        invariant Ring(buffer[..], j, ring)
      {
        if i > 0 {
          RingTurned(buffer[..], ring);
        }
        ring := Pass(p, n, i, buffer, hist, s, ring);
        j := if n - i < delta then n - i else delta;
        i := i + j;
      }
      UptoEnd(hist, s, p[..n], ring);
      if j == delta {
        RingTurned(buffer[..], ring);
        j := 0;
      }
      RingIs(buffer[..], j, ring);
      Rotate(buffer, j);
    }

    // One pass over the ring, from its start.
    method Pass(p: array<byte8>, n: nat, start: nat, buffer: array<byte8>, ghost hist: seq<byte8>, ghost s: seq<byte8>,
                ghost before: seq<byte8>)
      returns (ghost ring: seq<byte8>)
      requires 0 < delta == buffer.Length && start < n <= p.Length && buffer != p && |s| == n
      requires Upto(hist, s, p[..n], start, before) && Ring(buffer[..], 0, before)
      modifies p, buffer
      ensures var j := if n - start < delta then n - start else delta;
              Upto(hist, s, p[..n], start + j, ring) && Ring(buffer[..], j, ring)
      ensures p[n..] == old(p[n..])
    {
      hide Upto, Ring, Add;
      var i, j := start, 0;
      ring := before;
      while j < delta && i < n
        invariant 0 <= j <= delta && i == start + j <= n
        invariant Upto(hist, s, p[..n], i, ring) && Ring(buffer[..], j, ring) && p[n..] == old(p[n..])
      {
        UptoNext(hist, s, p[..n], i, ring);
        ghost var x := Add(ring[0], p[i]);
        RingStep(buffer[..], j, ring, x);
        ghost var t, b := p[..n], buffer[..];
        p[i] := Add(buffer[j], p[i]);
        buffer[j] := p[i];
        assert p[..n] == t[i := x] && buffer[..] == b[j := x];
        ring := ring[1..] + [x];
        j := j + 1;
        i := i + 1;
      }
    }

    // The ring becomes the state, its oldest byte first.
    method Rotate(buffer: array<byte8>, j: nat)
      requires Valid() && buffer.Length == delta && buffer != state && j < delta
      modifies state
      ensures History() == buffer[j..] + buffer[..j]
    {
      for k := j to delta
        invariant forall m :: 0 <= m < k - j ==> state[m] == buffer[j + m]
      {
        state[k - j] := buffer[k];
      }
      for k := 0 to j
        invariant forall m :: 0 <= m < delta - j ==> state[m] == buffer[j + m]
        invariant forall m :: 0 <= m < k ==> state[delta - j + m] == buffer[m]
      {
        state[delta - j + k] := buffer[k];
      }
    }
  }

  // However the source cuts a stream into pieces, a new filter turns it into one run of outputs,
  // and is left with the last delta of them.
  method DecodePieces(delta: nat, pieces: seq<seq<byte8>>) returns (out: seq<byte8>, r: ReadCloser)
    requires 0 < delta < STATE_SIZE
    ensures out == Undo(Zeros(delta), Flat(pieces))
    ensures fresh(r) && r.Valid() && r.delta == delta && r.History() == Slide(Zeros(delta), out)
  {
    hide Undo, Slide;
    r := new ReadCloser(delta);
    out := [];
    UndoNone(Zeros(delta));
    SlideNone(Zeros(delta));
    for i := 0 to |pieces|
      invariant fresh(r) && fresh(r.state) && r.Valid() && r.open && r.delta == delta
      invariant out == Undo(Zeros(delta), Flat(pieces[..i])) && r.History() == Slide(Zeros(delta), out)
    {
      FlatNext(pieces, i);
      UndoSplits(Zeros(delta), Flat(pieces[..i]), pieces[i]);
      var p := new byte8[|pieces[i]|](_ => 0);
      var n, err := r.Read(p, pieces[i], NoError);
      SlideTwice(Zeros(delta), out, p[..n]);
      out := out + p[..n];
    }
    assert pieces[..|pieces|] == pieces;
  }

  lemma SlideTwice(hist: seq<byte8>, a: seq<byte8>, b: seq<byte8>)
    ensures Slide(Slide(hist, a), b) == Slide(hist, a + b)
  {
    assert hist + (a + b) == (hist + a) + b;
    assert (hist + a)[..|a|] + Slide(hist, a) == hist + a;
  }

  // The first n bytes of one buffer to another.
  method Copy(from: array<byte8>, n: nat, to: array<byte8>)
    requires n <= from.Length && n <= to.Length && from != to
    modifies to
    ensures to[..n] == from[..n]
  {
    for k := 0 to n
      invariant to[..k] == from[..k]
    {
      to[k] := from[k];
    }
  }
}
