/** The wiring of a folder's coders. */
module FolderGraph {
  import opened Basics
  import opened HeaderData
  import opened HeaderStreams

  // The reader of a stream, as a term: a packed stream, or a coder over the readers of its inputs.
  datatype Stream = Packed(index: nat) | Coded(coder: nat, inputs: seq<Stream>)

  datatype Fault = MultipleOutputStreams | NoBoundStream | Algorithm | NoUnboundStream

  datatype Wiring = Wired(stream: Stream) | Refused(fault: Fault)

  // The number of the first input of coder c.
  function Start(f: Folder, c: nat): nat
    requires c <= |f.coder|
  {
    SumIns(f.coder[..c])
  }

  // The packed stream placed last at an input.
  function PackedAt(packed: seq<u64>, input: nat): (r: Option<nat>)
    ensures r.Some? ==> r.value < |packed| && packed[r.value] == input
    ensures r.None? ==> forall i :: 0 <= i < |packed| ==> packed[i] != input
  {
    if packed == [] then None
    else if packed[|packed| - 1] == input then Some(|packed| - 1)
    else PackedAt(packed[..|packed| - 1], input)
  }

  // --- the meaning of a folder: what feeds an input, read off the graph ---

  // t is coder c over whatever feeds its inputs, all the way down to packed streams.
  ghost predicate Denotes(f: Folder, c: nat, t: Stream)
    decreases t, 0
  {
    && t.Coded? && t.coder == c < |f.coder| && |t.inputs| == f.coder[c].ins
    && forall k :: 0 <= k < |t.inputs| ==> Feeds(f, Start(f, c) + k, t.inputs[k])
  }

  ghost predicate Feeds(f: Folder, input: nat, t: Stream)
    decreases t, 1
  {
    match PackedAt(f.packed, input)
    case Some(i) => t == Packed(i)
    case None =>
      match FindIn(f.bindPair, input)
      case None => false
      case Some(p) => Denotes(f, p.outs, t)
  }

  // The graph leaves no choice.
  lemma {:induction false} DenotesOne(f: Folder, c: nat, t: Stream, u: Stream)
    requires Denotes(f, c, t) && Denotes(f, c, u)
    ensures t == u
    decreases t, 0
  {
    forall k | 0 <= k < |t.inputs| ensures t.inputs[k] == u.inputs[k] {
      FeedsOne(f, Start(f, c) + k, t.inputs[k], u.inputs[k]);
    }
    assert t.inputs == u.inputs;
  }

  lemma {:induction false} FeedsOne(f: Folder, input: nat, t: Stream, u: Stream)
    requires Feeds(f, input, t) && Feeds(f, input, u)
    ensures t == u
    decreases t, 1
  {
    if PackedAt(f.packed, input).None? {
      DenotesOne(f, FindIn(f.bindPair, input).value.outs, t, u);
    }
  }

  // --- one pass from the first coder to the last ---

  // What reading a folder checks of its numbers, and the indices being in range.
  predicate InRange(f: Folder) {
    && f.ins == SumIns(f.coder) && f.outs == SumOuts(f.coder)
    && (forall i :: 0 <= i < |f.packed| ==> f.packed[i] < f.ins)
    && (forall i :: 0 <= i < |f.bindPair| ==> f.bindPair[i].outs < f.outs)
  }

  // The input has a packed stream, or the output of a coder before c.
  predicate Sourced(f: Folder, c: nat, input: nat) {
    || PackedAt(f.packed, input).Some?
    || (FindIn(f.bindPair, input).Some? && FindIn(f.bindPair, input).value.outs < c)
  }

  predicate AllSourced(f: Folder, c: nat)
    requires c < |f.coder|
  {
    forall j :: Start(f, c) <= j < Start(f, c) + f.coder[c].ins ==> Sourced(f, c, j)
  }

  // Why the pass stops at coder c; built says whether the reader of a coder can be made.
  function FaultAt(f: Folder, built: seq<bool>, c: nat): Option<Fault>
    requires c < |f.coder| == |built|
  {
    if f.coder[c].outs != 1 then Some(MultipleOutputStreams)
    else if !AllSourced(f, c) then Some(NoBoundStream)
    else if !built[c] then Some(Algorithm)
    else None
  }

  // The outputs from i on that feed nothing.
  function Unbound(f: Folder, i: nat): (r: seq<nat>)
    requires i <= f.outs
    decreases f.outs - i
  {
    if i == f.outs then []
    else (if FindOut(f.bindPair, i).None? then [i] else []) + Unbound(f, i + 1)
  }

  function PackedOnly(f: Folder, j: nat): Option<Stream> {
    match PackedAt(f.packed, j)
    case Some(i) => Some(Packed(i))
    case None => None
  }

  // The inputs below j and the outputs below c are connected.
  ghost predicate UpTo(f: Folder, ins: seq<Option<Stream>>, outs: seq<Option<Stream>>, j: nat, c: nat) {
    && |ins| == f.ins && |outs| == f.outs && j <= f.ins && c <= f.outs
    && (forall k :: 0 <= k < j ==> ins[k].Some? && Feeds(f, k, ins[k].value))
    && (forall k :: j <= k < f.ins ==> ins[k] == PackedOnly(f, k))
    && (forall k :: 0 <= k < c ==> outs[k].Some? && Denotes(f, k, outs[k].value))
    && (forall k :: c <= k < f.outs ==> outs[k] == None)
  }

  lemma {:induction false} SumsBelow(coders: seq<Coder>, c: nat)
    requires c < |coders|
    ensures SumIns(coders[..c + 1]) == SumIns(coders[..c]) + coders[c].ins <= SumIns(coders)
    ensures SumOuts(coders[..c + 1]) == SumOuts(coders[..c]) + coders[c].outs <= SumOuts(coders)
  {
    if c == 0 {
      assert coders[..1] == [coders[0]] && coders[..1][1..] == [] && coders[..0] == [];
    } else {
      SumsBelow(coders[1..], c - 1);
      assert coders[..c + 1][1..] == coders[1..][..c];
      assert coders[..c][1..] == coders[1..][..c - 1];
    }
  }

  // As long as every coder has one output, output c is that of coder c.
  lemma {:induction false} OneEach(coders: seq<Coder>, c: nat)
    requires c <= |coders| && forall d :: 0 <= d < c ==> coders[d].outs == 1
    ensures SumOuts(coders[..c]) == c <= SumOuts(coders)
  {
    if c > 0 {
      OneEach(coders, c - 1);
      SumsBelow(coders, c - 1);
    } else {
      assert coders[..0] == [];
    }
  }

  method PlacePacked(f: Folder) returns (ins: array<Option<Stream>>)
    requires InRange(f)
    ensures fresh(ins) && ins.Length == f.ins
    ensures forall j :: 0 <= j < f.ins ==> ins[j] == PackedOnly(f, j)
  {
    ins := new Option<Stream>[f.ins](_ => None);
    for i := 0 to |f.packed|
      invariant fresh(ins)
      invariant forall j :: 0 <= j < f.ins ==>
                  ins[j] == match PackedAt(f.packed[..i], j) case Some(p) => Some(Packed(p)) case None => None
    {
      assert f.packed[..i + 1][..i] == f.packed[..i];
      ins[f.packed[i]] := Some(Packed(i));
    }
    assert f.packed[..|f.packed|] == f.packed;
  }

  // Connects the inputs of coder c.
  method ConnectInputs(f: Folder, ins: array<Option<Stream>>, outs: array<Option<Stream>>, input: nat, c: nat)
    returns (ok: bool)
    requires InRange(f) && c < |f.coder| && input == Start(f, c) && input + f.coder[c].ins <= f.ins && ins != outs
    requires UpTo(f, ins[..], outs[..], input, c)
    modifies ins
    ensures ok == AllSourced(f, c)
    ensures ok ==> UpTo(f, ins[..], outs[..], input + f.coder[c].ins, c)
  {
    hide Feeds, Denotes;
    for j := input to input + f.coder[c].ins
      invariant UpTo(f, ins[..], outs[..], j, c)
      invariant forall k :: input <= k < j ==> Sourced(f, c, k)
    {
      InputStep(f, ins[..], outs[..], j, c);
      if ins[j].Some? {
        continue;
      }
      var p := FindIn(f.bindPair, j);
      if p.None? || outs[p.value.outs].None? {
        return false;
      }
      ins[j] := outs[p.value.outs];
    }
    return true;
  }

  // Input j has its packed stream already, or takes the output bound to it, if that is there.
  lemma InputStep(f: Folder, ins: seq<Option<Stream>>, outs: seq<Option<Stream>>, j: nat, c: nat)
    requires InRange(f) && UpTo(f, ins, outs, j, c) && j < f.ins
    ensures var p := FindIn(f.bindPair, j);
            && (p.Some? ==> p.value.outs < f.outs)
            && (ins[j].Some? ==> Sourced(f, c, j) && Feeds(f, j, ins[j].value))
            && (ins[j].None? && p.Some? && outs[p.value.outs].Some? ==>
                  Sourced(f, c, j) && Feeds(f, j, outs[p.value.outs].value))
            && (ins[j].None? && (p.None? || outs[p.value.outs].None?) ==> !Sourced(f, c, j))
  {
  }

  // The reader slice of coder c.
  method Inputs(ins: array<Option<Stream>>, input: nat, count: nat) returns (inputs: seq<Stream>)
    requires input + count <= ins.Length && forall j :: input <= j < input + count ==> ins[j].Some?
    ensures |inputs| == count && forall k :: 0 <= k < count ==> inputs[k] == ins[input + k].value
  {
    inputs := [];
    for k := 0 to count
      invariant |inputs| == k && forall i :: 0 <= i < k ==> inputs[i] == ins[input + i].value
    {
      inputs := inputs + [ins[input + k].value];
    }
  }

  // The result of a pass that stopped at coder c, or of one that did not stop.
  ghost predicate Outcome(f: Folder, built: seq<bool>, w: Wiring)
    requires |f.coder| == |built|
  {
    match w
    case Wired(t) =>
      && (forall c :: 0 <= c < |f.coder| ==> FaultAt(f, built, c).None?)
      && |Unbound(f, 0)| == 1 && Denotes(f, Unbound(f, 0)[0], t)
    case Refused(e) =>
      || (exists c :: 0 <= c < |f.coder| && FaultAt(f, built, c) == Some(e)
                      && forall d :: 0 <= d < c ==> FaultAt(f, built, d).None?)
      || (e == NoUnboundStream && |Unbound(f, 0)| != 1
          && forall c :: 0 <= c < |f.coder| ==> FaultAt(f, built, c).None?)
  }

  method FindUnbound(f: Folder) returns (unbound: seq<nat>)
    ensures unbound == Unbound(f, 0)
  {
    unbound := [];
    for i := 0 to f.outs
      invariant unbound + Unbound(f, i) == Unbound(f, 0)
    {
      if FindOut(f.bindPair, i).None? {
        unbound := unbound + [i];
      }
    }
  }

  lemma UnboundBelow(f: Folder, i: nat)
    requires i <= f.outs
    ensures forall k :: 0 <= k < |Unbound(f, i)| ==> i <= Unbound(f, i)[k] < f.outs
    decreases f.outs - i
  {
    if i < f.outs {
      UnboundBelow(f, i + 1);
    }
  }

  // One turn of the pass: coder i over its inputs, or why it cannot be made.
  method WireCoder(f: Folder, built: seq<bool>, ins: array<Option<Stream>>, outs: array<Option<Stream>>, i: nat)
    returns (fault: Option<Fault>)
    requires InRange(f) && |built| == |f.coder| && i < |f.coder| && ins != outs
    requires forall d :: 0 <= d < i ==> f.coder[d].outs == 1
    requires UpTo(f, ins[..], outs[..], Start(f, i), i)
    modifies ins, outs
    ensures fault == FaultAt(f, built, i)
    ensures fault.None? ==> UpTo(f, ins[..], outs[..], Start(f, i + 1), i + 1)
  {
    hide Feeds, Denotes, AllSourced, InRange;
    InRangeSums(f);
    var c, input := f.coder[i], Start(f, i);
    if c.outs != 1 {
      return Some(MultipleOutputStreams);
    }
    SumsBelow(f.coder, i);
    OneEach(f.coder, i + 1);
    var ok := ConnectInputs(f, ins, outs, input, i);
    if !ok {
      return Some(NoBoundStream);
    }
    if !built[i] {
      return Some(Algorithm);
    }
    var inputs := Inputs(ins, input, c.ins);
    CoderDenotes(f, i, inputs);
    outs[i] := Some(Coded(i, inputs));
    return None;
  }

  // folderReader: connects every coder in turn and returns the one stream nothing else takes.
  method FolderReader(f: Folder, built: seq<bool>) returns (w: Wiring)
    requires InRange(f) && |built| == |f.coder|
    ensures Outcome(f, built, w)
  {
    hide Feeds, Denotes, Unbound, FaultAt, InRange;
    InRangeSums(f);
    var ins := PlacePacked(f);
    var outs := new Option<Stream>[f.outs](_ => None);
    for i := 0 to |f.coder|
      invariant fresh(ins) && fresh(outs) && ins != outs
      invariant UpTo(f, ins[..], outs[..], Start(f, i), i)
      invariant forall d :: 0 <= d < i ==> FaultAt(f, built, d).None?
      invariant forall d :: 0 <= d < i ==> f.coder[d].outs == 1
    {
      var fault := WireCoder(f, built, ins, outs, i);
      if fault.Some? {
        return Refused(fault.value);
      }
      NoFault(f, built, i);
    }
    OneEach(f.coder, |f.coder|);
    assert f.coder[..|f.coder|] == f.coder;
    var unbound := FindUnbound(f);
    UnboundBelow(f, 0);
    if |unbound| != 1 {
      return Refused(NoUnboundStream);
    }
    return Wired(outs[unbound[0]].value);
  }

  lemma NoFault(f: Folder, built: seq<bool>, c: nat)
    requires |built| == |f.coder| && c < |f.coder| && FaultAt(f, built, c).None?
    ensures f.coder[c].outs == 1 && AllSourced(f, c) && built[c]
  {
  }

  lemma InRangeSums(f: Folder)
    requires InRange(f)
    ensures f.ins == SumIns(f.coder) && f.outs == SumOuts(f.coder) && Start(f, 0) == 0
  {
  }

  lemma CoderDenotes(f: Folder, c: nat, inputs: seq<Stream>)
    requires c < |f.coder| && |inputs| == f.coder[c].ins
    requires forall k :: 0 <= k < |inputs| ==> Feeds(f, Start(f, c) + k, inputs[k])
    ensures Denotes(f, c, Coded(c, inputs))
  {
  }

  // --- well-formed folders: every input and every output is named at most once ---

  ghost predicate Distinct(f: Folder) {
    && (forall i, j :: 0 <= i < j < |f.packed| ==> f.packed[i] != f.packed[j])
    && (forall i, j :: 0 <= i < j < |f.bindPair| ==> f.bindPair[i].ins != f.bindPair[j].ins)
    && (forall i, j :: 0 <= i < j < |f.bindPair| ==> f.bindPair[i].outs != f.bindPair[j].outs)
    && (forall i, j :: 0 <= i < |f.packed| && 0 <= j < |f.bindPair| ==> f.packed[i] != f.bindPair[j].ins)
    && (forall j :: 0 <= j < |f.bindPair| ==> f.bindPair[j].ins < f.ins)
  }

  ghost predicate NoFaults(f: Folder) {
    forall c :: 0 <= c < |f.coder| ==> f.coder[c].outs == 1 && AllSourced(f, c)
  }

  // The coder that owns an input.
  function Owner(f: Folder, input: nat, c: nat): (r: nat)
    requires f.ins == SumIns(f.coder) && c <= |f.coder| && Start(f, c) <= input < f.ins
    ensures c <= r < |f.coder| && Owns(f, r, input)
    decreases |f.coder| - c
  {
    assert c < |f.coder| by {
      assert f.coder[..|f.coder|] == f.coder;
    }
    SumsBelow(f.coder, c);
    if input < Start(f, c) + f.coder[c].ins then c else Owner(f, input, c + 1)
  }

  predicate Owns(f: Folder, c: nat, input: nat)
    requires c < |f.coder|
  {
    Start(f, c) <= input < Start(f, c) + f.coder[c].ins
  }

  lemma {:induction false} StartsGrow(f: Folder, c: nat, d: nat)
    requires c < d <= |f.coder|
    ensures Start(f, c) + f.coder[c].ins <= Start(f, d) <= SumIns(f.coder)
    decreases d - c
  {
    SumsBelow(f.coder, c);
    if c + 1 < d {
      StartsGrow(f, c + 1, d);
    }
    if d < |f.coder| {
      SumsBelow(f.coder, d);
    } else {
      assert f.coder[..d] == f.coder;
    }
  }

  lemma OneOwner(f: Folder, c: nat, d: nat, input: nat)
    requires c < |f.coder| && d < |f.coder| && Owns(f, c, input) && Owns(f, d, input)
    ensures c == d
  {
    if c < d {
      StartsGrow(f, c, d);
    } else if d < c {
      StartsGrow(f, d, c);
    }
  }

  // --- the last coder is the root ---

  lemma PairFound(f: Folder, i: nat)
    requires Distinct(f) && i < |f.bindPair|
    ensures PackedAt(f.packed, f.bindPair[i].ins).None? && FindIn(f.bindPair, f.bindPair[i].ins) == Some(f.bindPair[i])
    ensures FindOut(f.bindPair, f.bindPair[i].outs) == Some(f.bindPair[i])
  {
  }

  // A bound output belongs to a coder before the one it feeds.
  lemma PairForward(f: Folder, i: nat)
    requires InRange(f) && Distinct(f) && NoFaults(f) && i < |f.bindPair|
    ensures f.bindPair[i].ins < f.ins && f.bindPair[i].outs < Owner(f, f.bindPair[i].ins, 0) < |f.coder|
  {
    hide PackedAt, FindIn;
    PairFound(f, i);
    var c := Owner(f, f.bindPair[i].ins, 0);
    assert Sourced(f, c, f.bindPair[i].ins);
  }

  predicate Different(xs: seq<nat>) {
    forall i, j :: 0 <= i < j < |xs| ==> xs[i] != xs[j]
  }

  lemma {:induction false} DistinctSize(xs: seq<nat>)
    requires Different(xs)
    ensures |Elements(xs)| == |xs|
  {
    if xs != [] {
      DistinctSize(xs[1..]);
      assert xs[0] !in Elements(xs[1..]);
      assert Elements(xs) == {xs[0]} + Elements(xs[1..]);
    }
  }

  ghost function Elements(xs: seq<nat>): set<nat> {
    set x | x in xs
  }

  ghost function Below(n: nat): (r: set<nat>)
    ensures forall x: nat :: x in r <==> x < n
  {
    if n == 0 then {} else Below(n - 1) + {n - 1}
  }

  lemma {:induction false} BelowSize(n: nat)
    ensures |Below(n)| == n
  {
    if n > 0 {
      BelowSize(n - 1);
      OneMore(Below(n - 1), n - 1);
    }
  }

  lemma OneMore(a: set<nat>, x: nat)
    requires x !in a
    ensures |a + {x}| == |a| + 1
  {
  }

  lemma {:induction false} SameSize(a: set<nat>, b: set<nat>)
    requires a <= b && |a| == |b|
    ensures a == b
  {
    if a != b {
      var x :| x in b && x !in a;
      assert a <= b - {x};
      SmallerSize(a, b - {x});
    }
  }

  lemma {:induction false} SmallerSize(a: set<nat>, b: set<nat>)
    requires a <= b
    ensures |a| <= |b|
  {
    if a != {} {
      var x :| x in a;
      SmallerSize(a - {x}, b - {x});
    }
  }

  // n distinct numbers below n are all of them.
  lemma AllNamed(xs: seq<nat>, n: nat, k: nat)
    requires |xs| == n && k < n
    requires forall i, j :: 0 <= i < j < |xs| ==> xs[i] != xs[j]
    requires forall i :: 0 <= i < |xs| ==> xs[i] < n
    ensures k in xs
  {
    DistinctSize(xs);
    BelowSize(n);
    assert Elements(xs) <= Below(n);
    SameSize(Elements(xs), Below(n));
    assert k in Below(n);
  }

  lemma {:induction false} LastNotBound(f: Folder)
    requires InRange(f) && Distinct(f) && NoFaults(f) && |f.coder| > 0
    ensures forall i :: 0 <= i < |f.bindPair| ==> f.bindPair[i].outs < |f.coder| - 1
    ensures FindOut(f.bindPair, |f.coder| - 1).None?
  {
    forall i | 0 <= i < |f.bindPair| ensures f.bindPair[i].outs < |f.coder| - 1 {
      PairForward(f, i);
    }
  }

  // Every output but the last is bound: there are as many bind pairs as other outputs.
  lemma OthersBound(f: Folder, c: nat) returns (i: nat)
    requires InRange(f) && Distinct(f) && NoFaults(f) && c + 1 < |f.coder| && |f.bindPair| == f.outs - 1
    ensures i < |f.bindPair| && f.bindPair[i].outs == c
  {
    LastNotBound(f);
    OneEach(f.coder, |f.coder|);
    assert f.coder[..|f.coder|] == f.coder;
    var outs := seq(|f.bindPair|, i requires 0 <= i < |f.bindPair| => f.bindPair[i].outs);
    AllNamed(outs, |f.coder| - 1, c);
    i :| 0 <= i < |outs| && outs[i] == c;
  }

  predicate Complete(f: Folder) {
    |f.coder| > 0 && |f.bindPair| == f.outs - 1 && |f.size| == f.outs
  }

  lemma {:induction false} UnboundFrom(f: Folder, i: nat)
    requires InRange(f) && Distinct(f) && NoFaults(f) && Complete(f) && i < |f.coder| == f.outs
    ensures Unbound(f, i) == [|f.coder| - 1]
    decreases |f.coder| - i
  {
    hide Distinct, NoFaults, InRange, FindOut;
    LastNotBound(f);
    if i + 1 < |f.coder| {
      var k := OthersBound(f, i);
      PairFound(f, k);
      UnboundFrom(f, i + 1);
    } else {
      assert Unbound(f, i + 1) == [];
    }
  }

  // When the pass does not stop, the only output left over is that of the last coder, and the
  // size of the folder's bytes is the size of the last coder.
  lemma RootIsLast(f: Folder)
    requires InRange(f) && Distinct(f) && NoFaults(f) && Complete(f)
    ensures Unbound(f, 0) == [|f.coder| - 1]
    ensures f.outs == |f.coder| && UnpackSize(f) == f.size[|f.coder| - 1]
  {
    OneEach(f.coder, |f.coder|);
    assert f.coder[..|f.coder|] == f.coder;
    UnboundFrom(f, 0);
    LastNotBound(f);
  }

  // --- a well-formed folder lists its packed streams ---

  lemma {:induction false} UnboundHas(pairs: seq<BindPair>, i: nat, n: nat)
    requires n <= MAX_UINT32
    ensures forall x: nat :: x in UnboundIns(pairs, i, n) <==> i <= x < n && FindIn(pairs, x).None?
    decreases n - i
  {
    hide FindIn;
    if i < n {
      hide UnboundIns;
      UnboundHas(pairs, i + 1, n);
      UnboundStep(pairs, i, n);
    }
  }

  lemma {:induction false} UnboundDistinct(pairs: seq<BindPair>, i: nat, n: nat)
    requires n <= MAX_UINT32
    ensures Different(UnboundIns(pairs, i, n))
    decreases n - i
  {
    hide FindIn;
    if i < n {
      hide UnboundIns, Different;
      UnboundDistinct(pairs, i + 1, n);
      UnboundStep(pairs, i, n);
      UnboundHas(pairs, i + 1, n);
      FrontDistinct(i, UnboundIns(pairs, i + 1, n));
    }
  }

  lemma FrontDistinct(i: nat, rest: seq<nat>)
    requires i !in rest && Different(rest)
    ensures Different([i] + rest) && [] + rest == rest
  {
    hide Different;
    var s := [i] + rest;
    forall j, k | 0 <= j < k < |s| ensures s[j] != s[k] {
      BehindFront(i, rest, k);
      if j > 0 {
        BehindFront(i, rest, j);
        DifferentAt(rest, j - 1, k - 1);
      }
    }
    DifferentIs(s);
  }

  lemma BehindFront(i: nat, rest: seq<nat>, k: nat)
    requires 0 < k <= |rest|
    ensures ([i] + rest)[k] == rest[k - 1] && rest[k - 1] in rest
  {
  }

  lemma DifferentAt(xs: seq<nat>, i: nat, j: nat)
    requires Different(xs) && i < j < |xs|
    ensures xs[i] != xs[j]
  {
  }

  lemma DifferentIs(xs: seq<nat>)
    requires forall i, j :: 0 <= i < j < |xs| ==> xs[i] != xs[j]
    ensures Different(xs)
  {
  }

  // The sizes of two sets that share nothing and make up the numbers below n.
  lemma PartSizes(a: set<nat>, b: set<nat>, n: nat)
    requires a !! b && (forall x: nat :: x < n <==> x in a || x in b)
    ensures |a| + |b| == n
  {
    BelowSize(n);
    assert Below(n) == a + b;
  }

  // With as many bind pairs as inputs but one, and no input bound twice, one input is left over: the
  // streams found for a folder are as many as it says.
  lemma PackedCount(f: Folder)
    requires GoodFolder(f) && Distinct(f)
    ensures |f.packed| == f.packedStreams
  {
    hide GoodCoders, GoodPairs, SumIns, SumOuts, UnboundIns, FindIn;
    if f.packedStreams == 1 {
      var bound: seq<nat> := seq(|f.bindPair|, i requires 0 <= i < |f.bindPair| => f.bindPair[i].ins);
      var free: seq<nat> := f.packed;
      UnboundDistinct(f.bindPair, 0, f.ins);
      UnboundHas(f.bindPair, 0, f.ins);
      DistinctBound(f, bound);
      DistinctSize(bound);
      DistinctSize(free);
      forall x: nat ensures x < f.ins <==> x in Elements(bound) || x in Elements(free)
                    ensures !(x in Elements(bound) && x in Elements(free)) {
        BoundOrFree(f, bound, x);
      }
      PartSizes(Elements(bound), Elements(free), f.ins);
    }
  }

  lemma DistinctBound(f: Folder, bound: seq<nat>)
    requires Distinct(f) && |bound| == |f.bindPair| && forall i :: 0 <= i < |bound| ==> bound[i] == f.bindPair[i].ins
    ensures Different(bound)
  {
  }

  lemma BoundOrFree(f: Folder, bound: seq<nat>, x: nat)
    requires Distinct(f) && |bound| == |f.bindPair| && forall i :: 0 <= i < |bound| ==> bound[i] == f.bindPair[i].ins
    ensures x in bound <==> FindIn(f.bindPair, x).Some?
    ensures x in bound ==> x < f.ins
  {
    if x in bound {
      var i :| 0 <= i < |bound| && bound[i] == x;
      PairFound(f, i);
    }
    if FindIn(f.bindPair, x).Some? {
      var i :| 0 <= i < |f.bindPair| && f.bindPair[i] == FindIn(f.bindPair, x).value;
      assert bound[i] == x;
    }
  }

  // --- the wiring is a tree ---

  datatype Node = Leaf(index: nat) | Inner(coder: nat)

  function Count(t: Stream, x: Node): nat
    decreases t, 1
  {
    match t
    case Packed(i) => if x == Leaf(i) then 1 else 0
    case Coded(c, inputs) => (if x == Inner(c) then 1 else 0) + CountFrom(t, 0, x)
  }

  // The occurrences in the inputs from k on.
  function CountFrom(t: Stream, k: nat, x: Node): nat
    requires t.Coded? && k <= |t.inputs|
    decreases t, 0, |t.inputs| - k
  {
    if k == |t.inputs| then 0 else Count(t.inputs[k], x) + CountFrom(t, k + 1, x)
  }

  // What an input is connected to.
  function SourceOf(f: Folder, input: nat): Option<Node> {
    match PackedAt(f.packed, input)
    case Some(i) => Some(Leaf(i))
    case None =>
      match FindIn(f.bindPair, input)
      case None => None
      case Some(p) => Some(Inner(p.outs))
  }

  // x is connected to input j and to no other.
  ghost predicate Only(f: Folder, x: Node, j: nat) {
    forall k :: 0 <= k < f.ins ==> (SourceOf(f, k) == Some(x) <==> k == j)
  }

  // p is the owner of input j, and no other coder is; beyond all inputs, it is no coder.
  ghost predicate OwnedBy(f: Folder, j: nat, p: nat) {
    forall c :: 0 <= c < |f.coder| ==> (Owns(f, c, j) <==> c == p)
  }

  // x occurs in a term as often as the coder it feeds, and once more if it is the top.
  lemma {:induction false} CountParent(f: Folder, r: nat, t: Stream, x: Node, j: nat, p: nat)
    requires f.ins == SumIns(f.coder) && Denotes(f, r, t) && Only(f, x, j) && OwnedBy(f, j, p)
    ensures Count(t, x) == Count(t, Inner(p)) + (if x == Inner(r) then 1 else 0)
    decreases t, 2
  {
    hide Only, OwnedBy;
    CountParentFrom(f, r, t, 0, x, j, p);
    assert Owns(f, r, j) <==> r == p by {
      OwnedAt(f, j, p, r);
    }
  }

  lemma OwnedAt(f: Folder, j: nat, p: nat, c: nat)
    requires OwnedBy(f, j, p) && c < |f.coder|
    ensures Owns(f, c, j) <==> c == p
  {
  }

  lemma {:induction false} CountParentFrom(f: Folder, r: nat, t: Stream, k: nat, x: Node, j: nat, p: nat)
    requires f.ins == SumIns(f.coder) && Denotes(f, r, t) && k <= |t.inputs| && Only(f, x, j) && OwnedBy(f, j, p)
    ensures CountFrom(t, k, x)
            == CountFrom(t, k, Inner(p)) + (if Start(f, r) + k <= j < Start(f, r) + f.coder[r].ins then 1 else 0)
    decreases t, 0, |t.inputs| - k
  {
    hide Only, OwnedBy, SourceOf;
    if k < |t.inputs| {
      CountParentFrom(f, r, t, k + 1, x, j, p);
      SumsBelow(f.coder, r);
      CountParentFed(f, Start(f, r) + k, t.inputs[k], x, j, p);
    }
  }

  lemma {:induction false} CountParentFed(f: Folder, input: nat, u: Stream, x: Node, j: nat, p: nat)
    requires f.ins == SumIns(f.coder) && Feeds(f, input, u) && input < f.ins && Only(f, x, j) && OwnedBy(f, j, p)
    ensures Count(u, x) == Count(u, Inner(p)) + (if input == j then 1 else 0)
    decreases u, 3
  {
    hide OwnedBy, Denotes;
    assert SourceOf(f, input) == Some(x) <==> input == j;
    if PackedAt(f.packed, input).None? {
      CountParent(f, FindIn(f.bindPair, input).value.outs, u, x, j, p);
    }
  }

  // No term holds a coder the folder does not have.
  lemma {:induction false} CountBeyond(f: Folder, r: nat, t: Stream, c: nat)
    requires Denotes(f, r, t) && c >= |f.coder|
    ensures Count(t, Inner(c)) == 0
    decreases t, 2
  {
    CountBeyondFrom(f, r, t, 0, c);
  }

  lemma {:induction false} CountBeyondFrom(f: Folder, r: nat, t: Stream, k: nat, c: nat)
    requires Denotes(f, r, t) && c >= |f.coder| && k <= |t.inputs|
    ensures CountFrom(t, k, Inner(c)) == 0
    decreases t, 0, |t.inputs| - k
  {
    if k < |t.inputs| {
      CountBeyondFrom(f, r, t, k + 1, c);
      assert Feeds(f, Start(f, r) + k, t.inputs[k]);
      if t.inputs[k].Coded? {
        CountBeyond(f, FindIn(f.bindPair, Start(f, r) + k).value.outs, t.inputs[k], c);
      }
    }
  }

  lemma OwnedByOwner(f: Folder, j: nat)
    requires f.ins == SumIns(f.coder) && j < f.ins && Start(f, 0) == 0
    ensures OwnedBy(f, j, Owner(f, j, 0))
  {
    var p := Owner(f, j, 0);
    forall c | 0 <= c < |f.coder| ensures Owns(f, c, j) <==> c == p {
      if Owns(f, c, j) {
        OneOwner(f, c, p, j);
      }
    }
  }

  // Past the inputs there is no owner.
  lemma OwnedByNone(f: Folder)
    requires f.ins == SumIns(f.coder)
    ensures OwnedBy(f, f.ins, |f.coder|)
  {
    forall c | 0 <= c < |f.coder| ensures !Owns(f, c, f.ins) {
      StartsGrow(f, c, |f.coder|);
    }
  }

  lemma PackedOnce(f: Folder, i: nat)
    requires InRange(f) && Distinct(f) && i < |f.packed|
    ensures Only(f, Leaf(i), f.packed[i])
  {
    forall k | 0 <= k < f.ins ensures SourceOf(f, k) == Some(Leaf(i)) <==> k == f.packed[i] {
    }
  }

  lemma BoundOnce(f: Folder, i: nat)
    requires InRange(f) && Distinct(f) && i < |f.bindPair|
    ensures Only(f, Inner(f.bindPair[i].outs), f.bindPair[i].ins)
  {
    PairFound(f, i);
    forall k | 0 <= k < f.ins
      ensures SourceOf(f, k) == Some(Inner(f.bindPair[i].outs)) <==> k == f.bindPair[i].ins {
    }
  }

  // The coder is in the tree exactly once: from the root down, each has one place below a
  // coder that does.
  lemma {:induction false} CoderOnce(f: Folder, t: Stream, c: nat)
    requires InRange(f) && Distinct(f) && NoFaults(f) && Complete(f)
    requires Denotes(f, |f.coder| - 1, t) && c < |f.coder|
    ensures Count(t, Inner(c)) == 1
    decreases |f.coder| - c
  {
    hide Distinct, Denotes, NoFaults, Only, OwnedBy;
    InRangeSums(f);
    if c == |f.coder| - 1 {
      LastFeedsNone(f);
      OwnedByNone(f);
      CountParent(f, c, t, Inner(c), f.ins, |f.coder|);
      CountBeyond(f, c, t, |f.coder|);
    } else {
      var i := OthersBound(f, c);
      PairForward(f, i);
      var j := f.bindPair[i].ins;
      BoundOnce(f, i);
      OwnedByOwner(f, j);
      CoderOnce(f, t, Owner(f, j, 0));
      CountParent(f, |f.coder| - 1, t, Inner(c), j, Owner(f, j, 0));
    }
  }

  lemma LastFeedsNone(f: Folder)
    requires InRange(f) && Distinct(f) && NoFaults(f) && Complete(f)
    ensures Only(f, Inner(|f.coder| - 1), f.ins)
  {
    hide NoFaults;
    LastNotBound(f);
    forall k | 0 <= k < f.ins ensures SourceOf(f, k) != Some(Inner(|f.coder| - 1)) {
    }
  }

  // Every coder and every packed stream has exactly one place in the tree.
  lemma WiredOnce(f: Folder, t: Stream)
    requires InRange(f) && Distinct(f) && NoFaults(f) && Complete(f)
    requires Denotes(f, |f.coder| - 1, t)
    ensures forall c :: 0 <= c < |f.coder| ==> Count(t, Inner(c)) == 1
    ensures forall i :: 0 <= i < |f.packed| ==> Count(t, Leaf(i)) == 1
  {
    hide Distinct, Denotes, NoFaults, Only, OwnedBy;
    InRangeSums(f);
    forall c | 0 <= c < |f.coder| ensures Count(t, Inner(c)) == 1 {
      CoderOnce(f, t, c);
    }
    forall i | 0 <= i < |f.packed| ensures Count(t, Leaf(i)) == 1 {
      var j := f.packed[i];
      PackedOnce(f, i);
      OwnedByOwner(f, j);
      CoderOnce(f, t, Owner(f, j, 0));
      CountParent(f, |f.coder| - 1, t, Leaf(i), j, Owner(f, j, 0));
    }
  }

  // On a well-formed folder the pass never ends without a stream: it stops at the first coder
  // with a fault, and without one it gives the tree of the last coder.
  lemma WellFormedOutcome(f: Folder, built: seq<bool>, w: Wiring)
    requires InRange(f) && Distinct(f) && Complete(f) && |built| == |f.coder| && Outcome(f, built, w)
    ensures w != Refused(NoUnboundStream)
    ensures w.Wired? <==> forall c :: 0 <= c < |f.coder| ==> FaultAt(f, built, c).None?
    ensures w.Wired? ==> f.outs == |f.coder| && Denotes(f, |f.coder| - 1, w.stream)
                         && UnpackSize(f) == f.size[|f.coder| - 1]
  {
    hide Distinct, Denotes, InRange, Unbound, AllSourced;
    if forall c :: 0 <= c < |f.coder| ==> FaultAt(f, built, c).None? {
      forall c | 0 <= c < |f.coder| ensures f.coder[c].outs == 1 && AllSourced(f, c) {
        assert FaultAt(f, built, c).None?;
      }
      RootIsLast(f);
    }
  }
}
