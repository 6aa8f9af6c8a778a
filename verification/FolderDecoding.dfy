/** Reading a folder of a written archive: its coders wired up and run over its packed bytes. */
module FolderDecoding {
  import opened Basics
  import opened HeaderData
  import opened HeaderStreams
  import opened Placement
  import opened ArchiveState
  import opened ArchiveHeader
  import opened FolderGraph

  // What a coder makes of its input streams.
  type CoderRun = (Coder, seq<seq<byte>>) -> seq<byte>

  // The limit that is put on every coder: an int64, so that nothing is read from 2^63 on.
  function Limited(s: seq<byte>, size: u64): seq<byte> {
    if size >= TWO63 then [] else s[..Min(|s|, size)]
  }

  // A limit of its own length leaves a stream alone if and only if an int64 can count it.
  lemma LimitedWhole(s: seq<byte>)
    requires 0 < |s| < TWO64
    ensures Limited(s, |s|) == s <==> |s| < TWO63
  {
    assert s[..|s|] == s;
  }

  lemma LimitedShort(s: seq<byte>, size: u64)
    requires |s| <= size < TWO63
    ensures Limited(s, size) == s
  {
    assert s[..|s|] == s;
  }

  // The bytes of a wired stream.
  function Run(f: Folder, run: CoderRun, packed: seq<seq<byte>>, t: Stream): seq<byte>
    decreases t, 0
  {
    match t
    case Packed(n) => if n < |packed| then packed[n] else []
    case Coded(c, inputs) =>
      if c < |f.coder| && c < |f.size| then Limited(run(f.coder[c], RunInputs(f, run, packed, t, 0)), f.size[c]) else []
  }

  function RunInputs(f: Folder, run: CoderRun, packed: seq<seq<byte>>, t: Stream, k: nat): seq<seq<byte>>
    requires t.Coded? && k <= |t.inputs|
    decreases t, 0, |t.inputs| - k
  {
    if k == |t.inputs| then []
    else [Run(f, run, packed, t.inputs[k])] + RunInputs(f, run, packed, t, k + 1)
  }

  // The writer's folders: a compressor over the packed stream, with the cipher between if there is one.
  function MetaTree(c: Codec): Stream {
    if c.cipher.Some? then Coded(1, [Coded(0, [Packed(0)])]) else Coded(0, [Packed(0)])
  }

  // What the compressor's coder is given: the packed bytes, or what the cipher's coder makes of them,
  // limited to what entered the cipher.
  function Given(run: CoderRun, d: Fold): seq<byte> {
    if d.codec.cipher.Some? then
      Limited(run(Coder(AES, 1, 1, d.codec.cipher.value), [d.emitted]), d.codec.inner(d.chunks))
    else d.emitted
  }

  // The coders undo the codec of every folder.
  ghost predicate Undone(run: CoderRun, d: Fold) {
    Limited(run(Coder(LZMA2, 1, 1, [d.codec.property]), [Given(run, d)]), |Flat(d.chunks)| % TWO64) == Unpacked(d)
  }

  ghost predicate Undoes(run: CoderRun, folders: Folds) {
    forall r :: 0 <= r < |folders| ==> Undone(run, folders[r])
  }

  lemma MetaStarts(c: Codec, inner: u64, total: u64)
    ensures var f := MetaFolder(c, inner, total);
            && SumIns(f.coder) == |f.coder| == SumOuts(f.coder) && Start(f, 0) == 0
            && (c.cipher.Some? ==> Start(f, 1) == 1)
  {
    var f := MetaFolder(c, inner, total);
    assert f.coder[..0] == [];
    if c.cipher.Some? {
      TwoCoders(f);
      assert f.coder[..1] == [f.coder[0]] && f.coder[..1][1..] == [];
    } else {
      assert f.coder[1..] == [];
    }
  }

  // It denotes that tree.
  lemma MetaDenotes(c: Codec, inner: u64, total: u64)
    ensures var f := MetaFolder(c, inner, total); Denotes(f, |f.coder| - 1, MetaTree(c))
  {
    var f := MetaFolder(c, inner, total);
    MetaStarts(c, inner, total);
    assert PackedAt(f.packed, 0) == Some(0) && PackedAt(f.packed, 1) == None by {
      assert f.packed[..0] == [];
    }
    var leaf := Coded(0, [Packed(0)]);
    assert Feeds(f, 0, Packed(0));
    assert Denotes(f, 0, leaf);
    if c.cipher.Some? {
      assert Feeds(f, 1, leaf);
    }
  }

  lemma MetaSound(c: Codec, inner: u64, total: u64)
    ensures var f := MetaFolder(c, inner, total);
            && InRange(f) && Distinct(f) && Complete(f)
            && forall k :: 0 <= k < |f.coder| ==> f.coder[k].outs == 1 && AllSourced(f, k)
  {
    var f := MetaFolder(c, inner, total);
    MetaStarts(c, inner, total);
    assert f.packed[..0] == [];
  }

  // folderReader makes that tree of a folder the writer describes, if its coders can be made.
  lemma MetaWires(c: Codec, inner: u64, total: u64, built: seq<bool>, w: Wiring)
    requires var f := MetaFolder(c, inner, total);
             |built| == |f.coder| && (forall k :: 0 <= k < |built| ==> built[k]) && Outcome(f, built, w)
    ensures w == Wired(MetaTree(c))
  {
    hide Outcome, InRange, Distinct, Denotes, AllSourced, MetaFolder;
    var f := MetaFolder(c, inner, total);
    MetaSound(c, inner, total);
    WellFormedOutcome(f, built, w);
    MetaDenotes(c, inner, total);
    assert w.Wired?;
    DenotesOne(f, |f.coder| - 1, w.stream, MetaTree(c));
  }

  // Running it over the packed bytes undoes the codec.
  lemma MetaRuns(d: Fold, run: CoderRun)
    requires Undone(run, d)
    ensures Run(FoldMeta(d), run, [d.emitted], MetaTree(d.codec)) == Unpacked(d)
  {
    hide Limited, Unpacked, Flat;
    var f, leaf, t := FoldMeta(d), Coded(0, [Packed(0)]), MetaTree(d.codec);
    assert RunInputs(f, run, [d.emitted], leaf, 1) == [];
    assert RunInputs(f, run, [d.emitted], leaf, 0) == [d.emitted];
    if d.codec.cipher.Some? {
      assert RunInputs(f, run, [d.emitted], t, 1) == [];
      assert RunInputs(f, run, [d.emitted], t, 0) == [Run(f, run, [d.emitted], leaf)];
    }
  }

  // The bytes of sections of the archive.
  method ReadSections(out: seq<byte>, sections: seq<Section>) returns (packed: seq<seq<byte>>)
    requires forall i :: 0 <= i < |sections| ==> sections[i].start + sections[i].size <= |out|
    ensures |packed| == |sections|
    ensures forall i :: 0 <= i < |sections| ==>
            packed[i] == out[sections[i].start..sections[i].start + sections[i].size]
  {
    packed := [];
    for i := 0 to |sections|
      invariant |packed| == i
      invariant forall k :: 0 <= k < i ==> packed[k] == out[sections[k].start..sections[k].start + sections[k].size]
    {
      packed := packed + [out[sections[i].start..sections[i].start + sections[i].size]];
    }
  }

  // The reader of a folder, run to its end; every coder can be made.
  method DecodeFolder(p: PackInfo, folders: seq<Folder>, r: nat, out: seq<byte>, run: CoderRun, ghost d: Fold)
    returns (data: seq<byte>)
    requires r < |folders| && folders[r] == FoldMeta(d) && Undone(run, d)
    requires ListedBefore(folders, r) == FirstPacked(folders, r) == r < |p.size| && p.position == 0
    requires p.size[r] == |d.emitted|
    requires var start := Sum(p.size[..r]); start + |d.emitted| <= |out| && out[start..start + |d.emitted|] == d.emitted
    ensures data == Unpacked(d)
  {
    hide Outcome, InRange, Run, MetaFolder, Sum, Undone, Unpacked, Flat;
    var f := folders[r];
    ghost var inner, total := d.codec.inner(d.chunks), |Flat(d.chunks)| % TWO64;
    MetaSound(d.codec, inner, total);
    var built := seq(|f.coder|, _ => true);
    var w := FolderGraph.FolderReader(f, built);
    MetaWires(d.codec, inner, total, built, w);
    OnePacked(d.codec, inner, total);
    var sections := PackedSections(p, folders, r);
    assert p.size[r..r] == [];
    SumNone();
    var packed := ReadSections(out, sections.value);
    assert packed == [d.emitted];
    MetaRuns(d, run);
    return Run(f, run, packed, w.stream);
  }

  lemma OnePacked(c: Codec, inner: u64, total: u64)
    ensures MetaFolder(c, inner, total).packed == [0]
  {
  }
}
