/** What a writer knows of its files and folders, and what every step keeps true of it. */
module ArchiveState {
  import opened Basics
  import opened HeaderData

  // The compressor of one folder, which sees its data chunk by chunk: what it passes on when a
  // chunk follows earlier ones, and what it passes on when closed. With encryption it includes the
  // cipher, and inner is the number of bytes that enter the cipher; its bytes unpack with that.
  datatype Codec = Codec(emit: (seq<seq<byte>>, seq<byte>) -> seq<byte>, finish: seq<seq<byte>> -> seq<byte>,
                         unpack: (seq<byte>, u64) -> seq<byte>, inner: seq<seq<byte>> -> u64,
                         property: byte, cipher: Option<seq<byte>>)

  function Emitted(c: Codec, chunks: seq<seq<byte>>): seq<byte> {
    if chunks == [] then []
    else
      var before := chunks[..|chunks| - 1];
      Emitted(c, before) + c.emit(before, chunks[|chunks| - 1])
  }

  function Packed(c: Codec, chunks: seq<seq<byte>>): seq<byte> {
    Emitted(c, chunks) + c.finish(chunks)
  }

  // No more can be read of one folder than an int64 counts.
  ghost predicate Lossless(c: Codec) {
    && (forall chunks: seq<seq<byte>> ::
          |Packed(c, chunks)| < TWO63 ==> c.unpack(Packed(c, chunks), c.inner(chunks)) == Flat(chunks))
    && (c.cipher.Some? ==> |c.cipher.value| <= MAX_UINT32)
  }

  // A file added to the archive. What was written to it stands for its running checksum.
  datatype Entry = Entry(fh: FileHeader, written: seq<byte>, fold: Option<nat>, open: bool)

  // A folder: the chunks its compressor has seen and what that has passed on.
  datatype Fold = Fold(codec: Codec, chunks: seq<seq<byte>>, emitted: seq<byte>, files: seq<nat>, closed: bool)

  type Entries = seq<Entry>
  type Folds = seq<Fold>

  // The bytes passed on by all folders, in their order.
  function Joined(folders: Folds): seq<byte> {
    if folders == [] then [] else Joined(folders[..|folders| - 1]) + folders[|folders| - 1].emitted
  }

  // The files of all folders, in their order.
  function Listed(folders: Folds): seq<nat> {
    if folders == [] then [] else Listed(folders[..|folders| - 1]) + folders[|folders| - 1].files
  }

  // The files with data, in the order they were added.
  function DataFiles(files: Entries): seq<nat> {
    if files == [] then []
    else
      DataFiles(files[..|files| - 1]) + if files[|files| - 1].fold.Some? then [|files| - 1] else []
  }

  predicate Among(list: seq<nat>, n: nat) {
    forall i :: 0 <= i < |list| ==> list[i] < n
  }

  function FlatWritten(files: Entries, list: seq<nat>): seq<byte>
    requires Among(list, |files|)
  {
    if list == [] then []
    else
      assert forall i :: 0 <= i < |list| ==> list[i] < |files|;
      FlatWritten(files, list[..|list| - 1]) + files[list[|list| - 1]].written
  }

  predicate Rising(list: seq<nat>) {
    forall i, j :: 0 <= i < j < |list| ==> list[i] < list[j]
  }

  predicate EndsWith(list: seq<nat>, k: nat) {
    |list| > 0 && list[|list| - 1] == k
  }

  // --- what holds of every file and every folder ---

  ghost predicate EntryOk(files: Entries, folders: Folds, k: nat)
    requires k < |files|
  {
    var e := files[k];
    && (e.fold.None? <==> e.fh.isEmptyStream) && !e.fh.isEmptyFile
    && (e.fold.Some? ==>
          && e.fold.value < |folders|
          && (e.open ==> !folders[e.fold.value].closed && EndsWith(folders[e.fold.value].files, k)))
  }

  ghost predicate FoldOk(files: Entries, folders: Folds, f: nat)
    requires f < |folders|
  {
    var d := folders[f];
    && |d.files| > 0 && Among(d.files, |files|) && Rising(d.files)
    && (forall i :: 0 <= i < |d.files| ==> files[d.files[i]].fold == Some(f))
    && Flat(d.chunks) == FlatWritten(files, d.files)
    && d.emitted == (if d.closed then Packed(d.codec, d.chunks) else Emitted(d.codec, d.chunks))
    && Lossless(d.codec)
  }

  // Unless the archive is solid a folder has one file, and they are closed together.
  ghost predicate SingleOk(files: Entries, folders: Folds, f: nat)
    requires f < |folders|
  {
    var d := folders[f];
    |d.files| == 1 && d.files[0] < |files| && (d.closed <==> !files[d.files[0]].open)
  }

  ghost predicate Consistent(solid: bool, files: Entries, folders: Folds) {
    && (forall k :: 0 <= k < |files| ==> EntryOk(files, folders, k))
    && (forall f :: 0 <= f < |folders| ==> FoldOk(files, folders, f))
    && (!solid ==> forall f :: 0 <= f < |folders| ==> SingleOk(files, folders, f))
    && (solid ==> |folders| <= 1)
    && Listed(folders) == DataFiles(files)
  }

  // --- the steps ---

  // A folder of which only the data have changed.
  lemma {:induction false} ListedSame(folders: Folds, f: nat, d: Fold)
    requires f < |folders| && d.files == folders[f].files
    ensures Listed(folders[f := d]) == Listed(folders)
  {
    var n := |folders| - 1;
    if f == n {
      assert folders[f := d][..n] == folders[..n];
    } else {
      assert folders[f := d][..n] == folders[..n][f := d];
      ListedSame(folders[..n], f, d);
    }
  }

  lemma {:induction false} DataFilesSame(files: Entries, k: nat, e: Entry)
    requires k < |files| && (e.fold.Some? <==> files[k].fold.Some?)
    ensures DataFiles(files[k := e]) == DataFiles(files)
  {
    var n := |files| - 1;
    if k == n {
      assert files[k := e][..n] == files[..n];
    } else {
      assert files[k := e][..n] == files[..n][k := e];
      DataFilesSame(files[..n], k, e);
    }
  }

  lemma {:induction false} FlatWrittenSame(files: Entries, others: Entries, list: seq<nat>)
    requires Among(list, |files|) && Among(list, |others|)
    requires forall i :: 0 <= i < |list| ==> files[list[i]].written == others[list[i]].written
    ensures FlatWritten(files, list) == FlatWritten(others, list)
  {
    if list != [] {
      FlatWrittenSame(files, others, list[..|list| - 1]);
    }
  }

  // The file at the end of a folder grows.
  lemma FlatWrittenMore(files: Entries, k: nat, e: Entry, list: seq<nat>, p: seq<byte>)
    requires Among(list, |files|) && Rising(list) && EndsWith(list, k) && e.written == files[k].written + p
    ensures FlatWritten(files[k := e], list) == FlatWritten(files, list) + p
  {
    var front := list[..|list| - 1];
    assert forall i :: 0 <= i < |front| ==> front[i] == list[i] < k;
    FlatWrittenSame(files, files[k := e], front);
  }

  lemma EmittedMore(c: Codec, chunks: seq<seq<byte>>, p: seq<byte>)
    ensures Emitted(c, chunks + [p]) == Emitted(c, chunks) + c.emit(chunks, p)
  {
    assert (chunks + [p])[..|chunks|] == chunks;
  }

  // A folder after one more chunk.
  function Fed(d: Fold, p: seq<byte>): Fold {
    d.(chunks := d.chunks + [p], emitted := d.emitted + d.codec.emit(d.chunks, p))
  }

  function Shut(d: Fold): Fold {
    if d.closed then d else d.(emitted := d.emitted + d.codec.finish(d.chunks), closed := true)
  }

  // Chunk p is written to the open file k of folder f.
  lemma WriteKeeps(solid: bool, files: Entries, folders: Folds, k: nat, f: nat, p: seq<byte>)
    requires Consistent(solid, files, folders) && k < |files| && files[k].open && files[k].fold == Some(f)
    ensures f < |folders| && !folders[f].closed
    ensures Consistent(solid, files[k := files[k].(written := files[k].written + p)], folders[f := Fed(folders[f], p)])
  {
    hide Among, Rising, Lossless, Emitted, Flat, FlatWritten, Listed, DataFiles;
    assert EntryOk(files, folders, k);
    assert FoldOk(files, folders, f);
    var d := folders[f];
    var e := files[k].(written := files[k].written + p);
    var files', folders' := files[k := e], folders[f := Fed(d, p)];
    ListedSame(folders, f, Fed(d, p));
    DataFilesSame(files, k, e);
    forall i | 0 <= i < |files| ensures EntryOk(files', folders', i) {
      assert EntryOk(files, folders, i);
    }
    forall g | 0 <= g < |folders| ensures FoldOk(files', folders', g) {
      assert FoldOk(files, folders, g);
      if g == f {
        FedOk(files, folders, k, e, f, p);
      } else {
        OtherFolder(files, folders, k, e, g);
      }
    }
    if !solid {
      forall g | 0 <= g < |folders| ensures SingleOk(files', folders', g) {
        assert SingleOk(files, folders, g);
      }
    }
  }

  lemma FedOk(files: Entries, folders: Folds, k: nat, e: Entry, f: nat, p: seq<byte>)
    requires k < |files| && f < |folders| && FoldOk(files, folders, f) && !folders[f].closed
    requires EndsWith(folders[f].files, k) && e.written == files[k].written + p && e.fold == files[k].fold
    ensures FoldOk(files[k := e], folders[f := Fed(folders[f], p)], f)
  {
    hide Lossless, Emitted, Flat, FlatWritten, Packed;
    var d := folders[f];
    FlatWrittenMore(files, k, e, d.files, p);
    FlatMore(d.chunks, p);
    EmittedMore(d.codec, d.chunks, p);
  }

  // A folder does not see what happens to a file outside it.
  lemma OtherFolder(files: Entries, folders: Folds, k: nat, e: Entry, g: nat)
    requires k < |files| && g < |folders| && FoldOk(files, folders, g)
    requires files[k].fold != Some(g) && e.fold == files[k].fold
    ensures forall folders': Folds :: |folders'| == |folders| && folders'[g] == folders[g] ==>
            FoldOk(files[k := e], folders', g)
  {
    hide Lossless, Emitted, Flat, FlatWritten, Packed;
    FlatWrittenSame(files, files[k := e], folders[g].files);
  }

  // A file without data, or whose folder has been shut, is closed.
  lemma CloseFileKeeps(solid: bool, files: Entries, folders: Folds, k: nat)
    requires Consistent(solid, files, folders) && k < |files|
    requires solid || files[k].fold.None?
    ensures Consistent(solid, files[k := files[k].(open := false)], folders)
  {
    hide Among, Rising, Lossless, Emitted, Flat, FlatWritten, Listed, DataFiles;
    var e := files[k].(open := false);
    var files' := files[k := e];
    assert EntryOk(files, folders, k);
    DataFilesSame(files, k, e);
    forall i | 0 <= i < |files| ensures EntryOk(files', folders, i) {
      assert EntryOk(files, folders, i);
    }
    forall g | 0 <= g < |folders| ensures FoldOk(files', folders, g) {
      assert FoldOk(files, folders, g);
      FoldClosing(files, folders, k, g);
    }
    if !solid {
      forall g | 0 <= g < |folders| ensures SingleOk(files', folders, g) {
        assert SingleOk(files, folders, g) && FoldOk(files, folders, g);
      }
    }
  }

  lemma FoldClosing(files: Entries, folders: Folds, k: nat, g: nat)
    requires k < |files| && g < |folders| && FoldOk(files, folders, g)
    ensures FoldOk(files[k := files[k].(open := false)], folders, g)
  {
    hide Lossless, Emitted, Flat, FlatWritten, Packed;
    FlatWrittenSame(files, files[k := files[k].(open := false)], folders[g].files);
  }

  // Outside solid archives a file and its folder are closed together.
  lemma CloseBothKeeps(files: Entries, folders: Folds, k: nat, f: nat)
    requires Consistent(false, files, folders) && k < |files| && files[k].fold == Some(f) && files[k].open
    ensures f < |folders| && !folders[f].closed
    ensures Consistent(false, files[k := files[k].(open := false)], folders[f := Shut(folders[f])])
  {
    hide Among, Rising, Lossless, Emitted, Flat, FlatWritten, Listed, DataFiles;
    assert EntryOk(files, folders, k);
    assert FoldOk(files, folders, f) && SingleOk(files, folders, f);
    var e := files[k].(open := false);
    var files', folders' := files[k := e], folders[f := Shut(folders[f])];
    DataFilesSame(files, k, e);
    ListedSame(folders, f, Shut(folders[f]));
    forall i | 0 <= i < |files| ensures EntryOk(files', folders', i) {
      assert EntryOk(files, folders, i);
    }
    forall g | 0 <= g < |folders| ensures FoldOk(files', folders', g) && SingleOk(files', folders', g) {
      assert FoldOk(files, folders, g) && SingleOk(files, folders, g);
      FoldClosing(files, folders, k, g);
    }
  }

  // A solid archive's folder is shut when no file is open.
  lemma ShutKeeps(files: Entries, folders: Folds, f: nat)
    requires Consistent(true, files, folders) && f < |folders| && forall k :: 0 <= k < |files| ==> !files[k].open
    ensures Consistent(true, files, folders[f := Shut(folders[f])])
  {
    hide Among, Rising, Lossless, Emitted, Flat, FlatWritten, Listed, DataFiles;
    var folders' := folders[f := Shut(folders[f])];
    ListedSame(folders, f, Shut(folders[f]));
    forall i | 0 <= i < |files| ensures EntryOk(files, folders', i) {
      assert EntryOk(files, folders, i);
    }
    forall g | 0 <= g < |folders| ensures FoldOk(files, folders', g) {
      assert FoldOk(files, folders, g);
    }
  }

  function Added(fh: FileHeader, fold: Option<nat>): Entry {
    Entry(fh, [], fold, true)
  }

  lemma FoldGrows(files: Entries, folders: Folds, e: Entry, g: nat)
    requires g < |folders| && FoldOk(files, folders, g)
    ensures Among(folders[g].files, |files|)
    ensures Among(folders[g].files, |files| + 1)
    ensures FlatWritten(files + [e], folders[g].files) == FlatWritten(files, folders[g].files)
    ensures forall i :: 0 <= i < |folders[g].files| ==> (files + [e])[folders[g].files[i]].fold == Some(g)
  {
    hide Lossless, Emitted, Flat, FlatWritten, Packed;
    FlatWrittenSame(files, files + [e], folders[g].files);
  }

  lemma FoldKept(files: Entries, folders: Folds, e: Entry, d: Fold, g: nat)
    requires g < |folders| && FoldOk(files, folders, g)
    ensures FoldOk(files + [e], folders + [d], g)
  {
    hide Lossless, Emitted, Flat, FlatWritten, Packed, Rising;
    FoldGrows(files, folders, e, g);
  }

  lemma DataFilesMore(files: Entries, e: Entry)
    ensures DataFiles(files + [e]) == DataFiles(files) + if e.fold.Some? then [|files|] else []
  {
    assert (files + [e])[..|files|] == files;
  }

  // A file without data is added.
  lemma AddEmptyKeeps(solid: bool, files: Entries, folders: Folds, fh: FileHeader)
    requires Consistent(solid, files, folders) && fh.isEmptyStream && !fh.isEmptyFile
    ensures Consistent(solid, files + [Added(fh, None)], folders)
  {
    hide Among, Rising, Lossless, Emitted, Flat, FlatWritten, Listed, DataFiles, Packed;
    var files' := files + [Added(fh, None)];
    DataFilesMore(files, Added(fh, None));
    forall i | 0 <= i < |files'| ensures EntryOk(files', folders, i) {
      if i < |files| {
        assert EntryOk(files, folders, i);
      }
    }
    forall g | 0 <= g < |folders| ensures FoldOk(files', folders, g) {
      assert FoldOk(files, folders, g);
      FoldGrows(files, folders, Added(fh, None), g);
    }
    if !solid {
      forall g | 0 <= g < |folders| ensures SingleOk(files', folders, g) {
        assert SingleOk(files, folders, g);
      }
    }
  }

  function NewFold(c: Codec, k: nat): Fold {
    Fold(c, [], [], [k], false)
  }

  // A file is added with a folder of its own.
  lemma AddFolderKeeps(solid: bool, files: Entries, folders: Folds, fh: FileHeader, c: Codec)
    requires Consistent(solid, files, folders) && !fh.isEmptyStream && !fh.isEmptyFile && Lossless(c)
    requires solid ==> folders == []
    ensures Consistent(solid, files + [Added(fh, Some(|folders|))], folders + [NewFold(c, |files|)])
  {
    hide Lossless, Listed, DataFiles, FoldOk;
    var e := Added(fh, Some(|folders|));
    var files', folders' := files + [e], folders + [NewFold(c, |files|)];
    DataFilesMore(files, e);
    assert folders'[..|folders|] == folders;
    assert Listed(folders') == Listed(folders) + [|files|] by {
      ListedMore(folders, NewFold(c, |files|));
    }
    forall i | 0 <= i < |files'| ensures EntryOk(files', folders', i) {
      if i < |files| {
        assert EntryOk(files, folders, i);
      }
    }
    forall g | 0 <= g < |folders'| ensures FoldOk(files', folders', g) {
      if g < |folders| {
        FoldKept(files, folders, e, NewFold(c, |files|), g);
      } else {
        NewFoldOk(files', folders', c);
      }
    }
    if !solid {
      forall g | 0 <= g < |folders'| ensures SingleOk(files', folders', g) {
        if g < |folders| {
          assert SingleOk(files, folders, g);
        }
      }
    }
  }

  lemma ListedMore(folders: Folds, d: Fold)
    ensures Listed(folders + [d]) == Listed(folders) + d.files
  {
    assert (folders + [d])[..|folders|] == folders;
  }

  lemma NewFoldOk(files: Entries, folders: Folds, c: Codec)
    requires |files| > 0 && |folders| > 0 && folders[|folders| - 1] == NewFold(c, |files| - 1) && Lossless(c)
    requires files[|files| - 1].fold == Some(|folders| - 1) && files[|files| - 1].written == []
    ensures FoldOk(files, folders, |folders| - 1)
  {
    hide Lossless;
    var d := folders[|folders| - 1];
    assert d.files[..|d.files| - 1] == [];
    assert FlatWritten(files, []) == [] && [] + files[|files| - 1].written == [];
  }

  // A file is added to the one folder of a solid archive, behind the others.
  lemma AddSolidKeeps(files: Entries, folders: Folds, fh: FileHeader)
    requires Consistent(true, files, folders) && !fh.isEmptyStream && !fh.isEmptyFile && |folders| == 1
    requires !folders[0].closed && forall k :: 0 <= k < |files| ==> !files[k].open
    ensures Consistent(true, files + [Added(fh, Some(0))], [folders[0].(files := folders[0].files + [|files|])])
  {
    hide Lossless, Listed, DataFiles, FlatWritten, Emitted, Flat, Packed;
    var e, d := Added(fh, Some(0)), folders[0].(files := folders[0].files + [|files|]);
    var files' := files + [e];
    DataFilesMore(files, e);
    assert FoldOk(files, folders, 0);
    FoldGrows(files, folders, e, 0);
    FlatWrittenLast(files', folders[0].files, |files|);
    assert Listed([d]) == Listed(folders) + [|files|] by {
      ListedOne(folders[0]);
      ListedOne(d);
      assert folders == [folders[0]];
    }
    forall i | 0 <= i < |files'| ensures EntryOk(files', [d], i) {
      if i < |files| {
        assert EntryOk(files, folders, i);
      }
    }
    assert FoldOk(files', [d], 0);
  }

  lemma ListedOne(d: Fold)
    ensures Listed([d]) == d.files
  {
    assert [d][..0] == [];
    assert Listed([]) == [];
  }

  lemma FlatWrittenLast(files: Entries, list: seq<nat>, k: nat)
    requires Among(list, |files|) && k < |files|
    ensures Among(list + [k], |files|) && FlatWritten(files, list + [k]) == FlatWritten(files, list) + files[k].written
  {
    assert (list + [k])[..|list|] == list;
  }

  // --- the bytes passed on ---

  lemma JoinedMore(folders: Folds, d: Fold)
    ensures Joined(folders + [d]) == Joined(folders) + d.emitted
  {
    assert (folders + [d])[..|folders|] == folders;
  }

  // What the last folder passes on comes after everything.
  lemma JoinedLast(folders: Folds, d: Fold, p: seq<byte>)
    requires |folders| > 0 && d.emitted == folders[|folders| - 1].emitted + p
    ensures Joined(folders[|folders| - 1 := d]) == Joined(folders) + p
  {
    assert folders[|folders| - 1 := d][..|folders| - 1] == folders[..|folders| - 1];
  }

  lemma {:induction false} JoinedSame(a: Folds, b: Folds)
    requires |a| == |b| && forall i :: 0 <= i < |a| ==> a[i].emitted == b[i].emitted
    ensures Joined(a) == Joined(b)
  {
    if a != [] {
      JoinedSame(a[..|a| - 1], b[..|b| - 1]);
    }
  }
}
