/** The archive writer and the coordinator that puts finished folders in order. */
module ArchiveWriter {
  import opened Basics
  import opened HeaderData
  import opened ArchiveState

  // A finished folder on its way to the coordinator.
  datatype Spool = Spool(number: nat, bytes: seq<byte>)

  // --- the coordinator's bookkeeping ---

  ghost predicate SpoolOk(folders: Folds, s: nat, bytes: seq<byte>) {
    s < |folders| && folders[s].closed && bytes == folders[s].emitted
  }

  ghost predicate Queued(queue: seq<Spool>, s: nat) {
    exists i :: 0 <= i < |queue| && queue[i].number == s
  }

  // Folders 0 .. writeSeq - 1 are written, in order; every other closed folder is either held
  // back in the map or still in the channel, once.
  ghost predicate Pending(folders: Folds, queue: seq<Spool>, held: map<nat, seq<byte>>, writeSeq: nat, out: seq<byte>) {
    && writeSeq <= |folders| && out == Joined(folders[..writeSeq])
    && (forall s :: 0 <= s < writeSeq ==> folders[s].closed)
    && (forall s :: s in held ==> writeSeq <= s && SpoolOk(folders, s, held[s]))
    && (forall i :: 0 <= i < |queue| ==>
          writeSeq <= queue[i].number && queue[i].number !in held && SpoolOk(folders, queue[i].number, queue[i].bytes))
    && (forall i, j :: 0 <= i < j < |queue| ==> queue[i].number != queue[j].number)
    && (forall s :: writeSeq <= s < |folders| && folders[s].closed ==> s in held || Queued(queue, s))
  }

  // Open folders may change and new ones may be added.
  lemma PendingOpen(folders: Folds, folders': Folds, queue: seq<Spool>, held: map<nat, seq<byte>>, writeSeq: nat,
      out: seq<byte>)
    requires Pending(folders, queue, held, writeSeq, out) && |folders| <= |folders'|
    requires forall s :: 0 <= s < |folders| ==> folders'[s].closed == folders[s].closed
    requires forall s :: 0 <= s < |folders| && folders[s].closed ==> folders'[s].emitted == folders[s].emitted
    requires forall s :: |folders| <= s < |folders'| ==> !folders'[s].closed
    ensures Pending(folders', queue, held, writeSeq, out)
  {
    hide Joined;
    JoinedSame(folders[..writeSeq], folders'[..writeSeq]);
    forall s | s in held ensures SpoolOk(folders', s, held[s]) {
      assert SpoolOk(folders, s, held[s]);
    }
    forall i | 0 <= i < |queue| ensures SpoolOk(folders', queue[i].number, queue[i].bytes) {
      assert SpoolOk(folders, queue[i].number, queue[i].bytes);
    }
  }

  // A folder is closed and sent.
  lemma PendingSent(folders: Folds, f: nat, queue: seq<Spool>, held: map<nat, seq<byte>>, writeSeq: nat, out: seq<byte>)
    requires Pending(folders, queue, held, writeSeq, out) && f < |folders| && !folders[f].closed
    ensures Pending(folders[f := Shut(folders[f])], queue + [Spool(f, Shut(folders[f]).emitted)], held, writeSeq, out)
  {
    hide Joined;
    var folders', queue' := folders[f := Shut(folders[f])], queue + [Spool(f, Shut(folders[f]).emitted)];
    JoinedSame(folders[..writeSeq], folders'[..writeSeq]);
    forall s | s in held ensures SpoolOk(folders', s, held[s]) {
      assert SpoolOk(folders, s, held[s]);
    }
    forall i | 0 <= i < |queue| ensures queue[i].number != f && SpoolOk(folders', queue[i].number, queue[i].bytes) {
      assert SpoolOk(folders, queue[i].number, queue[i].bytes);
    }
    assert queue'[|queue|].number == f;
    forall s | writeSeq <= s < |folders'| && folders'[s].closed ensures s in held || Queued(queue', s) {
      if s != f && s !in held {
        assert Queued(queue, s);
        var i :| 0 <= i < |queue| && queue[i].number == s;
        assert queue'[i].number == s;
      }
    }
  }

  // The coordinator takes the next spool from the channel.
  lemma PendingReceived(folders: Folds, queue: seq<Spool>, held: map<nat, seq<byte>>, writeSeq: nat, out: seq<byte>)
    requires Pending(folders, queue, held, writeSeq, out) && |queue| > 0
    ensures Pending(folders, queue[1..], held[queue[0].number := queue[0].bytes], writeSeq, out)
  {
    hide Joined;
    var held' := held[queue[0].number := queue[0].bytes];
    forall s | writeSeq <= s < |folders| && folders[s].closed ensures s in held' || Queued(queue[1..], s) {
      if s !in held' {
        assert Queued(queue, s);
        var i :| 0 <= i < |queue| && queue[i].number == s;
        assert queue[1..][i - 1].number == s;
      }
    }
  }

  // The coordinator writes the spool whose turn it is.
  lemma PendingWritten(folders: Folds, queue: seq<Spool>, held: map<nat, seq<byte>>, writeSeq: nat, out: seq<byte>)
    requires Pending(folders, queue, held, writeSeq, out) && writeSeq in held
    ensures Pending(folders, queue, held - {writeSeq}, writeSeq + 1, out + held[writeSeq])
  {
    hide Joined;
    assert SpoolOk(folders, writeSeq, held[writeSeq]);
    assert folders[..writeSeq + 1] == folders[..writeSeq] + [folders[writeSeq]];
    JoinedMore(folders[..writeSeq], folders[writeSeq]);
  }

  // A file that is the last one added is in the last folder.
  lemma LastFileFolder(solid: bool, files: Entries, folders: Folds)
    requires Consistent(solid, files, folders) && |files| > 0 && files[|files| - 1].fold.Some?
    ensures |folders| > 0 && files[|files| - 1].fold == Some(|folders| - 1)
  {
    hide Flat, Emitted, FlatWritten, Lossless;
    assert DataFiles(files)[|DataFiles(files)| - 1] == |files| - 1;
    assert FoldOk(files, folders, |folders| - 1);
    var d := folders[|folders| - 1];
    assert Listed(folders)[|Listed(folders)| - 1] == d.files[|d.files| - 1];
  }

  class Writer {
    const solid: bool
    const concurrency: nat

    // everything added, and the folders made for it
    var files: Entries
    var folders: Folds
    // the last file added, and the folder in use
    var current: Option<nat>
    var activeFold: Option<nat>
    var closed: bool

    // the bytes of the archive behind the start header
    var out: seq<byte>

    // the channel, and the coordinator's map and position
    var spools: seq<Spool>
    var folderMap: map<nat, seq<byte>>
    var writeSeq: nat

    constructor (solid: bool, concurrency: nat)
      ensures Valid() && !closed && files == [] && folders == [] && out == []
      ensures this.solid == solid && this.concurrency == concurrency
    {
      this.solid, this.concurrency := solid, concurrency;
      files, folders, current, activeFold, closed := [], [], None, None, false;
      out, spools, folderMap, writeSeq := [], [], map[], 0;
    }

    predicate Concurrent() {
      concurrency > 1 && !solid
    }

    // Outside concurrent archives only the last file can be open.
    ghost predicate OneOpen()
      reads this
    {
      forall k :: 0 <= k < |files| - 1 ==> !files[k].open
    }

    ghost predicate Valid()
      reads this
    {
      && Consistent(solid, files, folders)
      && current == (if files == [] then None else Some(|files| - 1))
      && (!closed ==> activeFold == if folders == [] then None else Some(|folders| - 1))
      && (closed ==> spools == [])
      && (solid ==> forall f :: 0 <= f < |folders| ==> folders[f].closed == closed)
      && (closed && !Concurrent() ==> forall k :: 0 <= k < |files| ==> !files[k].open)
      && (if Concurrent() then Pending(folders, spools, folderMap, writeSeq, out) && writeSeq !in folderMap
          else out == Joined(folders) && OneOpen() && spools == [])
    }

    // fileWriter.Write: refused after the file is closed; otherwise the chunk goes through the
    // folder's compressor to the archive or to the folder's spool.
    method WriteFile(k: nat, p: seq<byte>) returns (ok: bool)
      requires Valid() && k < |files|
      modifies this`files, this`folders, this`out
      ensures Valid() && ok == old(files[k].open)
      ensures files == if ok then old(files)[k := old(files[k]).(written := old(files[k].written) + p)] else old(files)
      ensures |folders| == old(|folders|) && closed == old(closed)
      ensures forall f :: 0 <= f < |folders| ==>
                folders[f] == if ok && files[k].fold == Some(f) then Fed(old(folders[f]), p) else old(folders[f])
      ensures spools == old(spools) && folderMap == old(folderMap) && writeSeq == old(writeSeq)
      ensures Concurrent() ==> out == old(out)
    {
      hide Pending, Joined, Consistent;
      if !files[k].open {
        return false;
      }
      if files[k].fold.Some? {
        Compress(k, files[k].fold.value, p);
      } else {
        WriteEmptyKeeps(solid, files, folders, k, p);
        files := files[k := files[k].(written := files[k].written + p)];
      }
      return true;
    }

    // A chunk goes through a folder's compressor, to the archive or to the folder's spool.
    method Compress(k: nat, f: nat, p: seq<byte>)
      requires Valid() && k < |files| && files[k].open && files[k].fold == Some(f)
      modifies this`files, this`folders, this`out
      ensures Valid() && files == old(files)[k := old(files[k]).(written := old(files[k].written) + p)]
      ensures f < |old(folders)| && folders == old(folders)[f := Fed(old(folders[f]), p)]
      ensures Concurrent() ==> out == old(out)
    {
      hide Pending, Joined;
      WriteKeeps(solid, files, folders, k, f, p);
      var d := folders[f];
      if Concurrent() {
        PendingOpen(folders, folders[f := Fed(d, p)], spools, folderMap, writeSeq, out);
      } else {
        LastFileFolder(solid, files, folders);
        JoinedLast(folders, Fed(d, p), d.codec.emit(d.chunks, p));
        out := out + d.codec.emit(d.chunks, p);
      }
      folders := folders[f := Fed(d, p)];
      files := files[k := files[k].(written := files[k].written + p)];
    }

    // fileWriter.Close: once; unless the archive is solid the folder is closed with it, and in a
    // concurrent archive handed to the coordinator. If the writer was closed before, the channel is,
    // and sending panics with the file and its folder closed; nothing is promised after that.
    method CloseFile(k: nat) returns (panics: bool)
      requires Valid() && k < |files|
      modifies this`files, this`folders, this`out, this`spools
      ensures panics <==> old(closed && files[k].open && files[k].fold.Some?)
      ensures !panics ==> Valid()
      ensures files == old(files)[k := old(files[k]).(open := false)]
      ensures closed == old(closed) && |folders| == old(|folders|)
      ensures forall f :: 0 <= f < |folders| ==>
                folders[f] ==
                if old(files[k].open) && !solid && files[k].fold == Some(f) then Shut(old(folders[f]))
                else old(folders[f])
      ensures panics ==> Concurrent() && out == old(out) && spools == old(spools)
      ensures Concurrent() && !panics ==>
        && out == old(out)
        && (if old(files[k].open) && files[k].fold.Some? then
              var f := files[k].fold.value;
              f < |folders| && spools == old(spools) + [Spool(f, folders[f].emitted)]
            else spools == old(spools))
    {
      hide Pending, Joined, Consistent;
      if !files[k].open {
        return false;
      }
      if !solid && files[k].fold.Some? {
        if closed {
          CloseTooLate(k, files[k].fold.value);
          return true;
        }
        CloseWithFolder(k, files[k].fold.value);
      } else {
        CloseFileKeeps(solid, files, folders, k);
        files := files[k := files[k].(open := false)];
      }
      return false;
    }

    // The folder passes on its last bytes to its spool, which can be sent no more.
    method CloseTooLate(k: nat, f: nat)
      requires Valid() && k < |files| && files[k].open && closed && files[k].fold == Some(f)
      modifies this`files, this`folders
      ensures Concurrent() && files == old(files)[k := old(files[k]).(open := false)]
      ensures f < |old(folders)| && folders == old(folders)[f := Shut(old(folders[f]))]
    {
      hide Pending, Joined, FoldOk, SingleOk, Listed, DataFiles;
      assert EntryOk(files, folders, k);
      folders := folders[f := Shut(folders[f])];
      files := files[k := files[k].(open := false)];
    }

    // The folder passes on its last bytes, to the archive or to its spool, which is then sent.
    method CloseWithFolder(k: nat, f: nat)
      requires Valid() && k < |files| && files[k].open && !closed && !solid && files[k].fold == Some(f)
      modifies this`files, this`folders, this`out, this`spools
      ensures Valid() && !closed && files == old(files)[k := old(files[k]).(open := false)]
      ensures f < |old(folders)| && folders == old(folders)[f := Shut(old(folders[f]))]
      ensures Concurrent() ==> out == old(out) && spools == old(spools) + [Spool(f, folders[f].emitted)]
    {
      hide Pending, Joined;
      CloseBothKeeps(files, folders, k, f);
      var d := folders[f];
      if Concurrent() {
        PendingSent(folders, f, spools, folderMap, writeSeq, out);
        spools := spools + [Spool(f, Shut(d).emitted)];
      } else {
        LastFileFolder(solid, files, folders);
        JoinedLast(folders, Shut(d), d.codec.finish(d.chunks));
        out := out + d.codec.finish(d.chunks);
      }
      folders := folders[f := Shut(d)];
      files := files[k := files[k].(open := false)];
    }

    // One turn of the coordinator: a spool comes in, and every spool whose turn it is goes out.
    method Receive()
      requires Valid() && |spools| > 0
      modifies this`spools, this`folderMap, this`writeSeq, this`out
      ensures Valid() && spools == old(spools[1..])
    {
      hide Pending, Consistent, Joined;
      PendingReceived(folders, spools, folderMap, writeSeq, out);
      var s := spools[0];
      spools := spools[1..];
      folderMap := folderMap[s.number := s.bytes];
      while writeSeq in folderMap
        invariant Pending(folders, spools, folderMap, writeSeq, out) && spools == old(spools[1..])
        decreases |folderMap|
      {
        PendingWritten(folders, spools, folderMap, writeSeq, out);
        out := out + folderMap[writeSeq];
        folderMap := folderMap - {writeSeq};
        writeSeq := writeSeq + 1;
      }
    }

    // CreateHeader: nothing after Close; otherwise a file behind the others, in a folder of its
    // own unless it is a directory or the archive is solid and has its folder. Unless files are
    // written concurrently, the one before it is closed.
    method CreateHeader(fh: FileHeader, isDir: bool, c: Codec) returns (k: Option<nat>)
      requires Valid() && Lossless(c)
      modifies this`files, this`folders, this`activeFold, this`current, this`out, this`spools
      ensures Valid() && closed == old(closed)
      ensures closed ==> k == None && files == old(files) && folders == old(folders) && out == old(out)
      ensures !closed ==>
        && (isDir || |folders| > 0)
        && k == Some(|old(files)|) && |files| == |old(files)| + 1
        && (forall i :: 0 <= i < |old(files)| ==>
           files[i] == old(files[i]).(open := Concurrent() && old(files[i].open)))
        && SameFile(files[k.value].fh, fh.(isEmptyStream := isDir, isEmptyFile := false))
        && files[k.value] == Added(fh.(isEmptyStream := isDir, isEmptyFile := false),
                                     if isDir then None else Some(|folders| - 1))
        && |folders| == |old(folders)| + (if isDir || (solid && old(folders) != []) then 0 else 1)
        && (forall f :: 0 <= f < |old(folders)| ==>
              folders[f].codec == old(folders[f].codec) && folders[f].chunks == old(folders[f].chunks))
        && (|folders| > |old(folders)| ==> folders[|folders| - 1] == NewFold(c, k.value))
        && (Concurrent() ==> out == old(out) && spools == old(spools))
    {
      hide Pending, Joined, Consistent;
      if closed {
        return None;
      }
      if current.Some? && !Concurrent() {
        var panics := CloseFile(current.value);
      }
      AddEntry(fh.(isEmptyStream := isDir, isEmptyFile := false), c);
      return current;
    }

    // A file behind the others, with the folder it needs.
    method AddEntry(h: FileHeader, c: Codec)
      requires Valid() && !closed && Lossless(c) && !h.isEmptyFile
      requires !Concurrent() ==> forall i :: 0 <= i < |files| ==> !files[i].open
      modifies this`files, this`folders, this`activeFold, this`current
      ensures Valid() && current == Some(|old(files)|)
      ensures h.isEmptyStream || |folders| > 0
      ensures files == old(files) + [Added(h, if h.isEmptyStream then None else Some(|folders| - 1))]
      ensures |folders| == |old(folders)| + (if h.isEmptyStream || (solid && old(folders) != []) then 0 else 1)
      ensures forall f :: 0 <= f < |old(folders)| ==>
                folders[f].codec == old(folders[f].codec) && folders[f].chunks == old(folders[f].chunks)
      ensures |folders| > |old(folders)| ==> folders[|folders| - 1] == NewFold(c, |old(files)|)
    {
      hide Pending, Joined, Consistent;
      if h.isEmptyStream {
        AddEmptyKeeps(solid, files, folders, h);
        files := files + [Added(h, None)];
      } else if activeFold.None? || !solid {
        if activeFold.Some? && !Concurrent() {
          AlreadyShut(files, folders, activeFold.value);
          folders := folders[activeFold.value := Shut(folders[activeFold.value])];
        }
        AddFolder(h, c);
      } else {
        AddToFolder(h);
      }
      current := Some(|files| - 1);
    }

    // A new folder with one file.
    method AddFolder(h: FileHeader, c: Codec)
      requires Valid() && !closed && Lossless(c) && !h.isEmptyStream && !h.isEmptyFile
      requires solid ==> folders == []
      requires !Concurrent() ==> forall i :: 0 <= i < |files| ==> !files[i].open
      modifies this`files, this`folders, this`activeFold
      ensures files == old(files) + [Added(h, Some(|old(folders)|))]
      ensures folders == old(folders) + [NewFold(c, |old(files)|)] && activeFold == Some(|old(folders)|)
      ensures Consistent(solid, files, folders)
      ensures if Concurrent() then Pending(folders, spools, folderMap, writeSeq, out) else out == Joined(folders)
    {
      hide Pending, Consistent;
      AddFolderKeeps(solid, files, folders, h, c);
      JoinedMore(folders, NewFold(c, |files|));
      if Concurrent() {
        PendingOpen(folders, folders + [NewFold(c, |files|)], spools, folderMap, writeSeq, out);
      }
      folders := folders + [NewFold(c, |files|)];
      files := files + [Added(h, Some(|folders| - 1))];
      activeFold := Some(|folders| - 1);
    }

    // A file behind the others in the folder of a solid archive.
    method AddToFolder(h: FileHeader)
      requires Valid() && !closed && solid && |folders| > 0 && !h.isEmptyStream && !h.isEmptyFile
      requires forall i :: 0 <= i < |files| ==> !files[i].open
      modifies this`files, this`folders
      ensures files == old(files) + [Added(h, Some(0))]
      ensures |old(folders)| == 1 && folders == [old(folders)[0].(files := old(folders)[0].files + [|old(files)|])]
      ensures Consistent(solid, files, folders) && out == Joined(folders)
    {
      hide Pending, Joined;
      AddSolidKeeps(files, folders, h);
      ghost var folders0 := folders;
      folders := folders[0 := folders[0].(files := folders[0].files + [|files|])];
      JoinedSame(folders0, folders);
      files := files + [Added(h, Some(0))];
    }

    // Close: the current file, the folder of a solid archive, and the coordinator.
    method Close()
      requires Valid()
      modifies this
      ensures Valid() && closed
      ensures old(closed) ==> files == old(files) && folders == old(folders) && out == old(out)
      ensures !old(closed) ==>
        && |files| == |old(files)| && |folders| == |old(folders)|
        && (forall i :: 0 <= i < |files| ==>
              files[i] == old(files[i]).(open := Concurrent() && i < |files| - 1 && old(files[i].open)))
        && (forall f :: 0 <= f < |folders| ==>
              folders[f].codec == old(folders[f].codec) && folders[f].chunks == old(folders[f].chunks))
    {
      hide Pending, Joined, Consistent;
      if closed {
        return;
      }
      if current.Some? {
        var panics := CloseFile(current.value);
      }
      Finish();
    }

    // Everything is passed on, once the last file is closed.
    method Finish()
      requires Valid() && !closed && (current.Some? ==> !files[current.value].open)
      modifies this`folders, this`out, this`activeFold, this`spools, this`folderMap, this`writeSeq, this`closed
      ensures Valid() && closed && |folders| == |old(folders)|
      ensures forall f :: 0 <= f < |folders| ==>
                folders[f].codec == old(folders[f].codec) && folders[f].chunks == old(folders[f].chunks)
    {
      hide Pending, Joined, Consistent;
      if activeFold.Some? && solid {
        CloseSolid();
      }
      if Concurrent() {
        Drain();
      }
      closed := true;
    }

    // The one folder of a solid archive passes on its last bytes.
    method CloseSolid()
      requires Valid() && !closed && solid && |folders| > 0 && forall i :: 0 <= i < |files| ==> !files[i].open
      modifies this`folders, this`out, this`activeFold
      ensures |old(folders)| == 1 && folders == [Shut(old(folders)[0])] && activeFold == None
      ensures Consistent(solid, files, folders) && out == Joined(folders)
    {
      hide Pending, Joined;
      ShutKeeps(files, folders, 0);
      var d := folders[0];
      JoinedLast(folders, Shut(d), d.codec.finish(d.chunks));
      folders := folders[0 := Shut(d)];
      out := out + d.codec.finish(d.chunks);
      activeFold := None;
    }

    // The channel is closed; the coordinator takes what is left in it.
    method Drain()
      requires Valid()
      modifies this`spools, this`folderMap, this`writeSeq, this`out
      ensures Valid() && spools == []
    {
      hide Pending, Consistent, Joined;
      while |spools| > 0
        invariant Valid()
        decreases |spools|
      {
        Receive();
      }
    }
  }

  // In a sequential archive the folder in use was closed with its file.
  lemma AlreadyShut(files: Entries, folders: Folds, f: nat)
    requires Consistent(false, files, folders) && f < |folders| && forall k :: 0 <= k < |files| ==> !files[k].open
    ensures folders[f].closed && folders[f := Shut(folders[f])] == folders
  {
    assert SingleOk(files, folders, f);
  }

  lemma WriteEmptyKeeps(solid: bool, files: Entries, folders: Folds, k: nat, p: seq<byte>)
    requires Consistent(solid, files, folders) && k < |files| && files[k].fold.None?
    ensures Consistent(solid, files[k := files[k].(written := files[k].written + p)], folders)
  {
    hide Lossless, Emitted, Flat, FlatWritten, Listed, DataFiles, Packed;
    var e := files[k].(written := files[k].written + p);
    var files' := files[k := e];
    DataFilesSame(files, k, e);
    forall i | 0 <= i < |files| ensures EntryOk(files', folders, i) {
      assert EntryOk(files, folders, i);
    }
    forall g | 0 <= g < |folders| ensures FoldOk(files', folders, g) {
      assert FoldOk(files, folders, g);
      OtherFolder(files, folders, k, e, g);
    }
    if !solid {
      forall g | 0 <= g < |folders| ensures SingleOk(files', folders, g) {
        assert SingleOk(files, folders, g) && FoldOk(files, folders, g);
      }
    }
  }

  // --- after Close ---

  // Without open files every folder is closed.
  lemma FoldersClosed(w: Writer)
    requires w.Valid() && w.closed && forall k :: 0 <= k < |w.files| ==> !w.files[k].open
    ensures forall f :: 0 <= f < |w.folders| ==> w.folders[f].closed
  {
    hide Pending, Joined;
    if !w.solid {
      forall f | 0 <= f < |w.folders| ensures w.folders[f].closed {
        assert SingleOk(w.files, w.folders, f);
      }
    }
  }

  // For every order in which finished folders reached the coordinator: when the channel is
  // empty, what is written is the folders up to the first one that was not closed, in order,
  // and what is held back are the closed ones behind it.
  lemma Written(w: Writer)
    requires w.Valid() && w.Concurrent() && w.spools == []
    ensures w.writeSeq <= |w.folders| && w.out == Joined(w.folders[..w.writeSeq])
    ensures forall f :: 0 <= f < w.writeSeq ==> w.folders[f].closed
    ensures w.writeSeq < |w.folders| ==> !w.folders[w.writeSeq].closed
    ensures forall f: nat :: f in w.folderMap <==> w.writeSeq < f < |w.folders| && w.folders[f].closed
  {
    hide Consistent, Joined;
    forall f: nat | f < |w.folders| && w.writeSeq <= f && w.folders[f].closed ensures f in w.folderMap {
      assert !Queued(w.spools, f);
    }
    forall f | f in w.folderMap ensures w.writeSeq < f < |w.folders| && w.folders[f].closed {
      assert SpoolOk(w.folders, f, w.folderMap[f]);
    }
  }

  // After Close nothing is held back exactly when every file writer had been closed.
  lemma WrittenAll(w: Writer)
    requires w.Valid() && w.closed
    ensures (forall f :: 0 <= f < |w.folders| ==> w.folders[f].closed) ==> w.out == Joined(w.folders)
    ensures w.Concurrent() ==>
              ((w.writeSeq == |w.folders| && w.folderMap == map[]) <==>
               forall f :: 0 <= f < |w.folders| ==> w.folders[f].closed)
  {
    hide Consistent, Pending, Joined;
    if w.Concurrent() {
      Written(w);
      assert w.folders[..|w.folders|] == w.folders;
    }
  }
}
