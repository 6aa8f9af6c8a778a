/** Opening, reading and closing the files of one folder through its pool. */
module FolderFiles {
  import opened Basics
  import opened HeaderData
  import P = ReaderPool

  // The folder reader: how many bytes of the folder it has passed, and whether it was closed.
  datatype Reader = Reader(count: nat, closed: bool)

  // Where a file lies in its folder.
  datatype Extent = Extent(offset: nat, size: nat)

  // An open file: its folder reader, until it is closed, and how many bytes are left.
  datatype FileReader = FileReader(rc: Option<nat>, file: nat, n: nat)

  datatype Whence = SeekStart | SeekCurrent | SeekEnd | OtherWhence

  datatype SeekError = InvalidWhence | NegativeSeek | SeekBackwards | SeekEOF | SeekFailed

  datatype Outcome<+T> = Done(value: T) | Failed(error: SeekError)
  {
    predicate IsFailure() { Failed? }

    function PropagateFailure<U>(): Outcome<U>
      requires Failed?
    {
      Failed(error)
    }

    function Extract(): T
      requires Done?
    {
      value
    }
  }

  datatype Status = Good | PlainEOF | UnexpectedEOF

  // What Seek makes of its arguments: the position to go to, or an error.
  function Target(count: nat, size: nat, offset: int, whence: Whence): Outcome<nat> {
    if whence == OtherWhence then Failed(InvalidWhence)
    else
      var newo := match whence case SeekStart => offset case SeekCurrent => count + offset case _ => size + offset;
      if newo < 0 then Failed(NegativeSeek)
      else if newo < count then Failed(SeekBackwards)
      else if newo > size then Failed(SeekEOF)
      else Done(newo)
  }

  // Every way to seek is one from the start, and goes forwards inside the folder.
  lemma SeekReaches(count: nat, size: nat, offset: int, n: int)
    ensures Target(count, size, offset, SeekCurrent) == Target(count, size, count + offset, SeekStart)
    ensures Target(count, size, offset, SeekEnd) == Target(count, size, size + offset, SeekStart)
    ensures Target(count, size, offset, OtherWhence) == Failed(InvalidWhence)
    ensures Target(count, size, n, SeekStart)
            == if count <= n <= size then Done(n)
               else Failed(if n < 0 then NegativeSeek else if n > size && n >= count then SeekEOF else SeekBackwards)
  {
  }

  type Held = seq<P.Entry<nat>>

  // --- what holds of all readers together ---

  // A pooled reader stands where its key says, and is not closed.
  ghost predicate HeldOk(held: Held, readers: seq<Reader>, i: nat)
    requires i < |held|
  {
    var e := held[i];
    e.value < |readers| && !readers[e.value].closed && readers[e.value].count == e.key
  }

  // An open file's reader stands where the bytes still to come begin.
  ghost predicate InUseOk(files: seq<Extent>, readers: seq<Reader>, handles: seq<FileReader>, o: nat)
    requires o < |handles|
  {
    var f := handles[o];
    && f.file < |files| && f.n <= files[f.file].size
    && (f.rc.Some? ==>
          && f.rc.value < |readers| && !readers[f.rc.value].closed
          && readers[f.rc.value].count + f.n == files[f.file].offset + files[f.file].size)
  }

  // No reader is held twice, used twice, or held while in use.
  ghost predicate Separate(held: Held, handles: seq<FileReader>) {
    && (forall i, j :: 0 <= i < j < |held| ==> held[i].value != held[j].value)
    && (forall o, p :: 0 <= o < p < |handles| && handles[o].rc.Some? ==> handles[o].rc != handles[p].rc)
    && (forall o, i :: 0 <= o < |handles| && 0 <= i < |held| ==> handles[o].rc != Some(held[i].value))
  }

  ghost predicate Sound(files: seq<Extent>, limit: nat, held: Held, readers: seq<Reader>, handles: seq<FileReader>) {
    && Separate(held, handles)
    && (forall i :: 0 <= i < |held| ==> HeldOk(held, readers, i))
    && (forall o :: 0 <= o < |handles| ==> InUseOk(files, readers, handles, o))
    && (forall r :: 0 <= r < |readers| ==> readers[r].count <= limit)
  }

  // Reader r is neither held nor in use, and not closed.
  ghost predicate Loose(held: Held, readers: seq<Reader>, handles: seq<FileReader>, r: nat) {
    && r < |readers| && !readers[r].closed
    && (forall i :: 0 <= i < |held| ==> held[i].value != r)
    && (forall o :: 0 <= o < |handles| ==> handles[o].rc != Some(r))
  }

  lemma TakenOut(files: seq<Extent>, limit: nat, held: Held, readers: seq<Reader>, handles: seq<FileReader>, i: nat)
    requires Sound(files, limit, held, readers, handles) && i < |held|
    ensures Sound(files, limit, P.Without(held, i), readers, handles)
    ensures Loose(P.Without(held, i), readers, handles, held[i].value) && readers[held[i].value].count == held[i].key
  {
    var rest := P.Without(held, i);
    assert HeldOk(held, readers, i);
    forall j | 0 <= j < |rest| ensures HeldOk(rest, readers, j) && rest[j].value != held[i].value {
      assert rest[j] == held[if j < i then j else j + 1];
      assert HeldOk(held, readers, if j < i then j else j + 1);
    }
  }

  lemma PutIn(files: seq<Extent>, limit: nat, held: Held, readers: seq<Reader>, handles: seq<FileReader>, r: nat)
    requires Sound(files, limit, held, readers, handles) && Loose(held, readers, handles, r)
    ensures Sound(files, limit, [P.Entry(readers[r].count, r)] + held, readers, handles)
  {
    var more := [P.Entry(readers[r].count, r)] + held;
    forall j | 0 <= j < |more| ensures HeldOk(more, readers, j) {
      if j > 0 {
        assert HeldOk(held, readers, j - 1);
      }
    }
  }

  // A loose reader may move or be closed.
  lemma LooseChanged(files: seq<Extent>, limit: nat, held: Held, readers: seq<Reader>, handles: seq<FileReader>,
      r: nat, x: Reader)
    requires Sound(files, limit, held, readers, handles) && Loose(held, readers, handles, r) && x.count <= limit
    ensures Sound(files, limit, held, readers[r := x], handles)
    ensures !x.closed ==> Loose(held, readers[r := x], handles, r)
  {
    var readers' := readers[r := x];
    forall j | 0 <= j < |held| ensures HeldOk(held, readers', j) {
      assert HeldOk(held, readers, j);
    }
    forall o | 0 <= o < |handles| ensures InUseOk(files, readers', handles, o) {
      assert InUseOk(files, readers, handles, o);
    }
  }

  lemma ReaderMade(files: seq<Extent>, limit: nat, held: Held, readers: seq<Reader>, handles: seq<FileReader>)
    requires Sound(files, limit, held, readers, handles)
    ensures Sound(files, limit, held, readers + [Reader(0, false)], handles)
    ensures Loose(held, readers + [Reader(0, false)], handles, |readers|)
  {
    var readers' := readers + [Reader(0, false)];
    forall j | 0 <= j < |held| ensures HeldOk(held, readers', j) && held[j].value != |readers| {
      assert HeldOk(held, readers, j);
    }
    forall o | 0 <= o < |handles| ensures InUseOk(files, readers', handles, o) && handles[o].rc != Some(|readers|) {
      assert InUseOk(files, readers, handles, o);
    }
  }

  lemma FileOpened(files: seq<Extent>, limit: nat, held: Held, readers: seq<Reader>, handles: seq<FileReader>, r: nat,
      f: nat)
    requires Sound(files, limit, held, readers, handles) && Loose(held, readers, handles, r)
    requires f < |files| && readers[r].count == files[f].offset
    ensures Sound(files, limit, held, readers, handles + [FileReader(Some(r), f, files[f].size)])
  {
    var handles' := handles + [FileReader(Some(r), f, files[f].size)];
    forall o | 0 <= o < |handles'| ensures InUseOk(files, readers, handles', o) {
      if o < |handles| {
        assert InUseOk(files, readers, handles, o);
      }
    }
  }

  lemma FileClosed(files: seq<Extent>, limit: nat, held: Held, readers: seq<Reader>, handles: seq<FileReader>, o: nat)
    requires Sound(files, limit, held, readers, handles) && o < |handles| && handles[o].rc.Some?
    ensures var handles' := handles[o := handles[o].(rc := None)];
            Sound(files, limit, held, readers, handles') && Loose(held, readers, handles', handles[o].rc.value)
  {
    var handles' := handles[o := handles[o].(rc := None)];
    assert InUseOk(files, readers, handles, o);
    forall p | 0 <= p < |handles| ensures InUseOk(files, readers, handles', p) {
      assert InUseOk(files, readers, handles, p);
    }
  }

  // k bytes are read from open file o.
  lemma FileRead(files: seq<Extent>, limit: nat, held: Held, readers: seq<Reader>, handles: seq<FileReader>, o: nat,
      k: nat)
    requires Sound(files, limit, held, readers, handles) && o < |handles| && handles[o].rc.Some? && k <= handles[o].n
    ensures handles[o].rc.value < |readers|
    requires handles[o].rc.value < |readers| && readers[handles[o].rc.value].count + k <= limit
    ensures var r := handles[o].rc.value;
            Sound(files, limit, held, readers[r := readers[r].(count := readers[r].count + k)],
                  handles[o := handles[o].(n := handles[o].n - k)])
  {
    var r := handles[o].rc.value;
    var readers', handles' := readers[r := readers[r].(count := readers[r].count + k)],
      handles[o := handles[o].(n := handles[o].n - k)];
    assert InUseOk(files, readers, handles, o);
    forall p | 0 <= p < |handles| ensures InUseOk(files, readers', handles', p) {
      assert InUseOk(files, readers, handles, p);
    }
    forall j | 0 <= j < |held| ensures HeldOk(held, readers', j) {
      assert HeldOk(held, readers, j);
    }
  }

  // Some pooled reader has not passed the offset.
  ghost predicate Below(held: Held, offset: int) {
    exists i :: 0 <= i < |held| && held[i].key <= offset
  }

  // What Put of the pool does with a loose reader: at a taken position nothing; otherwise it is
  // held, and the oldest one closed if there are too many.
  ghost predicate Returned(slots: nat, held: Held, readers: seq<Reader>, r: nat, held': Held, readers': seq<Reader>)
    requires r < |readers|
  {
    if P.Has(held, readers[r].count) then held' == held && readers' == readers
    else
      var all := [P.Entry(readers[r].count, r)] + held;
      if |all| <= slots then held' == all && readers' == readers
      else
        var oldest := all[|all| - 1].value;
        && held' == all[..|all| - 1]
        && oldest < |readers| && readers' == readers[oldest := readers[oldest].(closed := true)]
  }

  class FolderFiles {
    // the bytes the folder's decoder gives, and how many it should
    const data: seq<byte>
    const size: nat
    const files: seq<Extent>
    const pool: P.Pool<nat>

    // every folder reader and every file reader made so far
    var readers: seq<Reader>
    var handles: seq<FileReader>

    constructor (data: seq<byte>, size: nat, files: seq<Extent>, slots: nat)
      requires |data| <= size && slots > 0
      ensures Valid() && readers == [] && handles == [] && fresh(pool)
      ensures this.data == data && this.size == size && this.files == files
    {
      this.data, this.size, this.files := data, size, files;
      readers, handles := [], [];
      pool := new P.Pool(slots);
    }

    // A pool is used when the folder has several files.
    predicate Pooled() {
      |files| > 1
    }

    ghost predicate Valid()
      reads this, pool
    {
      |data| <= size && pool.Valid() && Sound(files, |data|, pool.evictList, readers, handles)
    }

    // Seek of a folder reader: only forwards, by reading.
    method Seek(r: nat, offset: int, whence: Whence) returns (res: Outcome<nat>)
      requires r < |readers| && readers[r].count <= |data| <= size
      modifies this`readers
      ensures |readers| == |old(readers)| && readers == old(readers)[r := readers[r]]
      ensures readers[r].closed == old(readers[r]).closed && readers[r].count <= |data|
      ensures var t := Target(old(readers[r]).count, size, offset, whence);
              && (t.Failed? ==> res == t && readers == old(readers))
              && (t.Done? && t.value <= |data| ==> res == t && readers[r].count == t.value)
              && (t.Done? && t.value > |data| ==> res == Failed(SeekFailed))
    {
      var count := readers[r].count;
      if whence == OtherWhence {
        return Failed(InvalidWhence);
      }
      var newo := match whence case SeekStart => offset case SeekCurrent => count + offset case _ => size + offset;
      if newo < 0 {
        return Failed(NegativeSeek);
      }
      if newo < count {
        return Failed(SeekBackwards);
      }
      if newo > size {
        return Failed(SeekEOF);
      }
      readers := readers[r := readers[r].(count := Min(newo, |data|))];
      if newo > |data| {
        return Failed(SeekFailed);
      }
      return Done(newo);
    }

    // Open: a pooled reader at or before the file, or a new one, moved to the file. It fails only
    // if the folder ends before the file begins, and never by having to go back.
    method Open(f: nat) returns (res: Outcome<nat>)
      requires Valid() && f < |files|
      modifies this, pool
      ensures Valid()
      ensures res.Done? <==> files[f].offset <= |data|
      ensures res.Failed? ==> res.error == if files[f].offset > size then SeekEOF else SeekFailed
      ensures res.Failed? ==> handles == old(handles)
      ensures |readers| == |old(readers)| + if |files| > 1 && Below(old(pool.evictList), files[f].offset) then 0 else 1
      ensures res.Done? ==>
        && res.value == |old(handles)| && |handles| == |old(handles)| + 1 && handles[..res.value] == old(handles)
        && handles[res.value].rc.Some? && handles[res.value].file == f && handles[res.value].n == files[f].size
    {
      hide Sound, Loose, P.Pool.Valid;
      var r := TakeReader(files[f].offset);
      LooseIs(pool.evictList, readers, handles, r, |data|, files);
      ghost var before := readers;
      var s := Seek(r, files[f].offset, SeekStart);
      LooseChanged(files, |data|, pool.evictList, before, handles, r, readers[r]);
      if s.Failed? {
        return Failed(s.error);
      }
      FileOpened(files, |data|, pool.evictList, readers, handles, r, f);
      handles := handles + [FileReader(Some(r), f, files[f].size)];
      return Done(|handles| - 1);
    }

    // A reader that has not passed the offset, which nothing else has.
    method TakeReader(offset: nat) returns (r: nat)
      requires Valid()
      modifies this`readers, pool
      ensures Valid() && Loose(pool.evictList, readers, handles, r) && readers[r].count <= offset
      ensures |old(readers)| <= |readers| && readers[..|old(readers)|] == old(readers)
      ensures if |files| > 1 && Below(old(pool.evictList), offset) then
                |readers| == |old(readers)|
                && exists i: nat :: P.Nearest(old(pool.evictList), offset, i) && r == old(pool.evictList)[i].value
                               && pool.evictList == P.Without(old(pool.evictList), i)
              else |readers| == |old(readers)| + 1 && pool.evictList == old(pool.evictList)
    {
      hide Sound, Loose, P.Pool.Valid;
      if Pooled() {
        ghost var held := pool.evictList;
        ghost var i;
        var v;
        v, i := pool.Get(offset);
        if v.Some? {
          TakenOut(files, |data|, held, readers, handles, i);
          return v.value;
        }
      }
      ReaderMade(files, |data|, pool.evictList, readers, handles);
      readers := readers + [Reader(0, false)];
      return |readers| - 1;
    }

    // Read of at most len bytes. The folder reader gives what it likes of what is there, at least
    // a byte, and may announce the end with the last ones (eager) or only afterwards.
    //
    // Whatever reader is used, the bytes are those of the folder from the file's next position
    // on; the plain end comes only when the whole file was delivered.
    method Read(o: nat, len: nat, give: nat, eager: bool) returns (p: seq<byte>, status: Status)
      requires Valid() && o < |handles| && handles[o].rc.Some? && give > 0
      modifies this
      ensures Valid() && |handles| == |old(handles)|
              && handles == old(handles)[o := old(handles[o]).(n := handles[o].n)]
      ensures |p| <= len && handles[o].n == old(handles[o]).n - |p|
      ensures handles[o].file < |files|
      ensures var e := files[handles[o].file];
              var start := e.offset + e.size - old(handles[o]).n;
              && 0 <= start && start + |p| <= |data| && p == data[start..start + |p|]
              && (status == UnexpectedEOF ==> start + |p| == |data| < e.offset + e.size)
      ensures status == PlainEOF ==> handles[o].n == 0
      ensures status == Good ==> |p| > 0 || len == 0
    {
      hide Sound, P.Pool.Valid;
      var n, r := handles[o].n, handles[o].rc.value;
      InUseIs(files, |data|, pool.evictList, readers, handles, o);
      if len == 0 {
        return [], Good;
      }
      if n == 0 {
        return [], PlainEOF;
      }
      var count := readers[r].count;
      var k := Min(Min(Min(len, n), give), |data| - count);
      p := data[count..count + k];
      var eof := k == 0 || (eager && count + k == |data|);
      FileRead(files, |data|, pool.evictList, readers, handles, o, k);
      readers := readers[r := readers[r].(count := count + k)];
      handles := handles[o := handles[o].(n := n - k)];
      if eof {
        return p, if n - k == 0 then PlainEOF else UnexpectedEOF;
      }
      return p, Good;
    }

    // Close of a file: its reader is closed at the end of the folder, and otherwise pooled; a
    // second Close does nothing.
    method CloseFile(o: nat)
      requires Valid() && o < |handles|
      modifies this, pool
      ensures Valid() && handles == old(handles)[o := old(handles[o]).(rc := None)]
      ensures old(handles[o]).rc.None? ==> readers == old(readers) && pool.evictList == old(pool.evictList)
      ensures old(handles[o]).rc.Some? ==>
        var r := old(handles[o]).rc.value;
        && r < |old(readers)|
        && (if old(readers)[r].count == size || |files| <= 1 then
              readers == old(readers)[r := old(readers)[r].(closed := true)] && pool.evictList == old(pool.evictList)
            else Returned(pool.size, old(pool.evictList), old(readers), r, pool.evictList, readers))
    {
      hide Sound, P.Pool.Valid, Loose;
      if handles[o].rc.None? {
        return;
      }
      var r := handles[o].rc.value;
      InUseIs(files, |data|, pool.evictList, readers, handles, o);
      var at := Seek(r, 0, SeekCurrent);
      assert readers == old(readers);
      FileClosed(files, |data|, pool.evictList, readers, handles, o);
      handles := handles[o := handles[o].(rc := None)];
      if at.value == size {
        CloseReader(r);
      } else {
        PoolPut(r);
      }
    }

    // A file opened, read to the end in pieces, and closed: after any history of the folder this
    // gives the file's bytes, or what there is of them when the folder ends early.
    method ReadWhole(f: nat, len: nat, give: nat, eager: bool) returns (res: Outcome<(seq<byte>, Status)>)
      requires Valid() && f < |files| && len > 0 && give > 0
      modifies this, pool
      ensures Valid()
      ensures res.Done? <==> files[f].offset <= |data|
      ensures res.Done? ==>
        var (offset, end) := (files[f].offset, files[f].offset + files[f].size);
        res.value == if end <= |data| then (data[offset..end], PlainEOF) else (data[offset..], UnexpectedEOF)
    {
      hide Sound, P.Pool.Valid, Valid;
      var o :- Open(f);
      var out, status := [], Good;
      ghost var e := files[f];
      while status == Good
        invariant Valid() && o < |handles| && handles[o].rc.Some? && handles[o].file == f
        invariant handles[o].n <= e.size && e.offset + e.size - handles[o].n <= |data|
        invariant out == data[e.offset..e.offset + e.size - handles[o].n]
        invariant status == PlainEOF ==> handles[o].n == 0
        invariant status == UnexpectedEOF ==> e.offset + e.size - handles[o].n == |data| < e.offset + e.size
        decreases handles[o].n, status == Good
      {
        ghost var start := e.offset + e.size - handles[o].n;
        var p;
        p, status := Read(o, len, give, eager);
        out := out + p;
        PartsJoin(data, e.offset, start, start + |p|);
      }
      assert data[e.offset..] == data[e.offset..|data|];
      assert status == PlainEOF ==> out == data[e.offset..e.offset + e.size];
      assert status == UnexpectedEOF ==> out == data[e.offset..];
      CloseFile(o);
      return Done((out, status));
    }

    // A reader is closed; never one that was closed before.
    method CloseReader(r: nat)
      requires Valid() && Loose(pool.evictList, readers, handles, r)
      modifies this`readers
      ensures Valid() && |readers| == |old(readers)| && readers == old(readers)[r := old(readers[r]).(closed := true)]
    {
      hide Sound, P.Pool.Valid, Loose;
      LooseIs(pool.evictList, readers, handles, r, |data|, files);
      LooseChanged(files, |data|, pool.evictList, readers, handles, r, readers[r].(closed := true));
      readers := readers[r := readers[r].(closed := true)];
    }

    // Put of the folder's pool: another reader may have to be closed. Without a pool the reader
    // itself is.
    method PoolPut(r: nat)
      requires Valid() && Loose(pool.evictList, readers, handles, r)
      modifies this`readers, pool
      ensures Valid() && r < |old(readers)|
      ensures if |files| <= 1 then
                readers == old(readers)[r := old(readers)[r].(closed := true)] && pool.evictList == old(pool.evictList)
              else Returned(pool.size, old(pool.evictList), old(readers), r, pool.evictList, readers)
    {
      hide Sound, P.Pool.Valid, Loose;
      LooseIs(pool.evictList, readers, handles, r, |data|, files);
      if !Pooled() {
        CloseReader(r);
        return;
      }
      LooseIs(pool.evictList, readers, handles, r, |data|, files);
      PutIn(files, |data|, pool.evictList, readers, handles, r);
      ghost var all := [P.Entry(readers[r].count, r)] + pool.evictList;
      RoomFor(pool);
      var evicted := pool.Put(readers[r].count, r);
      if evicted.Some? {
        TakenOut(files, |data|, all, readers, handles, |all| - 1);
        assert P.Without(all, |all| - 1) == pool.evictList;
        CloseReader(evicted.value);
      }
    }

    // Closing the pool closes every reader in it.
    method ClosePool()
      requires Valid()
      modifies this`readers, pool
      ensures Valid() && |pool.evictList| == 0
      ensures forall i :: 0 <= i < |old(pool.evictList)| ==>
                old(pool.evictList)[i].value < |readers| && readers[old(pool.evictList)[i].value].closed
    {
      hide P.Pool.Valid;
      ghost var list := pool.evictList;
      AllLoose(files, |data|, list, readers, handles);
      var held := pool.Close();
      for i := 0 to |held|
        invariant Valid() && |pool.evictList| == 0 && |readers| == |old(readers)|
        invariant forall j :: 0 <= j < |held| ==> held[j] < |readers|
        invariant forall j :: 0 <= j < i ==> readers[held[j]].closed
        invariant forall j :: i <= j < |held| ==> Loose([], readers, handles, held[j])
      {
        CloseReader(held[i]);
      }
      forall i | 0 <= i < |list| ensures list[i].value < |readers| && readers[list[i].value].closed {
        assert held[|held| - 1 - i] == list[i].value;
      }
    }
  }

  lemma RoomFor(pool: P.Pool<nat>)
    requires pool.Valid()
    ensures 0 < pool.size && |pool.evictList| <= pool.size
  {
  }

  lemma LooseIs(held: Held, readers: seq<Reader>, handles: seq<FileReader>, r: nat, limit: nat, files: seq<Extent>)
    requires Sound(files, limit, held, readers, handles) && Loose(held, readers, handles, r)
    ensures r < |readers| && !readers[r].closed && readers[r].count <= limit
  {
  }

  lemma InUseIs(files: seq<Extent>, limit: nat, held: Held, readers: seq<Reader>, handles: seq<FileReader>, o: nat)
    requires Sound(files, limit, held, readers, handles) && o < |handles|
    ensures InUseOk(files, readers, handles, o)
    ensures handles[o].rc.Some? ==> handles[o].rc.value < |readers| && readers[handles[o].rc.value].count <= limit
  {
  }

  // Without a pool its readers are loose, each once.
  lemma AllLoose(files: seq<Extent>, limit: nat, held: Held, readers: seq<Reader>, handles: seq<FileReader>)
    requires Sound(files, limit, held, readers, handles)
    ensures Sound(files, limit, [], readers, handles)
    ensures forall i :: 0 <= i < |held| ==> held[i].value < |readers| && Loose([], readers, handles, held[i].value)
    ensures forall i, j :: 0 <= i < j < |held| ==> held[i].value != held[j].value
  {
    forall i | 0 <= i < |held| ensures Loose([], readers, handles, held[i].value) {
      assert HeldOk(held, readers, i);
    }
  }
}
