/** The whole header, and which folder and size each file gets from it. */
module HeaderRoundTrip {
  import opened Basics
  import opened HeaderData
  import opened HeaderNumbers
  import opened HeaderStreams
  import opened HeaderFiles

  // --- FileFolderAndSize ---

  datatype Place = Place(folder: nat, size: u64, crc: u32)

  // The loop over stream counts: the first folder whose running total (a uint64) passes
  // the file, or the last folder.
  function FindFolder(streams: seq<u64>, file: nat, i: nat, total: u64): (r: nat)
    requires i < |streams|
    ensures i <= r < |streams|
    decreases |streams| - i
  {
    var t := (total + streams[i]) % TWO64;
    if file < t || i + 1 == |streams| then i else FindFolder(streams, file, i + 1, t)
  }

  // The size and checksum of a folder with one file; None is an index out of range.
  function FolderPlace(i: StreamsInfo, folder: nat, crc: u32): Option<Place> {
    if i.unpackInfo.None? then None
    else
      var u := i.unpackInfo.value;
      if |u.digest| > 0 && folder >= |u.digest| then None
      else if folder >= |u.folder| then None
      else if !(0 < |u.folder[folder].coder| <= |u.folder[folder].size|) then None
      else
        Some(Place(folder, u.folder[folder].size[|u.folder[folder].coder| - 1],
                   if |u.digest| > 0 then u.digest[folder] else crc))
  }

  function FileFolderAndSize(i: StreamsInfo, file: nat): Option<Place> {
    if i.subStreamsInfo.None? then FolderPlace(i, 0, 0)
    else
      var s := i.subStreamsInfo.value;
      var folder := if |s.streams| == 0 then 0 else FindFolder(s.streams, file, 0, 0);
      var streams := if |s.streams| == 0 then 1 else s.streams[folder];
      if |s.digest| > 0 && file >= |s.digest| then None
      else
        var crc := if |s.digest| > 0 then s.digest[file] else 0;
        if streams == 1 then FolderPlace(i, folder, crc)
        else if file >= |s.size| then None
        else Some(Place(folder, s.size[file], crc))
  }

  // The folder found holds the file: the counts before it do not reach the file, and with it
  // they do, when the counts reach the file at all.
  lemma {:induction false} FindFolderIs(streams: seq<u64>, file: nat, i: nat, total: u64)
    requires i < |streams| && total <= file && total + Sum(streams[i..]) < TWO64
    ensures var r := FindFolder(streams, file, i, total);
            && total + Sum(streams[i..r]) <= file
            && (file < total + Sum(streams[i..]) ==> file < total + Sum(streams[i..r]) + streams[r])
    decreases |streams| - i
  {
    hide Sum, FindFolder;
    var r := FindFolder(streams, file, i, total);
    SumStep(streams, i);
    NothingAdded();
    FindFolderStep(streams, file, i, total);
    if r != i {
      FindFolderIs(streams, file, i + 1, total + streams[i]);
      assert streams[i..r] == [streams[i]] + streams[i + 1..r];
      SumFirst(streams[i], streams[i + 1..r]);
    } else {
      assert streams[i..r] == [];
      assert i + 1 == |streams| ==> streams[i + 1..] == [];
    }
  }

  // One turn of the loop, as long as the total does not wrap.
  lemma FindFolderStep(streams: seq<u64>, file: nat, i: nat, total: u64)
    requires i < |streams| && total + streams[i] < TWO64
    ensures FindFolder(streams, file, i, total)
            == if file < total + streams[i] || i + 1 == |streams| then i
               else FindFolder(streams, file, i + 1, total + streams[i])
  {
    SmallRemainder(total + streams[i], TWO64);
  }

  lemma NothingAdded()
    ensures Sum([]) == 0
  {
  }

  lemma SumFirst(x: u64, rest: seq<u64>)
    ensures Sum([x] + rest) == x + Sum(rest)
  {
    assert ([x] + rest)[1..] == rest;
  }

  lemma SumStep(streams: seq<u64>, i: nat)
    requires i < |streams|
    ensures Sum(streams[i..]) == streams[i] + Sum(streams[i + 1..])
  {
    assert streams[i..][1..] == streams[i + 1..];
  }

  lemma {:induction false} FewWithoutShared(streams: seq<u64>)
    requires !AnyShared(streams)
    ensures Sum(streams) <= |streams|
  {
    if streams != [] {
      assert streams[0] <= 1;
      assert forall i :: 0 <= i < |streams[1..]| ==> streams[1..][i] == streams[i + 1];
      FewWithoutShared(streams[1..]);
    }
  }

  // Dropping the sizes that are not written leaves every file where it was.
  lemma NormalKeepsPlaces(i: StreamsInfo, file: nat)
    requires GoodStreamsInfo(i)
    ensures FileFolderAndSize(NormalStreams(i), file) == FileFolderAndSize(i, file)
  {
    hide GoodPackInfo, LastsFollow, Sum;
    if i.subStreamsInfo.Some? {
      var s := i.subStreamsInfo.value;
      if !AnyShared(s.streams) && |s.streams| > 0 {
        FewWithoutShared(s.streams);
        var folder := FindFolder(s.streams, file, 0, 0);
        assert s.streams[0..] == s.streams;
        FindFolderIs(s.streams, file, 0, 0);
        assert s.streams[folder] <= 1;
      }
    }
  }

  // --- the header ---

  // Every file with a stream, from the j-th stream on, gets the size and checksum of its place.
  function Fill(files: Files, i: StreamsInfo, j: nat): Option<Files>
    decreases |files|
  {
    if files == [] then Some([])
    else if files[0].isEmptyStream then
      match Fill(files[1..], i, j)
      case None => None
      case Some(rest) => Some([files[0]] + rest)
    else
      match FileFolderAndSize(i, j)
      case None => None
      case Some(p) =>
        match Fill(files[1..], i, j + 1)
        case None => None
        case Some(rest) => Some([files[0].(size := p.size, crc := p.crc)] + rest)
  }

  function GetMainStreams(id: byte, s: seq<byte>): Parse<(Option<StreamsInfo>, byte)> {
    if id == ID_MAIN_STREAMS_INFO then
      var (i, s) :- GetStreamsInfo(s);
      var (id, s) :- GetByte(s);
      Ok((Some(i), id), s)
    else Ok((None, id), s)
  }

  function GetFilesSection(id: byte, s: seq<byte>): Parse<(Option<Files>, byte)> {
    if id == ID_FILES_INFO then
      var (f, s) :- GetFilesInfo(s);
      var (id, s) :- GetByte(s);
      Ok((Some(f), id), s)
    else Ok((None, id), s)
  }

  function GetHeader(s: seq<byte>): Parse<Header> {
    var (id, s) :- GetByte(s);
    if id == ID_ARCHIVE_PROPERTIES || id == ID_ADDITIONAL_STREAMS_INFO then Err(Todo)
    else
      var ((streams, id), s) :- GetMainStreams(id, s);
      var ((files, id), s) :- GetFilesSection(id, s);
      if id != ID_END then Err(UnexpectedId)
      else if streams.None? || files.None? then Ok(Header(streams, files), s)
      else
        match Fill(files.value, streams.value, 0)
        case None => Err(Panic)
        case Some(filled) => Ok(Header(streams, Some(filled)), s)
  }

  predicate GoodHeader(h: Header) {
    && (h.streamsInfo.Some? ==> GoodStreamsInfo(h.streamsInfo.value))
    && (h.filesInfo.Some? ==> GoodFiles(h.filesInfo.value))
    && (h.streamsInfo.Some? && h.filesInfo.Some? ==> Placed(h.filesInfo.value, h.streamsInfo.value))
  }

  // Every file with a stream has a place.
  predicate Placed(files: Files, i: StreamsInfo) {
    forall j :: 0 <= j < |files| - CountEmpty(files) ==> FileFolderAndSize(i, j).Some?
  }

  predicate PrintableHeader(h: Header) {
    (h.streamsInfo.Some? ==> Printable(h.streamsInfo.value)) && (h.filesInfo.Some? ==> Sized(h.filesInfo.value))
  }

  lemma GoodHeaderIsPrintable(h: Header)
    requires GoodHeader(h)
    ensures PrintableHeader(h)
  {
    hide Printable, GoodStreamsInfo, Sized, GoodFiles, Placed;
    if h.streamsInfo.Some? {
      GoodIsPrintable(h.streamsInfo.value);
    }
    if h.filesInfo.Some? {
      GoodAreSized(h.filesInfo.value);
    }
  }

  function PutMainStreams(h: Header): seq<byte>
    requires PrintableHeader(h)
  {
    if h.streamsInfo.Some? then [ID_MAIN_STREAMS_INFO] + PutStreamsInfo(h.streamsInfo.value) else []
  }

  function PutFilesSection(h: Header): seq<byte>
    requires PrintableHeader(h)
  {
    if h.filesInfo.Some? then [ID_FILES_INFO] + PutFilesInfo(h.filesInfo.value) else []
  }

  function PutHeader(h: Header): seq<byte>
    requires PrintableHeader(h)
  {
    PutMainStreams(h) + PutFilesSection(h) + [ID_END]
  }

  // What reading gives back: sizes that are not written are gone, and each file has the
  // size and checksum of its place instead of its own, or none.
  function NormalHeader(h: Header): (n: Header)
    requires GoodHeader(h)
  {
    var streams := if h.streamsInfo.Some? then Some(NormalStreams(h.streamsInfo.value)) else None;
    var files :=
      if h.filesInfo.None? then None
      else if h.streamsInfo.None? then Some(Partials(h.filesInfo.value, 7))
      else Fill(Partials(h.filesInfo.value, 7), h.streamsInfo.value, 0);
    Header(streams, files)
  }

  lemma {:induction false} CountEmptyPartials(files: Files, n: nat)
    requires n >= 1
    ensures CountEmpty(Partials(files, n)) == CountEmpty(files)
  {
    if files != [] {
      assert Partials(files, n)[1..] == Partials(files[1..], n);
      CountEmptyPartials(files[1..], n);
    }
  }

  lemma {:induction false} FillKept(files: Files, i: StreamsInfo, j: nat)
    requires GoodStreamsInfo(i)
    requires forall k :: j <= k < j + |files| - CountEmpty(files) ==> FileFolderAndSize(i, k).Some?
    ensures Fill(files, i, j).Some? && Fill(files, NormalStreams(i), j) == Fill(files, i, j)
    decreases |files|
  {
    hide GoodStreamsInfo, FileFolderAndSize;
    if files != [] {
      EmptyLength(files[1..]);
      if files[0].isEmptyStream {
        FillKept(files[1..], i, j);
      } else {
        NormalKeepsPlaces(i, j);
        FillKept(files[1..], i, j + 1);
      }
    }
  }

  lemma MainStreamsRoundTrip(h: Header, next: byte, rest: seq<byte>)
    requires GoodHeader(h) && (next == ID_FILES_INFO || next == ID_END)
    ensures var s := PutMainStreams(h) + ([next] + rest);
            && s != [] && s[0] != ID_ARCHIVE_PROPERTIES && s[0] != ID_ADDITIONAL_STREAMS_INFO
            && GetMainStreams(s[0], s[1..]) == Ok((NormalHeader(h).streamsInfo, next), rest)
  {
    hide GetByte, GetStreamsInfo, PutStreamsInfo, GoodStreamsInfo, NormalStreams, GoodFiles, Placed, Fill, Partials;
    if h.streamsInfo.Some? {
      var i := h.streamsInfo.value;
      GoodIsPrintable(i);
      StreamsInfoRoundTrip(i, [next] + rest);
      Prefixed(ID_MAIN_STREAMS_INFO, PutStreamsInfo(i), [next] + rest);
      NextByteIs(next, rest);
    } else {
      NotPrefixed(next, rest);
    }
  }

  lemma FilesSectionRoundTrip(h: Header, next: byte, rest: seq<byte>)
    requires GoodHeader(h) && next == ID_END
    ensures var s := PutFilesSection(h) + ([next] + rest);
            && s != [] && (s[0] == ID_FILES_INFO || s[0] == ID_END)
            && GetFilesSection(s[0], s[1..])
               == Ok((if h.filesInfo.Some? then Some(Partials(h.filesInfo.value, 7)) else None, next), rest)
  {
    hide GetByte, GetFilesInfo, PutFilesInfo, GoodStreamsInfo, GoodFiles, Placed, Partials, Sized;
    if h.filesInfo.Some? {
      var f := h.filesInfo.value;
      GoodAreSized(f);
      FilesInfoRoundTrip(f, [next] + rest);
      Prefixed(ID_FILES_INFO, PutFilesInfo(f), [next] + rest);
      NextByteIs(next, rest);
    } else {
      NotPrefixed(next, rest);
    }
  }

  // Reading a written header succeeds, takes exactly the bytes written, and gives the
  // header back in normal form.
  lemma HeaderRoundTrip(h: Header, rest: seq<byte>)
    requires GoodHeader(h)
    ensures GetHeader(PutHeader(h) + rest) == Ok(NormalHeader(h), rest)
  {
    hide GetMainStreams, PutMainStreams, GetFilesSection, PutFilesSection, GoodStreamsInfo, GoodFiles, Partials,
      NormalStreams, Fill, PrintableHeader;
    var end := [ID_END] + rest;
    GoodHeaderIsPrintable(h);
    FilesSectionRoundTrip(h, ID_END, rest);
    var f := PutFilesSection(h) + end;
    assert [f[0]] + f[1..] == f;
    MainStreamsRoundTrip(h, f[0], f[1..]);
    assert PutHeader(h) + rest == PutMainStreams(h) + f;
    if h.streamsInfo.Some? && h.filesInfo.Some? {
      CountEmptyPartials(h.filesInfo.value, 7);
      FillKept(Partials(h.filesInfo.value, 7), h.streamsInfo.value, 0);
    }
  }
}
