/** The parser of file properties and of the whole header. */
module HeaderFilesReader {
  import opened Basics
  import opened HeaderData
  import opened HeaderNumbers
  import opened HeaderStreams
  import opened HeaderFiles
  import opened HeaderRoundTrip
  import opened HeaderReader
  import opened HeaderWriter

  method ReadExternal(r: Source) returns (res: Result<()>)
    modifies r
    ensures Agrees(GetExternal(old(r.rest), ()), res, r.rest)
  {
    var external :- r.ReadByte();
    if external > 0 {
      return Failure(Todo);
    }
    return Success(());
  }

  // splitNull over the whole token stream
  method ScanNames(units: seq<u16>) returns (names: seq<seq<u16>>)
    ensures names == Split(units)
  {
    names := [];
    var name: seq<u16> := [];
    for i := 0 to |units|
      invariant names + SplitFrom(name, units[i..]) == Split(units)
    {
      assert units[i..][1..] == units[i + 1..];
      if units[i] == 0 {
        names := names + [name];
        name := [];
      } else {
        name := name + [units[i]];
      }
    }
    if name != [] {
      names := names + [name];
    }
  }

  method ReadNames(r: Source, count: nat, length: u64) returns (res: Result<seq<seq<u16>>>)
    modifies r
    ensures Agrees(GetNames(old(r.rest), count, length), res, r.rest)
  {
    hide Split, Units, GetExternal;
    if Check(count, true).Some? {
      return Failure(Check(count, true).value);
    }
    var _ :- ReadExternal(r);
    var n := Min(Limit(length), |r.rest|);
    var names := ScanNames(Units(r.rest[..n]));
    r.rest := r.rest[n..];
    if |names| != count {
      return Failure(WrongNumberOfFilenames);
    }
    return Success(names);
  }

  // Times and attributes: bits, an external byte, then the values.
  method ReadExternalValues(r: Source, count: nat, width: nat) returns (res: Result<seq<Option<nat>>>)
    requires width <= 8
    modifies r
    ensures Agrees(GetExternalValues(old(r.rest), count, width), res, r.rest)
  {
    hide GetOptionalBools, GetExternal, GetValues, Pow256;
    if Check(count, true).Some? {
      return Failure(Check(count, true).value);
    }
    var defined :- ReadOptionalBool(r, count);
    var _ :- ReadExternal(r);
    res := ReadValues(r, defined, width);
  }

  // --- the property loop ---

  method ReadEmptyStreams(r: Source, files: Files, empty: nat) returns (res: Result<(Files, nat)>)
    modifies r
    ensures Agrees(GetEmptyStreams(old(r.rest), files, empty), res, r.rest)
  {
    hide GetBools;
    ghost var s := r.rest;
    var bits :- ReadBool(r, |files|);
    BoolsCount(s, |files|);
    var file, emptyStreams := files, empty;
    for i := 0 to |files|
      invariant |file| == |files|
      invariant forall k :: 0 <= k < |files| ==>
                  file[k] == if k < i then files[k].(isEmptyStream := bits[k]) else files[k]
      invariant emptyStreams + CountTrue(bits[i..]) == empty + CountTrue(bits)
    {
      assert bits[i..][1..] == bits[i + 1..];
      file := file[i := file[i].(isEmptyStream := bits[i])];
      if bits[i] {
        emptyStreams := emptyStreams + 1;
      }
    }
    assert file == SetEmptyStreams(files, bits);
    return Success((file, emptyStreams));
  }

  lemma BoolsCount(s: seq<byte>, count: nat)
    ensures GetBools(s, count).Ok? ==> |GetBools(s, count).value| == count
  {
  }

  // What is left to do for the files from here on with the bits not yet used.
  ghost function FilesAfter(done: Files, files: Files, bits: seq<bool>): Files
    requires CountEmpty(files) <= |bits|
  {
    done + SetEmptyFiles(files, bits)
  }

  lemma FilesAfterStep(done: Files, files: Files, bits: seq<bool>)
    requires files != [] && CountEmpty(files) <= |bits|
    ensures CountEmpty(files) == CountEmpty(files[1..]) + if files[0].isEmptyStream then 1 else 0
    ensures FilesAfter(done, files, bits)
            == if files[0].isEmptyStream then
               FilesAfter(done + [files[0].(isEmptyFile := bits[0])], files[1..], bits[1..])
               else FilesAfter(done + [files[0]], files[1..], bits)
  {
    hide SetEmptyFiles, CountEmpty;
    CountEmptyStep(files);
    SetEmptyStep(files, bits);
    if files[0].isEmptyStream {
      After(done, [files[0].(isEmptyFile := bits[0])], SetEmptyFiles(files[1..], bits[1..]));
    } else {
      After(done, [files[0]], SetEmptyFiles(files[1..], bits));
    }
  }

  lemma After(done: Files, one: Files, rest: Files)
    ensures done + (one + rest) == (done + one) + rest
  {
  }

  lemma SetEmptyStep(files: Files, bits: seq<bool>)
    requires files != [] && CountEmpty(files) <= |bits|
    requires CountEmpty(files) == CountEmpty(files[1..]) + if files[0].isEmptyStream then 1 else 0
    ensures SetEmptyFiles(files, bits)
            == if files[0].isEmptyStream then [files[0].(isEmptyFile := bits[0])] + SetEmptyFiles(files[1..], bits[1..])
               else [files[0]] + SetEmptyFiles(files[1..], bits)
  {
    hide CountEmpty;
  }

  lemma CountEmptyStep(files: Files)
    requires files != []
    ensures CountEmpty(files) == CountEmpty(files[1..]) + if files[0].isEmptyStream then 1 else 0
  {
  }

  lemma FilesAfterEnds(files: Files, bits: seq<bool>)
    ensures CountEmpty([]) == 0 && FilesAfter(files, [], bits) == files
    ensures CountEmpty(files) <= |bits| ==> FilesAfter([], files, bits) == SetEmptyFiles(files, bits)
  {
    if CountEmpty(files) <= |bits| {
      assert [] + SetEmptyFiles(files, bits) == SetEmptyFiles(files, bits);
    }
  }

  // The j-th bit belongs to the j-th file without a stream; too few bits panic.
  method SetEmptyFilesInTurn(files: Files, bits: seq<bool>) returns (res: Result<Files>)
    ensures res == if CountEmpty(files) > |bits| then Failure(Panic) else Success(SetEmptyFiles(files, bits))
  {
    hide SetEmptyFiles, CountEmpty, FilesAfter;
    var file: Files, j: nat := [], 0;
    assert files[0..] == files && bits[0..] == bits;
    FilesAfterEnds(files, bits);
    for i := 0 to |files|
      invariant j <= |bits| && j + CountEmpty(files[i..]) == CountEmpty(files)
      invariant CountEmpty(files) <= |bits| ==> FilesAfter(file, files[i..], bits[j..]) == SetEmptyFiles(files, bits)
    {
      assert files[i..][1..] == files[i + 1..];
      CountEmptyStep(files[i..]);
      if CountEmpty(files) <= |bits| {
        FilesAfterStep(file, files[i..], bits[j..]);
      }
      if files[i].isEmptyStream {
        if j >= |bits| {
          return Failure(Panic);
        }
        assert bits[j..][1..] == bits[j + 1..];
        file := file + [files[i].(isEmptyFile := bits[j])];
        j := j + 1;
      } else {
        file := file + [files[i]];
      }
    }
    assert files[|files|..] == [];
    FilesAfterEnds(file, bits[j..]);
    return Success(file);
  }

  method ReadEmptyFiles(r: Source, files: Files, empty: nat) returns (res: Result<(Files, nat)>)
    modifies r
    ensures Agrees(GetEmptyFiles(old(r.rest), files, empty), res, r.rest)
  {
    hide GetBools, SetEmptyFiles, CountEmpty;
    var bits :- ReadBool(r, empty);
    var file :- SetEmptyFilesInTurn(files, bits);
    return Success((file, empty));
  }

  method ReadTimes(r: Source, files: Files, empty: nat, k: TimeKind) returns (res: Result<(Files, nat)>)
    modifies r
    ensures Agrees(GetTimes(old(r.rest), files, empty, k), res, r.rest)
  {
    hide GetExternalValues, FitsIn;
    ghost var s := r.rest;
    var times :- ReadExternalValues(r, |files|, 8);
    ValuesFit(s, |files|, 8);
    var file := files;
    for i := 0 to |files|
      invariant |file| == |files|
      invariant forall k' :: 0 <= k' < |files| ==>
                  file[k'] == if k' < i then TimeSet(files[k'], k, times[k']) else files[k']
    {
      file := file[i := TimeSet(file[i], k, times[i])];
    }
    TimesSet(files, k, times, file);
    return Success((file, empty));
  }

  function TimeSet(f: FileHeader, k: TimeKind, t: Option<nat>): FileHeader
    requires FitsIn(t, 8)
  {
    WithTime(f, k, t)
  }

  lemma TimesSet(files: Files, k: TimeKind, times: seq<Option<nat>>, file: Files)
    requires |file| == |files| == |times| && Fit(times, 8)
    requires forall i :: 0 <= i < |files| ==> FitsIn(times[i], 8) && file[i] == TimeSet(files[i], k, times[i])
    ensures file == SetTimes(files, k, times)
  {
  }

  lemma ValuesFit(s: seq<byte>, count: nat, width: nat)
    requires width <= 8
    ensures var p := GetExternalValues(s, count, width); p.Ok? ==> |p.value| == count && Fit(p.value, width)
  {
  }

  method ReadFileNames(r: Source, files: Files, empty: nat, length: u64) returns (res: Result<(Files, nat)>)
    modifies r
    ensures var p := GetNames(old(r.rest), |files|, length);
            Agrees(if p.Err? then Err(p.error) else Ok((SetNames(files, p.value), empty), p.rest), res, r.rest)
  {
    hide Split, Units;
    ghost var s := r.rest;
    var names :- ReadNames(r, |files|, length);
    assert |names| == |files| by {
      assert GetNames(s, |files|, length).Ok?;
    }
    var file := files;
    for i := 0 to |files|
      invariant |file| == |files|
      invariant forall k :: 0 <= k < |files| ==> file[k] == if k < i then files[k].(name := names[k]) else files[k]
    {
      file := file[i := file[i].(name := names[i])];
    }
    assert file == SetNames(files, names);
    return Success((file, empty));
  }

  method ReadAttributes(r: Source, files: Files, empty: nat) returns (res: Result<(Files, nat)>)
    modifies r
    ensures var p := GetExternalValues(old(r.rest), |files|, 4);
            Agrees(if p.Err? then Err(p.error) else Ok((SetAttributes(files, Filled(p.value)), empty), p.rest),
                   res, r.rest)
  {
    hide GetExternalValues, FitsIn;
    ghost var s := r.rest;
    var values :- ReadExternalValues(r, |files|, 4);
    ValuesFit(s, |files|, 4);
    var attributes := Filled(values);
    var file := files;
    for i := 0 to |files|
      invariant |file| == |files|
      invariant forall k :: 0 <= k < |files| ==>
                  file[k] == if k < i then files[k].(attributes := attributes[k]) else files[k]
    {
      file := file[i := file[i].(attributes := attributes[i])];
    }
    assert file == SetAttributes(files, attributes);
    return Success((file, empty));
  }

  // io.CopyN to nowhere
  method SkipDummy(r: Source, files: Files, empty: nat, length: u64) returns (res: Result<(Files, nat)>)
    modifies r
    ensures Agrees(Skip(old(r.rest), files, empty, length), res, r.rest)
  {
    if length < 0x8000_0000_0000_0000 {
      if |r.rest| < length {
        return Failure(EOF);
      }
      r.rest := r.rest[length..];
    }
    return Success((files, empty));
  }

  method ReadProperty(r: Source, id: byte, length: u64, files: Files, empty: nat) returns (res: Result<(Files, nat)>)
    modifies r
    ensures Agrees(GetProperty(id, length, old(r.rest), files, empty), res, r.rest)
  {
    hide GetEmptyStreams, GetEmptyFiles, GetTimes, GetNames, GetExternalValues, Skip, SetNames, SetAttributes, Filled;
    if id == ID_EMPTY_STREAM {
      res := ReadEmptyStreams(r, files, empty);
    } else if id == ID_EMPTY_FILE {
      res := ReadEmptyFiles(r, files, empty);
    } else if id == ID_CTIME {
      res := ReadTimes(r, files, empty, Created);
    } else if id == ID_ATIME {
      res := ReadTimes(r, files, empty, Accessed);
    } else if id == ID_MTIME {
      res := ReadTimes(r, files, empty, Modified);
    } else if id == ID_NAME {
      res := ReadFileNames(r, files, empty, length);
    } else if id == ID_WIN_ATTRIBUTES {
      res := ReadAttributes(r, files, empty);
    } else if id == ID_START_POS {
      return Failure(Todo);
    } else if id == ID_DUMMY {
      res := SkipDummy(r, files, empty, length);
    } else {
      return Failure(UnexpectedId);
    }
  }

  method ReadFileProperties(r: Source, count: nat) returns (res: Result<Files>)
    modifies r
    ensures Agrees(GetFileProperties(old(r.rest), seq(count, _ => BLANK), 0), res, r.rest)
  {
    hide GetUint64, GetProperty;
    var file, emptyStreams := seq(count, _ => BLANK), 0;
    ghost var whole := GetFileProperties(r.rest, file, 0);
    while true
      invariant GetFileProperties(r.rest, file, emptyStreams) == whole
      decreases |r.rest|
    {
      ghost var s := r.rest;
      var property :- r.ReadByte();
      if property == ID_END {
        return Success(file);
      }
      ghost var t := r.rest;
      var length :- ReadUint64(r);
      ghost var u := r.rest;
      var next :- ReadProperty(r, property, length, file, emptyStreams);
      Shrinks(t, property, length, u, file, emptyStreams);
      file, emptyStreams := next.0, next.1;
    }
  }

  lemma Shrinks(t: seq<byte>, id: byte, length: u64, u: seq<byte>, files: Files, empty: nat)
    ensures GetUint64(t).Ok? ==> |GetUint64(t).rest| < |t|
    ensures GetProperty(id, length, u, files, empty).Ok? ==> |GetProperty(id, length, u, files, empty).rest| <= |u|
  {
  }

  method ReadFilesInfo(r: Source) returns (res: Result<Files>)
    modifies r
    ensures Agrees(GetFilesInfo(old(r.rest)), res, r.rest)
  {
    hide GetBounded, GetFileProperties;
    var count :- ReadUint64Bounded(r, true);
    res := ReadFileProperties(r, count);
  }

  // --- the header ---

  method ReadMainStreams(r: Source, id: byte) returns (res: Result<(Option<StreamsInfo>, byte)>)
    modifies r
    ensures Agrees(GetMainStreams(id, old(r.rest)), res, r.rest)
  {
    hide GetStreamsInfo;
    if id == ID_MAIN_STREAMS_INFO {
      var i :- ReadStreamsInfo(r);
      var next :- r.ReadByte();
      return Success((Some(i), next));
    }
    return Success((None, id));
  }

  method ReadFilesSection(r: Source, id: byte) returns (res: Result<(Option<Files>, byte)>)
    modifies r
    ensures Agrees(GetFilesSection(id, old(r.rest)), res, r.rest)
  {
    hide GetFilesInfo;
    if id == ID_FILES_INFO {
      var f :- ReadFilesInfo(r);
      var next :- r.ReadByte();
      return Success((Some(f), next));
    }
    return Success((None, id));
  }

  // The loop over stream counts of FileFolderAndSize.
  method FindFolderLoop(streams: seq<u64>, file: nat) returns (folder: nat)
    requires |streams| > 0
    ensures folder == FindFolder(streams, file, 0, 0)
  {
    var total: u64 := 0;
    folder := 0;
    while true
      invariant folder < |streams| && FindFolder(streams, file, folder, total) == FindFolder(streams, file, 0, 0)
      decreases |streams| - folder
    {
      total := (total + streams[folder]) % TWO64;
      if file < total || folder + 1 == |streams| {
        return;
      }
      folder := folder + 1;
    }
  }

  method LocateFile(i: StreamsInfo, file: nat) returns (p: Option<Place>)
    ensures p == FileFolderAndSize(i, file)
  {
    hide FindFolder;
    var folder, streams, crc := 0, 1, 0;
    if i.subStreamsInfo.Some? {
      var s := i.subStreamsInfo.value;
      if |s.streams| > 0 {
        folder := FindFolderLoop(s.streams, file);
        streams := s.streams[folder];
      }
      if |s.digest| > 0 {
        if file >= |s.digest| {
          return None;
        }
        crc := s.digest[file];
      }
      if streams != 1 {
        if file >= |s.size| {
          return None;
        }
        return Some(Place(folder, s.size[file], crc));
      }
    }
    return FolderPlace(i, folder, crc);
  }

  ghost function AfterFiles(done: Files, p: Option<Files>): Option<Files> {
    match p
    case Some(v) => Some(done + v)
    case None => None
  }

  lemma AfterFile(done: Files, x: FileHeader, p: Option<Files>, q: Option<Files>)
    requires q == if p.Some? then Some([x] + p.value) else None
    ensures AfterFiles(done, q) == AfterFiles(done + [x], p)
  {
    if p.Some? {
      assert done + ([x] + p.value) == done + [x] + p.value;
    }
  }

  lemma FilesDone(done: Files)
    ensures AfterFiles(done, Some([])) == Some(done)
  {
    assert done + [] == done;
  }

  lemma NoFiles(p: Option<Files>)
    ensures AfterFiles([], p) == p
  {
    if p.Some? {
      assert [] + p.value == p.value;
    }
  }

  // Sizes and checksums for the files with a stream, counted by j.
  method FillSizes(files: Files, i: StreamsInfo) returns (res: Option<Files>)
    ensures res == Fill(files, i, 0)
  {
    hide FileFolderAndSize, AfterFiles;
    var file: Files, j: nat := [], 0;
    assert files[0..] == files;
    NoFiles(Fill(files, i, 0));
    for k := 0 to |files|
      invariant AfterFiles(file, Fill(files[k..], i, j)) == Fill(files, i, 0)
    {
      assert files[k..][1..] == files[k + 1..];
      if files[k].isEmptyStream {
        AfterFile(file, files[k], Fill(files[k + 1..], i, j), Fill(files[k..], i, j));
        file := file + [files[k]];
        continue;
      }
      var p := LocateFile(i, j);
      if p.None? {
        NoneAfter(file);
        return None;
      }
      var f := files[k].(size := p.value.size, crc := p.value.crc);
      AfterFile(file, f, Fill(files[k + 1..], i, j + 1), Fill(files[k..], i, j));
      file, j := file + [f], j + 1;
    }
    FilesDone(file);
    return Some(file);
  }

  lemma NoneAfter(done: Files)
    ensures AfterFiles(done, None) == None
  {
  }

  method ReadHeader(r: Source) returns (res: Result<Header>)
    modifies r
    ensures Agrees(GetHeader(old(r.rest)), res, r.rest)
  {
    hide GetMainStreams, GetFilesSection, Fill;
    var id :- r.ReadByte();
    if id == ID_ARCHIVE_PROPERTIES || id == ID_ADDITIONAL_STREAMS_INFO {
      return Failure(Todo);
    }
    var streams :- ReadMainStreams(r, id);
    var files :- ReadFilesSection(r, streams.1);
    if files.1 != ID_END {
      return Failure(UnexpectedId);
    }
    if streams.0.None? || files.0.None? {
      return Success(Header(streams.0, files.0));
    }
    var filled := FillSizes(files.0.value, streams.0.value);
    if filled.None? {
      return Failure(Panic);
    }
    return Success(Header(streams.0, filled));
  }

  // Printing a header and parsing the bytes: it succeeds and nothing is left over.
  method WriteThenRead(h: Header) returns (res: Result<Header>)
    requires GoodHeader(h)
    ensures res == Success(NormalHeader(h))
  {
    hide PutHeader, GetHeader, NormalHeader, GoodHeader, PrintableHeader;
    GoodHeaderIsPrintable(h);
    var w := new Sink();
    WriteHeader(w, h);
    HeaderRoundTrip.HeaderRoundTrip(h, []);
    assert PutHeader(h) + [] == PutHeader(h) == [] + PutHeader(h);
    var r := new Source(w.out);
    res := ReadHeader(r);
    assert r.rest == [];
  }
}
