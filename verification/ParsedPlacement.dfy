/** Where the reader looks for the files of a parsed archive, whoever wrote it. */
module ParsedPlacement {
  import opened Basics
  import opened HeaderData
  import opened HeaderNumbers
  import opened HeaderStreams
  import opened HeaderFiles
  import opened HeaderRoundTrip
  import opened ParsedStreams
  import opened Placement
  import FolderGraph

  // --- two counters of files with data ---

  // Marked as an empty file although it has a stream.
  predicate Stray(f: FileHeader) {
    f.isEmptyFile && !f.isEmptyStream
  }

  function CountStray(files: Files): nat {
    if files == [] then 0 else CountStray(files[..|files| - 1]) + if Stray(files[|files| - 1]) then 1 else 0
  }

  predicate NoStray(files: Files) {
    forall k :: 0 <= k < |files| ==> !Stray(files[k])
  }

  lemma {:induction false} CountEmptyMore(files: Files, f: FileHeader)
    ensures CountEmpty(files + [f]) == CountEmpty(files) + if f.isEmptyStream then 1 else 0
  {
    if files == [] {
      assert [] + [f] == [f] && [f][1..] == [];
    } else {
      assert (files + [f])[1..] == files[1..] + [f];
      CountEmptyMore(files[1..], f);
    }
  }

  lemma CountEmptyNext(files: Files, k: nat)
    requires k < |files|
    ensures CountEmpty(files[..k + 1]) == CountEmpty(files[..k]) + if files[k].isEmptyStream then 1 else 0
  {
    assert files[..k + 1] == files[..k] + [files[k]];
    CountEmptyMore(files[..k], files[k]);
  }

  lemma {:induction false} CountEmptySame(a: Files, b: Files)
    requires |a| == |b| && forall i :: 0 <= i < |a| ==> a[i].isEmptyStream == b[i].isEmptyStream
    ensures CountEmpty(a) == CountEmpty(b)
  {
    if a != [] {
      CountEmptySame(a[1..], b[1..]);
    }
  }

  // The parser counts files with a stream, the placement loop those that are not marked empty
  // either; what lies between them are the strays.
  lemma {:induction false} CountersDiffer(files: Files)
    ensures |files| - CountEmpty(files) == CountData(files) + CountStray(files)
  {
    if files != [] {
      var n := |files| - 1;
      CountersDiffer(files[..n]);
      CountEmptyMore(files[..n], files[n]);
      assert files == files[..n] + [files[n]];
    }
  }

  lemma {:induction false} StraysCounted(files: Files)
    ensures CountStray(files) == 0 <==> NoStray(files)
  {
    if files != [] {
      var n := |files| - 1;
      StraysCounted(files[..n]);
      assert NoStray(files) <==> NoStray(files[..n]) && !Stray(files[n]);
    }
  }

  // Both counters agree at a file if and only if no file before it is a stray.
  lemma CountersAgree(files: Files, k: nat)
    requires k <= |files|
    ensures k - CountEmpty(files[..k]) == CountData(files[..k]) <==> NoStray(files[..k])
    ensures CountData(files[..k]) <= k - CountEmpty(files[..k])
  {
    CountersDiffer(files[..k]);
    StraysCounted(files[..k]);
  }

  // Every number below the parser's count is that of a file.
  lemma {:induction false} NthStream(files: Files, n: nat, j: nat) returns (m: nat)
    requires n <= |files| && j < n - CountEmpty(files[..n])
    ensures m < n && !files[m].isEmptyStream && m - CountEmpty(files[..m]) == j
  {
    CountEmptyNext(files, n - 1);
    if !files[n - 1].isEmptyStream && j == n - 1 - CountEmpty(files[..n - 1]) {
      m := n - 1;
    } else {
      m := NthStream(files, n - 1, j);
    }
  }

  // --- an archive on which they differ ---

  const STRAY_BYTES: seq<byte> := [0x0e, 1, 0x80, 0x0f, 1, 0x80, 0x0e, 1, 0, 0]

  const MARKED: FileHeader := BLANK.(isEmptyStream := true, isEmptyFile := true)

  // Two files: the first has no stream, is an empty file, and then has a stream after all.
  lemma StrayParses()
    ensures GetFileProperties(STRAY_BYTES, [BLANK, BLANK], 0) == Ok([BLANK.(isEmptyFile := true), BLANK], [])
  {
    hide GetFileProperties;
    var end: seq<byte> := [0];
    var c: seq<byte> := [0x0e, 1, 0] + end;
    var b: seq<byte> := [0x0f, 1, 0x80] + c;
    assert STRAY_BYTES == [0x0e, 1, 0x80] + b;
    FirstProperty(b);
    SecondProperty(c);
    ThirdProperty(end);
    assert end == [ID_END] + [];
    EndTurn([], [BLANK.(isEmptyFile := true), BLANK], 1);
  }

  lemma FirstProperty(rest: seq<byte>)
    ensures GetFileProperties([0x0e, 1, 0x80] + rest, [BLANK, BLANK], 0)
            == GetFileProperties(rest, [BLANK.(isEmptyStream := true), BLANK], 1)
  {
    hide GetFileProperties, GetBools, PutUint64, PutBools;
    var f: Files := [BLANK, BLANK];
    StrayBits();
    SmallLength();
    BoolsRoundTrip([true, false], rest);
    assert [true, false][1..] == [false] && [false][1..] == [];
    assert SetEmptyStreams(f, [true, false]) == [BLANK.(isEmptyStream := true), BLANK];
    assert PutProperty(ID_EMPTY_STREAM, [0x80]) == [0x0e, 1, 0x80];
    PropertyTurn(ID_EMPTY_STREAM, [0x80], rest, f, 0, [BLANK.(isEmptyStream := true), BLANK], 1);
  }

  lemma SecondProperty(rest: seq<byte>)
    ensures GetFileProperties([0x0f, 1, 0x80] + rest, [BLANK.(isEmptyStream := true), BLANK], 1)
            == GetFileProperties(rest, [MARKED, BLANK], 1)
  {
    hide GetFileProperties, GetBools, PutUint64, PutBools;
    var f: Files := [BLANK.(isEmptyStream := true), BLANK];
    StrayBits();
    SmallLength();
    BoolsRoundTrip([true], rest);
    assert f[1..] == [BLANK] && [BLANK][1..] == [] && SetEmptyFiles([], []) == [];
    assert [true][1..] == [] && SetEmptyFiles([BLANK], []) == [BLANK];
    assert SetEmptyFiles(f, [true]) == [MARKED] + [BLANK] == [MARKED, BLANK];
    assert CountEmpty(f) == 1;
    assert PutProperty(ID_EMPTY_FILE, [0x80]) == [0x0f, 1, 0x80];
    PropertyTurn(ID_EMPTY_FILE, [0x80], rest, f, 1, [MARKED, BLANK], 1);
  }

  lemma ThirdProperty(rest: seq<byte>)
    ensures GetFileProperties([0x0e, 1, 0] + rest, [MARKED, BLANK], 1)
            == GetFileProperties(rest, [BLANK.(isEmptyFile := true), BLANK], 1)
  {
    hide GetFileProperties, GetBools, PutUint64, PutBools;
    var f: Files := [MARKED, BLANK];
    StrayBits();
    SmallLength();
    BoolsRoundTrip([false, false], rest);
    assert [false, false][1..] == [false] && [false][1..] == [];
    assert SetEmptyStreams(f, [false, false]) == [BLANK.(isEmptyFile := true), BLANK];
    assert PutProperty(ID_EMPTY_STREAM, [0]) == [0x0e, 1, 0];
    PropertyTurn(ID_EMPTY_STREAM, [0], rest, f, 1, [BLANK.(isEmptyFile := true), BLANK], 1);
  }

  lemma StrayBits()
    ensures PutBools([true, false]) == [0x80] && PutBools([true]) == [0x80] && PutBools([false, false]) == [0]
  {
    assert [true, false][1..] == [false] && [false][1..] == [] && [false, false][1..] == [false] && [true][1..] == [];
    assert (0x80 as bv8) >> 1 == 0x40 && (0x40 as bv8) >> 1 == 0x20;
    assert PutBits([], 0x80, 0x40) == [0x80] && PutBits([], 0x80, 0x20) == [0x80] && PutBits([], 0, 0x20) == [0];
    assert PutBits([false], 0x80, 0x40) == [0x80] && PutBits([false], 0, 0x40) == [0];
  }

  lemma SmallLength()
    ensures PutUint64(1) == [1]
  {
  }

  // The second file has the size and checksum of the second place, and is looked for at the first.
  lemma StrayMisplaced(i: StreamsInfo)
    requires FileFolderAndSize(i, 0).Some? && FileFolderAndSize(i, 1).Some?
    ensures var parsed := Fill([BLANK.(isEmptyFile := true), BLANK], i, 0);
            var place := FileFolderAndSize(i, 1).value;
            && parsed.Some? && |parsed.value| == 2
            && parsed.value[1].size == place.size && parsed.value[1].crc == place.crc
            && SpotIs(parsed.value, i, 1, At(FileFolderAndSize(i, 0).value.folder, 0))
  {
    hide FileFolderAndSize;
    var files: Files := [BLANK.(isEmptyFile := true), BLANK];
    assert files[1..] == [BLANK] && [BLANK][1..] == [];
    assert Fill([BLANK], i, 1).Some?;
    var parsed := Fill(files, i, 0).value;
    assert parsed[..1] == [parsed[0]] && parsed[..1][..0] == [];
    assert CountData(parsed[..1]) == 0;
    assert Behind(parsed, i, 0, FileFolderAndSize(i, 0).value.folder) == 0;
  }

  // --- the parser fills in sizes and checksums ---

  lemma {:induction false} FillLength(files: Files, i: StreamsInfo, j: nat)
    requires Fill(files, i, j).Some?
    ensures |Fill(files, i, j).value| == |files|
    decreases |files|
  {
    hide FileFolderAndSize;
    if files != [] {
      FillLength(files[1..], i, if files[0].isEmptyStream then j else j + 1);
    }
  }

  // In the order of the files with a stream.
  lemma {:induction false} FillAt(files: Files, i: StreamsInfo, j: nat, k: nat)
    requires Fill(files, i, j).Some? && k < |files|
    ensures var r := Fill(files, i, j).value;
            && |r| == |files| && SameFile(r[k], files[k])
            && CountEmpty(files[..k]) <= k
            && (!files[k].isEmptyStream ==>
                  var p := FileFolderAndSize(i, j + k - CountEmpty(files[..k]));
                  p.Some? && r[k].size == p.value.size && r[k].crc == p.value.crc)
    decreases |files|
  {
    hide FileFolderAndSize;
    if k > 0 {
      assert files[..k][1..] == files[1..][..k - 1];
      FillAt(files[1..], i, if files[0].isEmptyStream then j else j + 1, k - 1);
    } else {
      var next := if files[0].isEmptyStream then j else j + 1;
      if files[1..] != [] {
        FillAt(files[1..], i, next, 0);
      }
    }
  }

  // A file with a stream has the size and checksum of the place that the parser counted for it.
  ghost predicate FilledIn(files: Files, i: StreamsInfo) {
    forall k :: 0 <= k < |files| && !files[k].isEmptyStream ==> FilledAt(files, i, k)
  }

  ghost predicate FilledAt(files: Files, i: StreamsInfo, k: nat)
    requires k < |files|
  {
    CountEmpty(files[..k]) <= k &&
    var p := FileFolderAndSize(i, k - CountEmpty(files[..k]));
    p.Some? && files[k].size == p.value.size && files[k].crc == p.value.crc
  }

  lemma FillFills(files: Files, i: StreamsInfo)
    requires Fill(files, i, 0).Some?
    ensures var out := Fill(files, i, 0).value;
            && |out| == |files| && FilledIn(out, i)
            && (forall k :: 0 <= k < |files| ==> SameFile(out[k], files[k]))
  {
    hide FileFolderAndSize, Fill, CountEmpty;
    var out := Fill(files, i, 0).value;
    FillLength(files, i, 0);
    forall k | 0 <= k < |files| ensures SameFile(out[k], files[k]) {
      FillAt(files, i, 0, k);
    }
    forall k | 0 <= k < |out| && !out[k].isEmptyStream ensures FilledAt(out, i, k) {
      FillAt(files, i, 0, k);
      CountEmptySame(files[..k], out[..k]);
    }
  }

  // The files' checksums are those of their places.
  ghost predicate Checksums(files: Files, i: StreamsInfo) {
    forall k :: 0 <= k < |files| && HasData(files[k]) ==>
      var p := FileFolderAndSize(i, CountData(files[..k])); p.Some? && files[k].crc == p.value.crc
  }

  // Without strays, sizes and checksums are those of the places that the placement loop picks.
  lemma FilledSizes(files: Files, i: StreamsInfo)
    requires FilledIn(files, i) && NoStray(files) && AllPlaced(i) && CountData(files) <= Sum(Counts(i))
    ensures Sizes(files, i) && Checksums(files, i)
  {
    hide FileFolderAndSize, AllPlaced, Sum, CountEmpty, CountData, Counts;
    forall k | 0 <= k < |files| && HasData(files[k])
      ensures files[k].size == FileSize(i, CountData(files[..k]))
      ensures var p := FileFolderAndSize(i, CountData(files[..k])); p.Some? && files[k].crc == p.value.crc {
      assert FilledAt(files, i, k);
      CountersAgree(files, k);
    }
  }

  // --- parsed archives ---

  // A header with both sections, as it comes out of the parser.
  ghost predicate Parsed(s: seq<byte>, files: Files, i: StreamsInfo) {
    GetHeader(s).Ok? && GetHeader(s).value == Header(Some(i), Some(files))
  }

  lemma ParsedFilled(s: seq<byte>, files: Files, i: StreamsInfo)
    requires Parsed(s, files, i)
    ensures FilledIn(files, i)
  {
    hide GetMainStreams, GetFilesSection, Fill, FilledIn;
    var id, s1 := GetByte(s).value, GetByte(s).rest;
    var m := GetMainStreams(id, s1);
    var f := GetFilesSection(m.value.1, m.rest);
    FillFills(f.value.0.value, i);
  }

  lemma ParsedSection(s: seq<byte>, files: Files, i: StreamsInfo) returns (t: seq<byte>)
    requires Parsed(s, files, i)
    ensures GetStreamsInfo(t).Ok? && GetStreamsInfo(t).value == i
  {
    hide GetStreamsInfo, GetFilesSection, Fill;
    t := GetByte(s).rest;
  }

  // The placement loop never fails on a parsed archive, strays or not.
  lemma ParsedPlaceable(s: seq<byte>, files: Files, i: StreamsInfo, k: nat)
    requires Parsed(s, files, i) && k < |files|
    ensures Placeable(files, i, k)
  {
    hide FileFolderAndSize, CountEmpty, CountData, Parsed;
    ParsedFilled(s, files, i);
    if HasData(files[k]) {
      CountersAgree(files, k);
      CountEmptyNext(files, k);
      var m := NthStream(files, k + 1, CountData(files[..k]));
      assert FilledAt(files, i, m);
    }
  }

  // With as many files with a stream as the counts promise, every one of them has a place.
  lemma ParsedAllPlaced(s: seq<byte>, files: Files, i: StreamsInfo)
    requires Parsed(s, files, i) && |files| - CountEmpty(files) >= Sum(Counts(i)) && Sum(Counts(i)) < TWO64
    ensures AllPlaced(i)
  {
    hide FileFolderAndSize, CountEmpty, Parsed, Sum, Counts;
    ParsedFilled(s, files, i);
    forall j | 0 <= j < Sum(Counts(i)) ensures FileFolderAndSize(i, j).Some? {
      assert files[..|files|] == files;
      var m := NthStream(files, |files|, j);
      assert FilledAt(files, i, m);
    }
  }

  // Sizes and checksums are those of the places the placement loop picks, unless there is a stray.
  lemma ParsedSizes(s: seq<byte>, files: Files, i: StreamsInfo)
    requires Parsed(s, files, i) && NoStray(files) && AllPlaced(i) && CountData(files) <= Sum(Counts(i))
    ensures Sizes(files, i) && Checksums(files, i)
  {
    hide Parsed, Sizes, Checksums, AllPlaced, Sum, NoStray, Counts, CountData;
    ParsedFilled(s, files, i);
    FilledSizes(files, i);
  }

  // --- tiling ---

  // The sizes written for folder r leave something, or nothing, for its last file.
  ghost predicate Leaves(i: StreamsInfo, r: nat)
    requires i.unpackInfo.Some? && r < |Counts(i)|
  {
    Counts(i)[r] > 1 ==>
      && i.subStreamsInfo.Some? && |Counts(i)| == |i.unpackInfo.value.folder|
      && FrontAt(Counts(i), i.subStreamsInfo.value.size, i.unpackInfo.value.folder, r)
  }

  // In a well-formed streams section the sizes of a folder add up if and only if they do.
  lemma GoodAddsUp(i: StreamsInfo, r: nat)
    requires GoodStreamsInfo(i) && i.unpackInfo.Some? && r < |Counts(i)|
    ensures ListAddsUp(i, r) <==> Leaves(i, r)
  {
    hide GoodPackInfo, GoodUnpackInfo, UnpackSize, LastsFollow, Sum;
    if Counts(i)[r] > 1 && i.subStreamsInfo.Some? {
      var s, folders := i.subStreamsInfo.value, i.unpackInfo.value.folder;
      if s.size != [] {
        FollowAddsUp(s.streams, s.size, folders, r);
      }
    }
  }

  // So the parser's subtraction makes them add up.
  lemma ParsedAddsUp(t: seq<byte>, r: nat)
    requires GetStreamsInfo(t).Ok? && GetStreamsInfo(t).value.unpackInfo.Some? && r < |Counts(GetStreamsInfo(t).value)|
    ensures ListAddsUp(GetStreamsInfo(t).value, r) <==> Leaves(GetStreamsInfo(t).value, r)
  {
    hide GetStreamsInfo, GoodStreamsInfo, ListAddsUp, Leaves;
    ParsedGood(t);
    GoodAddsUp(GetStreamsInfo(t).value, r);
  }

  lemma ParsedAligned(t: seq<byte>)
    requires GetStreamsInfo(t).Ok? && GetStreamsInfo(t).value.unpackInfo.Some?
    ensures Aligned(GetStreamsInfo(t).value)
  {
    hide GetStreamsInfo, GetSubStreamsInfo, GetUnpackInfo, GetPackInfo, GetShares, Sum, GoodFolders;
    var i := GetStreamsInfo(t).value;
    var pack, unpack, sub := ParsedParts(t);
    ParsedUnpackInfo(unpack);
    if i.subStreamsInfo.Some? {
      var u := ParsedSubStreams(sub, i.unpackInfo.value.folder);
    }
  }

  // A folder that wires up has the size of its last coder.
  lemma WiredRootSize(f: Folder)
    requires GoodFolder(f) && FolderGraph.InRange(f) && FolderGraph.Distinct(f) && FolderGraph.NoFaults(f)
    ensures RootSize(f)
  {
    hide GoodCoders, GoodPairs, UnboundIns, UnpackSize, FolderGraph.InRange, FolderGraph.Distinct, FolderGraph.NoFaults;
    FolderGraph.RootIsLast(f);
  }

  // In a parsed archive, the files of a folder that has any take up its unpack size end to end if
  // and only if the sizes that were written for them fit.
  lemma ParsedTiled(s: seq<byte>, files: Files, i: StreamsInfo, r: nat)
    requires Parsed(s, files, i) && AllPlaced(i) && i.unpackInfo.Some?
    requires r < |Counts(i)| && Counts(i)[r] > 0
    ensures r < |i.unpackInfo.value.folder|
    ensures RootSize(i.unpackInfo.value.folder[r]) ==>
              (SizesBetween(i, First(Counts(i), r), First(Counts(i), r) + Counts(i)[r])
               == UnpackSize(i.unpackInfo.value.folder[r])
               <==> Leaves(i, r))
  {
    hide Parsed, GetStreamsInfo, AllPlaced, RootSize, UnpackSize, ListAddsUp, Leaves, Sum;
    var t := ParsedSection(s, files, i);
    ParsedAligned(t);
    ParsedAddsUp(t, r);
    if RootSize(i.unpackInfo.value.folder[r]) {
      FolderTiled(i, r);
    }
  }

  // Every folder of a parsed archive wires up and leaves room, every file with a stream has one
  // place, and no file is a stray.
  ghost predicate AddsUp(files: Files, i: StreamsInfo) {
    && i.unpackInfo.Some? && NoStray(files) && |files| - CountEmpty(files) == Sum(Counts(i)) < TWO64
    && (forall r :: 0 <= r < |i.unpackInfo.value.folder| ==> RootSize(i.unpackInfo.value.folder[r]))
    && (forall r :: 0 <= r < |Counts(i)| ==> Leaves(i, r))
  }

  // In a parsed archive whose sizes add up, a file with data is looked for behind all earlier files
  // of its folder, with its own size, inside the folder; and the last file of a folder ends where
  // the folder does.
  lemma ParsedArchive(s: seq<byte>, files: Files, i: StreamsInfo, k: nat)
    requires Parsed(s, files, i) && AddsUp(files, i) && k < |files| && HasData(files[k])
    ensures Sizes(files, i) && Aligned(i)
    ensures var j := CountData(files[..k]);
            && j < Sum(Counts(i)) && |Counts(i)| > 0 && FolderAt(i, j) < |i.unpackInfo.value.folder|
            && SpotIs(files, i, k, At(FolderAt(i, j), Offset(i, j)))
            && var r, end := FolderAt(i, j), Offset(i, j) + files[k].size;
               && end <= UnpackSize(i.unpackInfo.value.folder[r])
               && (j + 1 == First(Counts(i), r) + Counts(i)[r] ==> end == UnpackSize(i.unpackInfo.value.folder[r]))
  {
    hide Parsed, GetStreamsInfo, AllPlaced, RootSize, UnpackSize, ListAddsUp, Leaves, Sum, FileFolderAndSize,
      CountEmpty, CountData, FolderAt, Offset, First, Behind, PlaceFolder, NoStray, Aligned;
    var t := ParsedSection(s, files, i);
    ParsedAligned(t);
    ParsedAllPlaced(s, files, i);
    CountersDiffer(files);
    ParsedSizes(s, files, i);
    OffsetOfFile(files, i, k);
    AlignedIs(i);
    var j := CountData(files[..k]);
    ParsedAddsUp(t, FolderAt(i, j));
    FileInside(i, j);
  }

  lemma AlignedIs(i: StreamsInfo)
    requires i.unpackInfo.Some? && Aligned(i)
    ensures |Counts(i)| <= |i.unpackInfo.value.folder|
  {
  }
}
