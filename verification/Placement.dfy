/** Where the reader looks for each file: folder, offset in the folder, and where a folder starts. */
module Placement {
  import opened Basics
  import opened HeaderData
  import opened HeaderStreams
  import opened HeaderFiles
  import opened HeaderRoundTrip

  // --- files of a folder ---

  // How many files each folder holds; without the section there is one folder with one file.
  function Counts(i: StreamsInfo): seq<u64> {
    if i.subStreamsInfo.None? then [1] else i.subStreamsInfo.value.streams
  }

  // The number of the first file of folder r.
  function First(counts: seq<u64>, r: nat): nat
    requires r <= |counts|
  {
    Sum(counts[..r])
  }

  function FolderAt(i: StreamsInfo, j: nat): (r: nat)
    requires |Counts(i)| > 0
    ensures r < |Counts(i)|
  {
    FindFolder(Counts(i), j, 0, 0)
  }

  lemma FirstNext(counts: seq<u64>, r: nat)
    requires r < |counts|
    ensures First(counts, r + 1) == First(counts, r) + counts[r]
  {
    assert counts[..r + 1] == counts[..r] + [counts[r]];
    SumAppend(counts[..r], [counts[r]]);
    assert [counts[r]][1..] == [];
  }

  lemma {:induction false} FirstGrows(counts: seq<u64>, r: nat, q: nat)
    requires r < q <= |counts|
    ensures First(counts, r) + counts[r] <= First(counts, q)
    decreases q - r
  {
    FirstNext(counts, r);
    if r + 1 < q {
      FirstGrows(counts, r + 1, q);
      assert First(counts, r + 1) + counts[r + 1] >= First(counts, r + 1);
    }
  }

  // The folder found is the one whose files include j, and there is no other.
  lemma FolderAtIs(i: StreamsInfo, j: nat)
    requires j < Sum(Counts(i)) < TWO64
    ensures |Counts(i)| > 0
    ensures First(Counts(i), FolderAt(i, j)) <= j < First(Counts(i), FolderAt(i, j)) + Counts(i)[FolderAt(i, j)]
    ensures forall r :: 0 <= r < |Counts(i)| && First(Counts(i), r) <= j < First(Counts(i), r) + Counts(i)[r]
                        ==> r == FolderAt(i, j)
  {
    var counts := Counts(i);
    assert counts != [];
    assert counts[0..] == counts;
    FindFolderIs(counts, j, 0, 0);
    var f := FolderAt(i, j);
    assert counts[0..f] == counts[..f];
    forall r | 0 <= r < |counts| && First(counts, r) <= j < First(counts, r) + counts[r] ensures r == f {
      if r < f {
        FirstGrows(counts, r, f);
      } else if f < r {
        FirstGrows(counts, f, r);
      }
    }
  }

  // What is listed for file j of folder r: a file that is alone in its folder has the size that the folder
  // unpacks to, and the folder's checksum if there is one; any other has its own.
  lemma PlaceIs(i: StreamsInfo, j: nat, r: nat)
    requires Sum(Counts(i)) < TWO64 && r < |Counts(i)|
    requires First(Counts(i), r) <= j < First(Counts(i), r) + Counts(i)[r]
    requires FileFolderAndSize(i, j).Some?
    ensures var p, alone := FileFolderAndSize(i, j).value, Counts(i)[r] == 1;
            && p.folder == r
            && (alone ==>
                  i.unpackInfo.Some? && r < |i.unpackInfo.value.folder|
                  && var f := i.unpackInfo.value.folder[r];
                     0 < |f.coder| <= |f.size| && p.size == f.size[|f.coder| - 1])
            && (!alone ==>
                  i.subStreamsInfo.Some?
                  && var size := i.subStreamsInfo.value.size;
                     j < |size| && p.size == size[j])
            && p.crc == if alone && i.unpackInfo.value.digest != [] && r < |i.unpackInfo.value.digest| then
                          i.unpackInfo.value.digest[r]
                        else if i.subStreamsInfo.Some? && j < |i.subStreamsInfo.value.digest| then
                          i.subStreamsInfo.value.digest[j]
                        else 0
  {
    hide FindFolder;
    PartOfSum(Counts(i), r);
    FolderAtIs(i, j);
  }

  lemma PartOfSum(counts: seq<u64>, r: nat)
    requires r < |counts|
    ensures First(counts, r) + counts[r] <= Sum(counts)
  {
    if r + 1 < |counts| {
      FirstGrows(counts, r, |counts|);
    } else {
      FirstNext(counts, r);
    }
    assert counts[..|counts|] == counts;
  }

  // Without the section there is one file, which fills the first folder.
  lemma AloneWithout(i: StreamsInfo)
    requires i.subStreamsInfo.None? && FileFolderAndSize(i, 0).Some?
    ensures Sum(Counts(i)) == 1 && FolderAt(i, 0) == 0 && Offset(i, 0) == 0
    ensures FileFolderAndSize(i, 0).value.folder == 0
    ensures i.unpackInfo.Some? && i.unpackInfo.value.folder != []
    ensures var f := i.unpackInfo.value.folder[0];
            0 < |f.coder| <= |f.size| && FileFolderAndSize(i, 0).value.size == f.size[|f.coder| - 1]
  {
    var one: seq<u64> := [1];
    assert one[1..] == [] && Sum([]) == 0;
    assert Sum(one) == 1;
    assert Counts(i)[..0] == [];
    PlaceIs(i, 0, 0);
  }

  // --- offsets ---

  // Every file that the counts promise has a place.
  ghost predicate AllPlaced(i: StreamsInfo) {
    Sum(Counts(i)) < TWO64 && forall j :: 0 <= j < Sum(Counts(i)) ==> FileFolderAndSize(i, j).Some?
  }

  function FileSize(i: StreamsInfo, j: nat): nat {
    match FileFolderAndSize(i, j)
    case Some(p) => p.size
    case None => 0
  }

  // The sizes of files a up to b, added up.
  function SizesBetween(i: StreamsInfo, a: nat, b: nat): nat
    requires a <= b
    decreases b - a
  {
    if a == b then 0 else SizesBetween(i, a, b - 1) + FileSize(i, b - 1)
  }

  // The sizes of the files before j in the folder of j.
  function Offset(i: StreamsInfo, j: nat): nat
    requires j < Sum(Counts(i)) < TWO64
  {
    FolderAtIs(i, j);
    SizesBetween(i, First(Counts(i), FolderAt(i, j)), j)
  }

  // The next file follows in the same folder, or is the first of a later one.
  lemma OffsetStep(i: StreamsInfo, j: nat)
    requires j + 1 < Sum(Counts(i)) < TWO64
    ensures |Counts(i)| > 0 && FolderAt(i, j) <= FolderAt(i, j + 1)
    ensures Offset(i, j + 1) == if FolderAt(i, j + 1) == FolderAt(i, j) then Offset(i, j) + FileSize(i, j) else 0
  {
    FolderAtIs(i, j);
    FolderAtIs(i, j + 1);
    var counts, r, q := Counts(i), FolderAt(i, j), FolderAt(i, j + 1);
    if q < r {
      FirstGrows(counts, q, r);
    } else if r < q {
      FirstGrows(counts, r, q);
    }
  }

  lemma OffsetStart(i: StreamsInfo)
    requires 0 < Sum(Counts(i)) < TWO64
    ensures Offset(i, 0) == 0
  {
    FolderAtIs(i, 0);
  }

  // --- the placement loop of init ---

  datatype Spot = Nowhere | At(folder: nat, offset: nat)

  predicate HasData(f: FileHeader) {
    !f.isEmptyStream && !f.isEmptyFile
  }

  // How many files have data.
  function CountData(files: Files): nat {
    if files == [] then 0 else CountData(files[..|files| - 1]) + if HasData(files[|files| - 1]) then 1 else 0
  }

  lemma CountDataNext(files: Files, k: nat)
    requires k < |files|
    ensures CountData(files[..k + 1]) == CountData(files[..k]) + if HasData(files[k]) then 1 else 0
  {
    assert files[..k + 1][..k] == files[..k];
  }

  lemma {:induction false} CountDataGrows(files: Files, k: nat)
    requires k <= |files|
    ensures CountData(files[..k]) <= CountData(files)
    decreases |files| - k
  {
    if k < |files| {
      CountDataNext(files, k);
      CountDataGrows(files, k + 1);
    } else {
      assert files[..k] == files;
    }
  }

  // The folder of the j-th place.
  function PlaceFolder(i: StreamsInfo, j: nat): nat {
    match FileFolderAndSize(i, j)
    case Some(p) => p.folder
    case None => 0
  }

  // The sizes of the files with data before k, as far back as they are in that folder.
  function Behind(files: Files, i: StreamsInfo, k: nat, folder: nat): nat
    requires k <= |files|
  {
    if k == 0 then 0
    else if !HasData(files[k - 1]) then Behind(files, i, k - 1, folder)
    else if PlaceFolder(i, CountData(files[..k - 1])) == folder then Behind(files, i, k - 1, folder) + files[k - 1].size
    else 0
  }

  // The j-th file with data goes to the folder of the j-th place, behind what precedes it there.
  ghost predicate SpotIs(files: Files, i: StreamsInfo, k: nat, spot: Spot)
    requires k < |files|
  {
    if HasData(files[k]) then
      var r := PlaceFolder(i, CountData(files[..k]));
      spot == At(r, Behind(files, i, k, r))
    else spot == Nowhere
  }

  // The file has no data, or there is a place for it.
  ghost predicate Placeable(files: Files, i: StreamsInfo, k: nat)
    requires k < |files|
  {
    HasData(files[k]) ==> FileFolderAndSize(i, CountData(files[..k])).Some?
  }

  // After n files the loop is in this folder at this offset; nothing is behind in any other.
  ghost predicate LoopAt(files: Files, i: StreamsInfo, n: nat, folder: nat, offset: nat)
    requires n <= |files|
  {
    offset == Behind(files, i, n, folder) && forall g: nat :: g != folder ==> Behind(files, i, n, g) == 0
  }

  lemma LoopStart(files: Files, i: StreamsInfo)
    ensures LoopAt(files, i, 0, 0, 0)
  {
  }

  lemma LoopNext(files: Files, i: StreamsInfo, n: nat, folder: nat, offset: nat)
    requires n < |files| && LoopAt(files, i, n, folder, offset)
    ensures !HasData(files[n]) ==> LoopAt(files, i, n + 1, folder, offset) && SpotIs(files, i, n, Nowhere)
    ensures HasData(files[n]) ==>
              var f := PlaceFolder(i, CountData(files[..n]));
              var at := if f != folder then 0 else offset;
              LoopAt(files, i, n + 1, f, at + files[n].size) && SpotIs(files, i, n, At(f, at))
  {
    hide PlaceFolder, Behind;
    var m := n + 1;
    BehindStep(files, i, n, folder);
    var f := if HasData(files[n]) then PlaceFolder(i, CountData(files[..n])) else folder;
    BehindStep(files, i, n, f);
    forall g: nat | g != f ensures Behind(files, i, m, g) == 0 {
      BehindStep(files, i, n, g);
      assert g != folder ==> Behind(files, i, n, g) == 0;
    }
  }

  lemma BehindStep(files: Files, i: StreamsInfo, n: nat, g: nat)
    requires n < |files|
    ensures Behind(files, i, n + 1, g)
            == if !HasData(files[n]) then Behind(files, i, n, g)
               else if PlaceFolder(i, CountData(files[..n])) == g then Behind(files, i, n, g) + files[n].size else 0
  {
  }

  // The loop fails exactly when a file with data has no place.
  method PlaceFiles(files: Files, i: StreamsInfo) returns (res: Option<seq<Spot>>)
    ensures res.Some? <==> forall k :: 0 <= k < |files| ==> Placeable(files, i, k)
    ensures res.Some? ==> |res.value| == |files| && forall k :: 0 <= k < |files| ==> SpotIs(files, i, k, res.value[k])
  {
    hide FileFolderAndSize, LoopAt, SpotIs, Behind, CountData;
    var spots: seq<Spot> := [];
    var folder: nat, offset: nat, j: nat := 0, 0, 0;
    LoopStart(files, i);
    NoData();
    for n := 0 to |files|
      invariant |spots| == n && j == CountData(files[..n]) && LoopAt(files, i, n, folder, offset)
      invariant forall k :: 0 <= k < n ==> SpotIs(files, i, k, spots[k]) && Placeable(files, i, k)
    {
      CountDataNext(files, n);
      LoopNext(files, i, n, folder, offset);
      if HasData(files[n]) {
        var p := FileFolderAndSize(i, j);
        if p.None? {
          assert !Placeable(files, i, n);
          return None;
        }
        if p.value.folder != folder {
          offset := 0;
        }
        spots := spots + [At(p.value.folder, offset)];
        offset := offset + files[n].size;
        folder := p.value.folder;
        j := j + 1;
      } else {
        spots := spots + [Nowhere];
      }
    }
    return Some(spots);
  }

  lemma NoData()
    ensures CountData([]) == 0
  {
  }

  // --- when the files' sizes are those of their places ---

  // The files' sizes are those of their places, and there are places enough.
  ghost predicate Sizes(files: Files, i: StreamsInfo) {
    && AllPlaced(i)
    && CountData(files) <= Sum(Counts(i))
    && forall k :: 0 <= k < |files| && HasData(files[k]) ==> files[k].size == FileSize(i, CountData(files[..k]))
  }

  lemma PlaceFolderIs(i: StreamsInfo, j: nat)
    requires AllPlaced(i) && j < Sum(Counts(i))
    ensures |Counts(i)| > 0 && PlaceFolder(i, j) == FolderAt(i, j)
  {
    assert FileFolderAndSize(i, j).Some?;
  }

  lemma SizesBounded(files: Files, i: StreamsInfo)
    requires Sizes(files, i)
    ensures AllPlaced(i) && CountData(files) <= Sum(Counts(i)) < TWO64
  {
  }

  // Behind the last file with data of a prefix lie its own size and its offset.
  lemma {:induction false} BehindLast(files: Files, i: StreamsInfo, n: nat)
    requires Sizes(files, i) && n <= |files|
    ensures var c := CountData(files[..n]);
            && c <= Sum(Counts(i)) < TWO64
            && (c == 0 ==> forall g: nat :: Behind(files, i, n, g) == 0)
            && (c > 0 ==>
                  && |Counts(i)| > 0
                  && Behind(files, i, n, FolderAt(i, c - 1)) == Offset(i, c - 1) + FileSize(i, c - 1)
                  && forall g: nat :: g != FolderAt(i, c - 1) ==> Behind(files, i, n, g) == 0)
  {
    hide FileFolderAndSize, FolderAt, Offset, FileSize, Sum, PlaceFolder, CountData, Counts, AllPlaced;
    SizesBounded(files, i);
    CountDataGrows(files, n);
    if n > 0 {
      BehindLast(files, i, n - 1);
      CountDataNext(files, n - 1);
      if HasData(files[n - 1]) {
        var c := CountData(files[..n - 1]);
        PlaceFolderIs(i, c);
        OffsetNext(i, c);
      }
    } else {
      assert files[..0] == [];
      NoData();
    }
  }

  lemma OffsetNext(i: StreamsInfo, j: nat)
    requires j < Sum(Counts(i)) < TWO64
    ensures |Counts(i)| > 0
    ensures j == 0 ==> Offset(i, j) == 0
    ensures j > 0 ==>
              Offset(i, j) == if FolderAt(i, j) == FolderAt(i, j - 1) then Offset(i, j - 1) + FileSize(i, j - 1) else 0
  {
    FolderAtIs(i, j);
    if j == 0 {
      OffsetStart(i);
    } else {
      OffsetStep(i, j - 1);
    }
  }

  // Then the j-th file with data lies behind all earlier files of its folder.
  lemma OffsetOfFile(files: Files, i: StreamsInfo, k: nat)
    requires Sizes(files, i) && k < |files| && HasData(files[k])
    ensures var j := CountData(files[..k]);
            && j < Sum(Counts(i)) < TWO64 && |Counts(i)| > 0 && PlaceFolder(i, j) == FolderAt(i, j)
            && Behind(files, i, k, FolderAt(i, j)) == Offset(i, j)
  {
    hide FileFolderAndSize, FolderAt, Offset, FileSize, Sum, PlaceFolder, Behind, CountData, Counts, AllPlaced, Sizes;
    SizesBounded(files, i);
    CountDataNext(files, k);
    CountDataGrows(files, k + 1);
    BehindLast(files, i, k);
    PlaceFolderIs(i, CountData(files[..k]));
    OffsetNext(i, CountData(files[..k]));
  }

  // --- a folder's files fill it exactly ---

  // The size of the last coder is the size of the folder: so for every folder that wires up.
  ghost predicate RootSizes(u: UnpackInfo) {
    forall r :: 0 <= r < |u.folder| ==> RootSize(u.folder[r])
  }

  ghost predicate RootSize(f: Folder) {
    0 < |f.coder| <= |f.size| && f.size[|f.coder| - 1] == UnpackSize(f)
  }

  lemma {:induction false} SizesListed(i: StreamsInfo, size: seq<u64>, a: nat, b: nat)
    requires a <= b <= |size| && forall j :: a <= j < b ==> FileSize(i, j) == size[j]
    ensures SizesBetween(i, a, b) == Sum(size[a..b])
    decreases b - a
  {
    hide FileSize;
    if a < b {
      SizesListed(i, size, a, b - 1);
      assert size[a..b] == size[a..b - 1] + [size[b - 1]];
      SumAppend(size[a..b - 1], [size[b - 1]]);
      assert [size[b - 1]][1..] == [];
    } else {
      assert size[a..b] == [];
    }
  }

  // A count for each folder, or one folder at least and no counts.
  ghost predicate Aligned(i: StreamsInfo)
    requires i.unpackInfo.Some?
  {
    if i.subStreamsInfo.Some? then |Counts(i)| == |i.unpackInfo.value.folder| else 0 < |i.unpackInfo.value.folder|
  }

  // The sizes listed for the files of folder r add up to its unpack size; a single file has none.
  ghost predicate ListAddsUp(i: StreamsInfo, r: nat)
    requires i.unpackInfo.Some? && r < |Counts(i)|
  {
    Counts(i)[r] > 1 ==>
      && i.subStreamsInfo.Some? && |Counts(i)| == |i.unpackInfo.value.folder|
      && PartAddsUp(Counts(i), i.subStreamsInfo.value.size, i.unpackInfo.value.folder, r)
  }

  // The files of a folder that has any, end to end, take up its unpack size, if and only if the
  // sizes listed for them add up to it.
  lemma FolderTiled(i: StreamsInfo, r: nat)
    requires i.unpackInfo.Some? && AllPlaced(i)
    requires Aligned(i) && r < |Counts(i)| && Counts(i)[r] > 0 && RootSize(i.unpackInfo.value.folder[r])
    ensures SizesBetween(i, First(Counts(i), r), First(Counts(i), r) + Counts(i)[r])
            == UnpackSize(i.unpackInfo.value.folder[r])
            <==> ListAddsUp(i, r)
  {
    hide UnpackSize;
    var counts, a := Counts(i), First(Counts(i), r);
    FirstWithin(counts, r);
    FolderOfFile(i, a, r);
    if counts[r] == 1 {
      assert SizesBetween(i, a, a + 1) == SizesBetween(i, a, a) + FileSize(i, a);
    } else {
      ManyTiled(i, r);
    }
  }

  lemma ManyTiled(i: StreamsInfo, r: nat)
    requires i.unpackInfo.Some? && AllPlaced(i) && Aligned(i) && r < |Counts(i)| && Counts(i)[r] > 1
    ensures i.subStreamsInfo.Some?
    ensures var a, size := First(Counts(i), r), i.subStreamsInfo.value.size;
            a + Counts(i)[r] <= |size| && SizesBetween(i, a, a + Counts(i)[r]) == Sum(size[a..a + Counts(i)[r]])
  {
    hide FileFolderAndSize, AllPlaced, Sum, FolderAt, FileSize;
    var a, n, size := First(Counts(i), r), Counts(i)[r], i.subStreamsInfo.value.size;
    forall j | a <= j < a + n ensures j < |size| && FileSize(i, j) == size[j] {
      ListedSize(i, j, r);
    }
    ListedSize(i, a + n - 1, r);
    SizesListed(i, size, a, a + n);
  }

  lemma ListedSize(i: StreamsInfo, j: nat, r: nat)
    requires AllPlaced(i) && r < |Counts(i)| && First(Counts(i), r) <= j < First(Counts(i), r) + Counts(i)[r]
              && Counts(i)[r] > 1
    ensures i.subStreamsInfo.Some? && j < |i.subStreamsInfo.value.size|
            && FileSize(i, j) == i.subStreamsInfo.value.size[j]
  {
    hide AllPlaced, Sum, FolderAt;
    FolderOfFile(i, j, r);
  }

  lemma FirstWithin(counts: seq<u64>, r: nat)
    requires r < |counts|
    ensures First(counts, r) + counts[r] <= Sum(counts)
  {
    FirstGrows(counts, r, |counts|);
    assert counts[..|counts|] == counts;
  }

  // The place of file j of folder r.
  lemma FolderOfFile(i: StreamsInfo, j: nat, r: nat)
    requires AllPlaced(i) && r < |Counts(i)| && First(Counts(i), r) <= j < First(Counts(i), r) + Counts(i)[r]
    ensures j < Sum(Counts(i)) && FolderAt(i, j) == r
    ensures Counts(i)[r] == 1 ==> FileFolderAndSize(i, j) == FolderPlace(i, r, FileCRC(i, j))
    ensures Counts(i)[r] > 1 ==>
              && i.subStreamsInfo.Some? && j < |i.subStreamsInfo.value.size|
              && FileFolderAndSize(i, j) == Some(Place(r, i.subStreamsInfo.value.size[j], FileCRC(i, j)))
  {
    hide FolderPlace;
    FirstWithin(Counts(i), r);
    FolderAtIs(i, j);
    assert FileFolderAndSize(i, j).Some?;
  }

  // The checksum listed for a file, or zero.
  function FileCRC(i: StreamsInfo, j: nat): u32 {
    if i.subStreamsInfo.Some? && j < |i.subStreamsInfo.value.digest| then i.subStreamsInfo.value.digest[j] else 0
  }

  // Then every file lies inside its folder, and the last one ends where the folder does.
  lemma FileInside(i: StreamsInfo, j: nat)
    requires i.unpackInfo.Some? && AllPlaced(i) && Aligned(i) && j < Sum(Counts(i)) && |Counts(i)| > 0
    requires RootSize(i.unpackInfo.value.folder[FolderAt(i, j)]) && ListAddsUp(i, FolderAt(i, j))
    ensures var r := FolderAt(i, j);
            var end := Offset(i, j) + FileSize(i, j);
            var size := UnpackSize(i.unpackInfo.value.folder[r]);
            && end <= size
            && (j + 1 == First(Counts(i), r) + Counts(i)[r] ==> end == size)
  {
    hide FileFolderAndSize, UnpackSize, RootSize, AllPlaced, ListAddsUp;
    PlacedFew(i);
    FolderAtIs(i, j);
    var r := FolderAt(i, j);
    var a := First(Counts(i), r);
    FolderTiled(i, r);
    SizesSplit(i, a, j + 1, a + Counts(i)[r]);
  }

  lemma PlacedFew(i: StreamsInfo)
    requires AllPlaced(i)
    ensures Sum(Counts(i)) < TWO64
  {
  }

  lemma {:induction false} SizesSplit(i: StreamsInfo, a: nat, b: nat, c: nat)
    requires a <= b <= c
    ensures SizesBetween(i, a, c) == SizesBetween(i, a, b) + SizesBetween(i, b, c)
    decreases c - b
  {
    if b < c {
      SizesSplit(i, a, b, c - 1);
    }
  }

  // --- where a folder's packed bytes start ---

  // The number of the first packed stream of a folder.
  function FirstPacked(folders: seq<Folder>, r: nat): nat
    requires r <= |folders|
  {
    if r == 0 then 0 else FirstPacked(folders, r - 1) + folders[r - 1].packedStreams
  }

  lemma {:induction false} FirstPackedGrows(folders: seq<Folder>, r: nat, q: nat)
    requires r <= q <= |folders|
    ensures FirstPacked(folders, r) <= FirstPacked(folders, q)
  {
    if r < q {
      FirstPackedGrows(folders, r, q - 1);
    }
  }

  // folderOffset: everything packed before the folder's first stream.
  method FolderOffset(p: PackInfo, folders: seq<Folder>, folder: nat) returns (offset: nat)
    requires folder <= |folders| && FirstPacked(folders, folder) <= |p.size|
    ensures offset == p.position + Sum(p.size[..FirstPacked(folders, folder)])
  {
    offset := 0;
    var k := 0;
    for i := 0 to folder
      invariant k == FirstPacked(folders, i) <= |p.size| && offset == Sum(p.size[..k])
    {
      FirstPackedGrows(folders, i + 1, folder);
      for j := k to k + folders[i].packedStreams
        invariant offset == Sum(p.size[..j])
      {
        assert p.size[..j + 1] == p.size[..j] + [p.size[j]];
        SumAppend(p.size[..j], [p.size[j]]);
        assert [p.size[j]][1..] == [];
        offset := offset + p.size[j];
      }
      k := k + folders[i].packedStreams;
    }
    offset := p.position + offset;
  }

  // A part of the archive, from its start.
  datatype Section = Section(start: nat, size: nat)

  // The number of packed streams that folders before r list.
  function ListedBefore(folders: seq<Folder>, r: nat): nat
    requires r <= |folders|
  {
    if r == 0 then 0 else ListedBefore(folders, r - 1) + |folders[r - 1].packed|
  }

  // The packed streams of folder r as folderReader finds them: by the streams listed for earlier
  // folders for their sizes, and from the folder's offset on for their places. None is an index
  // out of range.
  method PackedSections(p: PackInfo, folders: seq<Folder>, r: nat) returns (res: Option<seq<Section>>)
    requires r < |folders|
    ensures res.Some? <==> folders[r].packed == []
                           || (FirstPacked(folders, r) <= |p.size|
                              && ListedBefore(folders, r) + |folders[r].packed| <= |p.size|)
    ensures res.Some? ==> |res.value| == |folders[r].packed|
    ensures res.Some? ==> forall i :: 0 <= i < |res.value| ==>
              var m := ListedBefore(folders, r);
              res.value[i] == Section(p.position + Sum(p.size[..FirstPacked(folders, r)]) + Sum(p.size[m..m + i]),
                p.size[m + i])
  {
    hide Sum;
    var packedOffset := 0;
    for i := 0 to r
      invariant packedOffset == ListedBefore(folders, i)
    {
      packedOffset := packedOffset + |folders[i].packed|;
    }
    if |folders[r].packed| == 0 {
      return Some([]);
    }
    if packedOffset + |folders[r].packed| > |p.size| || FirstPacked(folders, r) > |p.size| {
      return None;
    }
    var start := FolderOffset(p, folders, r);
    var offset: nat := 0;
    var sections: seq<Section> := [];
    SumNone();
    assert p.size[packedOffset..packedOffset] == [];
    for i := 0 to |folders[r].packed|
      invariant |sections| == i && offset == Sum(p.size[packedOffset..packedOffset + i])
      invariant forall k :: 0 <= k < i ==>
                  sections[k] == Section(start + Sum(p.size[packedOffset..packedOffset + k]), p.size[packedOffset + k])
    {
      var size := p.size[packedOffset + i];
      sections := sections + [Section(start + offset, size)];
      SumSlice(p.size, packedOffset, packedOffset + i);
      offset := offset + size;
    }
    return Some(sections);
  }

  lemma SumNone()
    ensures Sum([]) == 0
  {
  }

  lemma SumSlice(size: seq<u64>, a: nat, b: nat)
    requires a <= b < |size|
    ensures Sum(size[a..b + 1]) == Sum(size[a..b]) + size[b]
  {
    assert size[a..b + 1] == size[a..b] + [size[b]];
    SumAppend(size[a..b], [size[b]]);
    assert [size[b]][1..] == [];
  }

  lemma {:induction false} ListedAll(folders: seq<Folder>, r: nat)
    requires r <= |folders| && forall k :: 0 <= k < r ==> |folders[k].packed| == folders[k].packedStreams
    ensures ListedBefore(folders, r) == FirstPacked(folders, r)
  {
    if r > 0 {
      ListedAll(folders, r - 1);
    }
  }

  // When earlier folders list as many streams as they have, the sections lie end to end, the first
  // where the folder starts.
  lemma SectionsMeet(p: PackInfo, folders: seq<Folder>, r: nat, i: nat)
    requires r < |folders| && forall k :: 0 <= k < r ==> |folders[k].packed| == folders[k].packedStreams
    requires ListedBefore(folders, r) + i <= |p.size|
    ensures var m := ListedBefore(folders, r);
            m == FirstPacked(folders, r) && Sum(p.size[..m]) + Sum(p.size[m..m + i]) == Sum(p.size[..m + i])
  {
    ListedAll(folders, r);
    var m := ListedBefore(folders, r);
    assert p.size[..m + i] == p.size[..m] + p.size[m..m + i];
    SumAppend(p.size[..m], p.size[m..m + i]);
  }
}
