/** What was written to a file is what the reader finds for it. */
module EndToEnd {
  import opened Basics
  import opened HeaderData
  import opened HeaderNumbers
  import opened HeaderStreams
  import opened HeaderFiles
  import opened HeaderRoundTrip
  import opened Placement
  import opened ParsedPlacement
  import opened ArchiveState
  import opened ArchiveWriter
  import opened ArchiveHeader
  import opened HeaderWriter
  import opened HeaderReader
  import opened HeaderFilesReader
  import opened FolderDecoding

  // A finished archive whose numbers and names the format can hold, with data in it.
  ghost predicate Finished(solid: bool, files: Entries, folders: Folds) {
    Consistent(solid, files, folders) && Fits(files, folders) && AllClosed(files, folders) && |folders| > 0
  }

  // --- places of the header as built ---

  // The j-th file with data is in the folder it was written to, with its size and checksum.
  lemma PlaceOf(solid: bool, crc: Checksum, files: Entries, folders: Folds, j: nat)
    requires Finished(solid, files, folders) && j < |Listed(folders)|
    ensures Indexed(files, folders) && |Listed(folders)| == Sum(FileCounts(folders)) < TWO64
    ensures var i := StreamsOf(crc, files, folders);
            var k := Listed(folders)[j];
            var r := FolderAt(i, j);
            && k < |files| && files[k].fold == Some(r) && r < |folders|
            && First(FileCounts(folders), r) <= j < First(FileCounts(folders), r) + |folders[r].files|
            && folders[r].files[j - First(FileCounts(folders), r)] == k
            && FileFolderAndSize(i, j) == Some(Place(r, SizeOf(files[k]), crc(files[k].written)))
  {
    hide Consistent, Fits, Listed, Sum, GoodFolder, FolderOf, First, Flat, FlatWritten, Listing, AllClosed;
    ConsistentIndexed(solid, files, folders);
    FitsCount(files, folders);
    CountsSmall(solid, files, folders);
    var i := StreamsOf(crc, files, folders);
    FolderAtIs(i, j);
    var r := FolderAt(i, j);
    ListedSlice(folders, r);
    var a := First(FileCounts(folders), r);
    var d := folders[r];
    assert Listed(folders)[a..a + |d.files|][j - a] == d.files[j - a];
    FolderFacts(solid, files, folders, r);
    FileOfFolder(solid, files, folders, r, j - a);
    if |d.files| == 1 {
      OneFile(files, d);
    }
    ListingAt(crc, files, Listed(folders), j);
  }

  lemma FileOfFolder(solid: bool, files: Entries, folders: Folds, r: nat, n: nat)
    requires Consistent(solid, files, folders) && AllClosed(files, folders) && r < |folders| && n < |folders[r].files|
    ensures folders[r].files[n] < |files| && files[folders[r].files[n]].fold == Some(r)
    ensures !files[folders[r].files[n]].open
  {
    hide Flat, FlatWritten, Lossless, Emitted, Listed, DataFiles;
    assert FoldOk(files, folders, r);
  }

  lemma OneFile(files: Entries, d: Fold)
    requires Among(d.files, |files|) && |d.files| == 1
    ensures Sum(Listing(files, d.files)) == SizeOf(files[d.files[0]])
  {
    assert Listing(files, d.files) == [SizeOf(files[d.files[0]])];
    SumOne(SizeOf(files[d.files[0]]));
  }

  lemma ListingAt(crc: Checksum, files: Entries, list: seq<nat>, j: nat)
    requires Among(list, |files|) && j < |list|
    ensures Listing(files, list)[j] == SizeOf(files[list[j]])
            && Digests(crc, files, list)[j] == DigestOf(crc, files[list[j]])
  {
  }

  lemma BuiltPlaced(solid: bool, crc: Checksum, files: Entries, folders: Folds)
    requires Finished(solid, files, folders)
    ensures Indexed(files, folders) && AllPlaced(StreamsOf(crc, files, folders))
    ensures Sum(FileCounts(folders)) == |Listed(folders)| < TWO64
  {
    hide Consistent, Fits, Listed, Sum, AllClosed, FileFolderAndSize;
    ConsistentIndexed(solid, files, folders);
    FitsCount(files, folders);
    CountsSmall(solid, files, folders);
    forall j | 0 <= j < Sum(FileCounts(folders)) ensures FileFolderAndSize(StreamsOf(crc, files, folders), j).Some? {
      PlaceOf(solid, crc, files, folders, j);
    }
  }

  // --- offsets and contents ---

  lemma {:induction false} FlatSlice(files: Entries, list: seq<nat>, n: nat)
    requires Among(list, |files|) && n < |list|
    ensures Among(list[..n], |files|)
    ensures var start := |FlatWritten(files, list[..n])|;
            var data := files[list[n]].written;
            && start + |data| <= |FlatWritten(files, list)|
            && FlatWritten(files, list)[start..start + |data|] == data
  {
    var last := |list| - 1;
    if n < last {
      assert list[..last][..n] == list[..n];
      FlatSlice(files, list[..last], n);
      var start, data := |FlatWritten(files, list[..n])|, files[list[n]].written;
      PartOfFront(FlatWritten(files, list[..last]), files[list[last]].written, start, start + |data|);
    }
  }

  lemma FileSizeIs(solid: bool, crc: Checksum, files: Entries, folders: Folds, m: nat)
    requires Finished(solid, files, folders) && m < |Listed(folders)|
    ensures Indexed(files, folders) && FileSize(StreamsOf(crc, files, folders), m) == Listing(files, Listed(folders))[m]
  {
    hide Finished, Listed, Sum, First, FileFolderAndSize, Consistent, StreamsOf;
    PlaceOf(solid, crc, files, folders, m);
  }

  // The sizes of the files that come before a file in its folder.
  lemma SizesOfFront(solid: bool, crc: Checksum, files: Entries, folders: Folds, j: nat)
    requires Finished(solid, files, folders) && j < |Listed(folders)|
    ensures Indexed(files, folders) && Sum(FileCounts(folders)) == |Listed(folders)| < TWO64
    ensures var i := StreamsOf(crc, files, folders);
            var r := FolderAt(i, j);
            var a := First(FileCounts(folders), r);
            && r < |folders| && a <= j < a + |folders[r].files|
            && Among(folders[r].files[..j - a], |files|)
            && SizesBetween(i, a, j) == Sum(Listing(files, folders[r].files[..j - a]))
  {
    hide Fits, Listed, Sum, FolderOf, First, Flat, FlatWritten, AllClosed, FileFolderAndSize, Finished, DataFiles,
      Emitted, Consistent, AddUp, RootSize, UnpackSize, FileSize, FolderAt, SizesBetween;
    PlaceOf(solid, crc, files, folders, j);
    var i := StreamsOf(crc, files, folders);
    var r := FolderAt(i, j);
    var a, d := First(FileCounts(folders), r), folders[r];
    var front := d.files[..j - a];
    var size := Listing(files, Listed(folders));
    FinishedParts(solid, files, folders);
    ListedSlice(folders, r);
    forall m | a <= m < j ensures FileSize(i, m) == size[m] && Listed(folders)[m] == front[m - a] {
      FileSizeIs(solid, crc, files, folders, m);
      assert Listed(folders)[a..a + |d.files|][m - a] == d.files[m - a];
    }
    SizesListed(i, size, a, j);
    assert size[a..j] == Listing(files, front);
  }

  // The offset of a file is the number of bytes written before it to its folder.
  lemma OffsetIs(solid: bool, crc: Checksum, files: Entries, folders: Folds, j: nat)
    requires Finished(solid, files, folders) && j < |Listed(folders)|
    ensures Indexed(files, folders) && Sum(FileCounts(folders)) == |Listed(folders)| < TWO64
    ensures var i := StreamsOf(crc, files, folders);
            var r := FolderAt(i, j);
            && r < |folders| && First(FileCounts(folders), r) <= j < First(FileCounts(folders), r) + |folders[r].files|
            && Offset(i, j) == |FlatWritten(files, folders[r].files[..j - First(FileCounts(folders), r)])|
  {
    hide Fits, Listed, Sum, FolderOf, First, Flat, FlatWritten, AllClosed, FileFolderAndSize, Finished, DataFiles,
      Emitted, Consistent, AddUp, RootSize, UnpackSize, Listing;
    SizesOfFront(solid, crc, files, folders, j);
    FinishedParts(solid, files, folders);
    var i := StreamsOf(crc, files, folders);
    var r := FolderAt(i, j);
    var n := j - First(FileCounts(folders), r);
    var front := folders[r].files[..n];
    FolderFacts(solid, files, folders, r);
    FlatSlice(files, folders[r].files, n);
    forall m | 0 <= m < |front| ensures !files[front[m]].open {
      FileOfFolder(solid, files, folders, r, m);
    }
    WrittenSum(files, front);
    OffsetUnfolds(i, j);
  }

  lemma OffsetUnfolds(i: StreamsInfo, j: nat)
    requires j < Sum(Counts(i)) < TWO64
    ensures |Counts(i)| > 0 && First(Counts(i), FolderAt(i, j)) <= j
    ensures Offset(i, j) == SizesBetween(i, First(Counts(i), FolderAt(i, j)), j)
  {
    FolderAtIs(i, j);
  }

  lemma FinishedParts(solid: bool, files: Entries, folders: Folds)
    requires Finished(solid, files, folders)
    ensures Consistent(solid, files, folders) && Fits(files, folders) && AllClosed(files, folders) && |folders| > 0
  {
  }

  // The bytes of the folder, from the file's offset on, are what was written to the file.
  lemma ContentIs(solid: bool, crc: Checksum, files: Entries, folders: Folds, j: nat)
    requires Finished(solid, files, folders) && j < |Listed(folders)|
    ensures Indexed(files, folders) && Sum(FileCounts(folders)) == |Listed(folders)| < TWO64
    ensures Listed(folders)[j] < |files|
    ensures var i := StreamsOf(crc, files, folders);
            var data := files[Listed(folders)[j]].written;
            var r, start := FolderAt(i, j), Offset(i, j);
            && r < |folders| && |data| < TWO64 && files[Listed(folders)[j]].fold == Some(r)
            && FileFolderAndSize(i, j) == Some(Place(r, |data|, crc(data)))
            && start + |data| <= |Flat(folders[r].chunks)|
            && Flat(folders[r].chunks)[start..start + |data|] == data
  {
    hide Consistent, Fits, Listed, Sum, GoodFolder, FolderOf, First, Flat, FlatWritten, AllClosed, FileFolderAndSize,
      Finished, Offset;
    PlaceOf(solid, crc, files, folders, j);
    OffsetIs(solid, crc, files, folders, j);
    FinishedParts(solid, files, folders);
    var r := FolderAt(StreamsOf(crc, files, folders), j);
    var n := j - First(FileCounts(folders), r);
    FolderFacts(solid, files, folders, r);
    FlatSlice(files, folders[r].files, n);
    FileOfFolder(solid, files, folders, r, n);
    SmallRemainder(|files[Listed(folders)[j]].written|, TWO64);
  }

  // --- the header that is printed ---

  // A file has a folder exactly when its header says it has data.
  ghost predicate Marked(files: Entries, headers: Files) {
    |files| == |headers| && forall k :: 0 <= k < |files| ==>
      (files[k].fold.None? <==> headers[k].isEmptyStream) && !headers[k].isEmptyFile
  }

  // The two ways of counting the files with data agree.
  lemma {:induction false} DataCounted(files: Entries, headers: Files)
    requires Marked(files, headers)
    ensures |DataFiles(files)| == |files| - CountEmpty(headers) == CountData(headers)
  {
    if files != [] {
      var n := |files| - 1;
      DataCounted(files[..n], headers[..n]);
      CountEmptyMore(headers[..n], headers[n]);
      assert headers == headers[..n] + [headers[n]];
    }
  }

  // The k-th file is as many places into the files with data as files with data precede it.
  lemma {:induction false} DataFileAt(files: Entries, k: nat)
    requires k < |files| && files[k].fold.Some?
    ensures |DataFiles(files[..k])| < |DataFiles(files)| && DataFiles(files)[|DataFiles(files[..k])|] == k
  {
    var n := |files| - 1;
    if k < n {
      assert files[..n][..k] == files[..k];
      DataFileAt(files[..n], k);
    }
  }

  lemma HeadersMarked(solid: bool, crc: Checksum, files: Entries, folders: Folds)
    requires Consistent(solid, files, folders)
    ensures Marked(files, FilesOf(crc, files)) && Marked(files, Partials(FilesOf(crc, files), 7))
  {
    hide Flat, FlatWritten, Lossless, Emitted, Listed, DataFiles;
    forall k | 0 <= k < |files|
      ensures (files[k].fold.None? <==> files[k].fh.isEmptyStream) && !files[k].fh.isEmptyFile {
      assert EntryOk(files, folders, k);
    }
  }

  // The header of a finished archive can be printed and read back.
  lemma HeaderGood(solid: bool, crc: Checksum, files: Entries, folders: Folds)
    requires Finished(solid, files, folders)
    ensures Indexed(files, folders) && GoodHeader(HeaderOf(crc, files, folders))
  {
    hide Consistent, Listed, DataFiles, Sum, AllClosed, FileFolderAndSize, GoodStreamsInfo, PutNames, GoodName,
      StreamsOf;
    StreamsGood(solid, crc, files, folders);
    BuiltPlaced(solid, crc, files, folders);
    HeadersMarked(solid, crc, files, folders);
    var h := FilesOf(crc, files);
    assert Names(h) == Names(Plain(files));
    assert GoodFiles(h);
    DataCounted(files, h);
    ListedAll(solid, files, folders);
    PlacedFiles(crc, files, folders);
  }

  lemma ListedAll(solid: bool, files: Entries, folders: Folds)
    requires Consistent(solid, files, folders)
    ensures Listed(folders) == DataFiles(files)
  {
  }

  lemma PlacedFiles(crc: Checksum, files: Entries, folders: Folds)
    requires Indexed(files, folders) && AllPlaced(StreamsOf(crc, files, folders))
    requires Sum(FileCounts(folders)) == |files| - CountEmpty(FilesOf(crc, files))
    ensures Placed(FilesOf(crc, files), StreamsOf(crc, files, folders))
  {
    hide FileFolderAndSize, Sum;
  }

  // --- the header that is read ---

  // Streams with the same places have the same offsets.
  lemma {:induction false} SizesBetweenSame(a: StreamsInfo, b: StreamsInfo, m: nat, n: nat)
    requires m <= n && forall j :: m <= j < n ==> FileFolderAndSize(a, j) == FileFolderAndSize(b, j)
    ensures SizesBetween(a, m, n) == SizesBetween(b, m, n)
    decreases n - m
  {
    hide FileFolderAndSize;
    if m < n {
      SizesBetweenSame(a, b, m, n - 1);
    }
  }

  // Leaving out sizes that are implied moves no file.
  lemma NormalOffset(i: StreamsInfo, j: nat)
    requires GoodStreamsInfo(i) && AllPlaced(i) && j < Sum(Counts(i))
    ensures Counts(NormalStreams(i)) == Counts(i) && FileFolderAndSize(NormalStreams(i), j) == FileFolderAndSize(i, j)
    ensures Sum(Counts(i)) < TWO64 && Offset(NormalStreams(i), j) == Offset(i, j)
  {
    hide FileFolderAndSize, GoodStreamsInfo, Sum;
    OffsetUnfolds(i, j);
    OffsetUnfolds(NormalStreams(i), j);
    forall m | 0 <= m <= j ensures FileFolderAndSize(NormalStreams(i), m) == FileFolderAndSize(i, m) {
      assert FileFolderAndSize(i, m).Some?;
      NormalKeepsPlaces(i, m);
    }
    SizesBetweenSame(NormalStreams(i), i, First(Counts(i), FolderAt(i, j)), j);
  }

  lemma NormalPlaced(i: StreamsInfo)
    requires GoodStreamsInfo(i) && AllPlaced(i)
    ensures Counts(NormalStreams(i)) == Counts(i) && AllPlaced(NormalStreams(i))
  {
    hide FileFolderAndSize, GoodStreamsInfo, Sum;
    forall j | 0 <= j < Sum(Counts(i)) ensures FileFolderAndSize(NormalStreams(i), j).Some? {
      NormalOffset(i, j);
    }
  }

  // What the reader has to work with: a streams section with the places of the one that was
  // built, and files whose sizes are those of their places and whose own headers are those they
  // were added with.
  lemma HeaderRead(solid: bool, crc: Checksum, files: Entries, folders: Folds)
    requires Finished(solid, files, folders)
    ensures Indexed(files, folders) && GoodHeader(HeaderOf(crc, files, folders))
    ensures var n := NormalHeader(HeaderOf(crc, files, folders));
            && n.streamsInfo == Some(NormalStreams(StreamsOf(crc, files, folders))) && n.filesInfo.Some?
            && Marked(files, n.filesInfo.value) && AllSame(n.filesInfo.value, files)
            && Sizes(n.filesInfo.value, n.streamsInfo.value) && Checksums(n.filesInfo.value, n.streamsInfo.value)
  {
    hide Consistent, Fits, Listed, DataFiles, Sum, AllClosed, FileFolderAndSize, GoodStreamsInfo, StreamsOf, FilesOf,
      NormalStreams, Fill, AllPlaced, Placed, GoodFiles, Partials, GetHeader, PutHeader, FilledIn, Sizes, Checksums,
      GoodHeader, PrintableHeader;
    HeaderGood(solid, crc, files, folders);
    HeadersMarked(solid, crc, files, folders);
    BuiltPlaced(solid, crc, files, folders);
    StreamsGood(solid, crc, files, folders);
    ListedAll(solid, files, folders);
    FitsCount(files, folders);
    BuiltCounts(crc, files, folders);
    var i, f, h := StreamsOf(crc, files, folders), FilesOf(crc, files), HeaderOf(crc, files, folders);
    NormalPlaced(i);
    FillPlaced(f, i, h);
    FillFills(Partials(f, 7), i);
    var out := Fill(Partials(f, 7), i, 0).value;
    GoodHeaderIsPrintable(h);
    HeaderRoundTrip.HeaderRoundTrip(h, []);
    ParsedFilled(PutHeader(h) + [], out, NormalStreams(i));
    DataCounted(files, out);
    FilledSizes(out, NormalStreams(i));
    forall k | 0 <= k < |files| ensures SameFile(out[k], files[k].fh) {
      BuiltSame(crc, files, k);
    }
  }

  // Every file has the name, times, attributes and flags that it was added with.
  ghost predicate AllSame(headers: Files, files: Entries) {
    |headers| == |files| && forall k :: 0 <= k < |files| ==> SameFile(headers[k], files[k].fh)
  }

  lemma BuiltSame(crc: Checksum, files: Entries, k: nat)
    requires k < |files|
    ensures SameFile(Partials(FilesOf(crc, files), 7)[k], files[k].fh)
  {
  }

  lemma FillPlaced(f: Files, i: StreamsInfo, h: Header)
    requires GoodHeader(h) && h == Header(Some(i), Some(f))
    ensures GoodStreamsInfo(i) && Fill(Partials(f, 7), i, 0).Some?
  {
    hide FileFolderAndSize, GoodStreamsInfo;
    CountEmptyPartials(f, 7);
    FillKept(Partials(f, 7), i, 0);
  }

  lemma BuiltCounts(crc: Checksum, files: Entries, folders: Folds)
    requires Indexed(files, folders)
    ensures Counts(StreamsOf(crc, files, folders)) == FileCounts(folders)
  {
  }

  // --- reading a file back ---

  lemma {:induction false} OnePackedEach(files: Entries, folders: Folds, r: nat)
    requires Indexed(files, folders) && r <= |folders|
    ensures FirstPacked(FoldersOf(files, folders), r) == r
  {
    if r > 0 {
      OnePackedEach(files, folders, r - 1);
    }
  }

  lemma {:induction false} OneListedEach(files: Entries, folders: Folds, r: nat)
    requires Indexed(files, folders) && r <= |folders|
    ensures ListedBefore(FoldersOf(files, folders), r) == r
  {
    if r > 0 {
      OneListedEach(files, folders, r - 1);
    }
  }

  lemma {:induction false} PackedStart(folders: Folds, r: nat)
    requires r <= |folders| && forall f :: 0 <= f < |folders| ==> |folders[f].emitted| < TWO64
    ensures Sum(PackSizes(folders)[..r]) == |Joined(folders[..r])|
    ensures r < |folders| ==> |Joined(folders[..r])| + |folders[r].emitted| <= |Joined(folders)|
    ensures r < |folders| ==>
            Joined(folders)[|Joined(folders[..r])|..|Joined(folders[..r])| + |folders[r].emitted|] == folders[r].emitted
  {
    PackedSum(folders, r);
    if r < |folders| {
      JoinedSlice(folders, r);
    }
  }

  lemma {:induction false} PackedSum(folders: Folds, r: nat)
    requires r <= |folders| && forall f :: 0 <= f < |folders| ==> |folders[f].emitted| < TWO64
    ensures Sum(PackSizes(folders)[..r]) == |Joined(folders[..r])|
  {
    if r > 0 {
      PackedSum(folders, r - 1);
      var size := PackSizes(folders);
      SmallRemainder(|folders[r - 1].emitted|, TWO64);
      assert size[..r] == size[..r - 1] + [size[r - 1]];
      SumAppend(size[..r - 1], [size[r - 1]]);
      SumOne(size[r - 1]);
      assert folders[..r][..r - 1] == folders[..r - 1];
    } else {
      assert PackSizes(folders)[..0] == [];
    }
  }

  lemma {:induction false} JoinedSlice(folders: Folds, r: nat)
    requires r < |folders|
    ensures |Joined(folders[..r])| + |folders[r].emitted| <= |Joined(folders)|
    ensures Joined(folders)[|Joined(folders[..r])|..|Joined(folders[..r])| + |folders[r].emitted|] == folders[r].emitted
  {
    var last := |folders| - 1;
    if r < last {
      JoinedSlice(folders[..last], r);
      assert folders[..last][..r] == folders[..r];
      var a, b := |Joined(folders[..r])|, |Joined(folders[..r])| + |folders[r].emitted|;
      PartOfFront(Joined(folders[..last]), folders[last].emitted, a, b);
    }
  }

  // Once the writer and every file writer are closed the archive is finished.
  lemma ClosedIsFinished(w: Writer)
    requires w.Valid() && w.closed && Fits(w.files, w.folders) && |w.folders| > 0
    requires forall i :: 0 <= i < |w.files| ==> !w.files[i].open
    ensures Finished(w.solid, w.files, w.folders)
  {
    hide Consistent, Fits, Pending, Joined;
    FoldersClosed(w);
  }

  // What the reader knows of a file that was written: its size and checksum, its folder, and where
  // in that its bytes are.
  ghost predicate Found(w: Writer, crc: Checksum, files: Files, spots: seq<Spot>, k: nat)
    requires k < |w.files|
    reads w
  {
    && k < |files| && |spots| == |files| && HasData(files[k])
    && spots[k].At? && w.files[k].fold == Some(spots[k].folder) && spots[k].folder < |w.folders|
    && files[k].size == |w.files[k].written| && files[k].crc == crc(w.files[k].written)
    && Holds(Flat(w.folders[spots[k].folder].chunks), spots[k].offset, w.files[k].written)
  }

  predicate Holds(data: seq<byte>, offset: nat, piece: seq<byte>) {
    offset + |piece| <= |data| && data[offset..offset + |piece|] == piece
  }

  // And of a folder: its coders, and where its bytes are.
  ghost predicate FolderFound(w: Writer, i: StreamsInfo, r: nat)
    requires r < |w.folders|
    reads w
  {
    && Indexed(w.files, w.folders) && i.packInfo.Some? && i.unpackInfo.Some?
    && var p, folder, d := i.packInfo.value, i.unpackInfo.value.folder, w.folders[r];
       && r < |folder| && folder[r] == FoldMeta(d) && UnpackSize(folder[r]) == |Flat(d.chunks)|
       && r < |p.size| && p.size[r] == |d.emitted| && p.position == 0
       && FirstPacked(folder, r) == r == ListedBefore(folder, r)
       && Holds(w.out, Sum(p.size[..r]), d.emitted)
       && (|d.emitted| < TWO63 ==> Unpacked(d) == Flat(d.chunks))
  }

  // Opening the archive: the header is printed and parsed, and the files are placed.
  method OpenArchive(w: Writer, crc: Checksum) returns (files: Files, i: StreamsInfo, spots: seq<Spot>)
    requires w.Valid() && w.closed && Fits(w.files, w.folders) && |w.folders| > 0
    requires forall k :: 0 <= k < |w.files| ==> !w.files[k].open
    ensures AllSame(files, w.files)
    ensures forall k :: 0 <= k < |w.files| && w.files[k].fold.Some? ==> Found(w, crc, files, spots, k)
    ensures forall r :: 0 <= r < |w.folders| ==> FolderFound(w, i, r)
  {
    hide *;
    ClosedIsFinished(w);
    HeaderRead(w.solid, crc, w.files, w.folders);
    var h := BuildHeader(crc, w.files, w.folders);
    var read := WriteThenRead(h);
    files, i := read.value.filesInfo.value, read.value.streamsInfo.value;
    AllPlaceable(files, i);
    var placed := PlaceFiles(files, i);
    spots := placed.value;
    forall k | 0 <= k < |w.files| && w.files[k].fold.Some? ensures Found(w, crc, files, spots, k) {
      FileFound(w, crc, files, i, spots, k);
    }
    forall r | 0 <= r < |w.folders| ensures FolderFound(w, i, r) {
      FolderIsFound(w, crc, i, r);
    }
  }

  // Decoding a folder: its coders are wired over its packed streams and run, each up to its listed
  // size.
  method ReadFolder(w: Writer, i: StreamsInfo, r: nat, run: CoderRun) returns (data: seq<byte>)
    requires r < |w.folders| && FolderFound(w, i, r) && Undoes(run, w.folders) && |w.out| < TWO63
    ensures data == Flat(w.folders[r].chunks)
    ensures i.unpackInfo.Some? && r < |i.unpackInfo.value.folder| && |data| == UnpackSize(i.unpackInfo.value.folder[r])
  {
    hide Undone, Sum, UnpackSize, FoldMeta, Unpacked, Flat;
    data := DecodeFolder(i.packInfo.value, i.unpackInfo.value.folder, r, w.out, run, w.folders[r]);
  }

  // Everything a reader does for one file. For every run of a writer in every mode, if all file
  // writers were closed and an int64 counts the bytes, this gives exactly the bytes that were
  // written to the file.
  method ReadBack(w: Writer, crc: Checksum, run: CoderRun, k: nat) returns (data: seq<byte>, digest: u32)
    requires w.Valid() && w.closed && Fits(w.files, w.folders) && |w.folders| > 0 && |w.out| < TWO63
    requires forall i :: 0 <= i < |w.files| ==> !w.files[i].open
    requires Undoes(run, w.folders)
    requires k < |w.files| && w.files[k].fold.Some?
    ensures data == w.files[k].written && digest == crc(w.files[k].written)
  {
    hide *;
    var files, i, spots := OpenArchive(w, crc);
    FoundIs(w, crc, files, spots, k);
    var folder := ReadFolder(w, i, spots[k].folder, run);
    data := folder[spots[k].offset..spots[k].offset + files[k].size];
    digest := files[k].crc;
  }

  lemma FoundIs(w: Writer, crc: Checksum, files: Files, spots: seq<Spot>, k: nat)
    requires k < |w.files| && Found(w, crc, files, spots, k)
    ensures k < |files| == |spots| && HasData(files[k]) && spots[k].At? && w.files[k].fold == Some(spots[k].folder)
    ensures spots[k].folder < |w.folders|
    ensures files[k].size == |w.files[k].written| && files[k].crc == crc(w.files[k].written)
    ensures var data := Flat(w.folders[spots[k].folder].chunks);
            && spots[k].offset + files[k].size <= |data|
            && data[spots[k].offset..spots[k].offset + files[k].size] == w.files[k].written
  {
  }

  lemma AllPlaceable(files: Files, i: StreamsInfo)
    requires Sizes(files, i)
    ensures forall k :: 0 <= k < |files| ==> Placeable(files, i, k)
  {
    hide FileFolderAndSize, Sum, Counts;
    forall k | 0 <= k < |files| ensures Placeable(files, i, k) {
      CountDataNext(files, k);
      CountDataGrows(files, k + 1);
    }
  }

  lemma SpotOfFile(files: Files, i: StreamsInfo, k: nat, spot: Spot)
    requires Sizes(files, i) && k < |files| && HasData(files[k]) && SpotIs(files, i, k, spot)
    ensures var j := CountData(files[..k]);
            j < Sum(Counts(i)) < TWO64 && |Counts(i)| > 0 && spot == At(FolderAt(i, j), Offset(i, j))
  {
    hide Sizes, Sum, Counts, FolderAt, Offset, Behind, PlaceFolder;
    OffsetOfFile(files, i, k);
  }

  // The reader's place for a file is the one it was written to.
  lemma FileFound(w: Writer, crc: Checksum, files: Files, i: StreamsInfo, spots: seq<Spot>, k: nat)
    requires w.Valid() && Finished(w.solid, w.files, w.folders) && Indexed(w.files, w.folders)
    requires k < |w.files| && w.files[k].fold.Some?
    requires i == NormalStreams(StreamsOf(crc, w.files, w.folders))
    requires Marked(w.files, files) && Sizes(files, i) && Checksums(files, i)
    requires |spots| == |files| && forall m :: 0 <= m < |files| ==> SpotIs(files, i, m, spots[m])
    ensures Found(w, crc, files, spots, k)
  {
    hide Consistent, Listed, DataFiles, Sum, FileFolderAndSize, GoodStreamsInfo, StreamsOf, FilesOf, NormalStreams,
      AllPlaced, Placed, Partials, Joined, First, Offset, FolderOf, SpotIs, Pending, Finished, Sizes;
    FinishedParts(w.solid, w.files, w.folders);
    FileNumber(w.solid, w.files, w.folders, files, k);
    var j := CountData(files[..k]);
    var built := StreamsOf(crc, w.files, w.folders);
    StreamsGood(w.solid, crc, w.files, w.folders);
    BuiltPlaced(w.solid, crc, w.files, w.folders);
    BuiltCounts(crc, w.files, w.folders);
    NormalOffset(built, j);
    ContentIs(w.solid, crc, w.files, w.folders, j);
    SpotOfFile(files, i, k, spots[k]);
    SizeOfFile(files, i, k);
  }

  lemma SizeOfFile(files: Files, i: StreamsInfo, k: nat)
    requires Sizes(files, i) && Checksums(files, i) && k < |files| && HasData(files[k])
    ensures var place := FileFolderAndSize(i, CountData(files[..k]));
            place.Some? ==> files[k].size == place.value.size && files[k].crc == place.value.crc
  {
    hide FileFolderAndSize, CountData, Sum;
  }

  // The packed bytes of a folder are where the writer put them.
  lemma FolderIsFound(w: Writer, crc: Checksum, i: StreamsInfo, r: nat)
    requires w.Valid() && w.closed && Finished(w.solid, w.files, w.folders) && Indexed(w.files, w.folders)
    requires i == NormalStreams(StreamsOf(crc, w.files, w.folders)) && r < |w.folders|
    ensures FolderFound(w, i, r)
  {
    hide Consistent, Listed, DataFiles, Sum, StreamsOf, NormalStreams, Joined, FolderOf, UnpackSize, Indexed, FoldMeta,
      Unpacked, Flat;
    NormalParts(crc, w.files, w.folders);
    OnePackedEach(w.files, w.folders, r);
    OneListedEach(w.files, w.folders, r);
    WrittenAll(w);
    PackedStart(w.folders, r);
    FolderFacts(w.solid, w.files, w.folders, r);
    FolderIsMeta(w.solid, w.files, w.folders, r);
    SmallRemainder(|w.folders[r].emitted|, TWO64);
  }

  lemma FolderIsMeta(solid: bool, files: Entries, folders: Folds, r: nat)
    requires Finished(solid, files, folders) && r < |folders|
    ensures Indexed(files, folders) && FolderOf(files, folders[r]) == FoldMeta(folders[r])
  {
    hide Consistent, Sum, MetaFolder, Flat, UnpackSize, Fits;
    FinishedParts(solid, files, folders);
    FolderFacts(solid, files, folders, r);
  }

  lemma FileNumber(solid: bool, files: Entries, folders: Folds, headers: Files, k: nat)
    requires Consistent(solid, files, folders) && Marked(files, headers) && k < |files| && files[k].fold.Some?
    ensures HasData(headers[k]) && CountData(headers[..k]) < |Listed(folders)|
    ensures Listed(folders)[CountData(headers[..k])] == k
  {
    hide Listed, DataFiles, Consistent;
    ListedAll(solid, files, folders);
    DataCounted(files[..k], headers[..k]);
    DataFileAt(files, k);
  }

  lemma NormalParts(crc: Checksum, files: Entries, folders: Folds)
    requires Indexed(files, folders)
    ensures var i := NormalStreams(StreamsOf(crc, files, folders));
            && i.packInfo.Some? && i.packInfo.value.position == 0 && i.packInfo.value.size == PackSizes(folders)
            && i.unpackInfo.Some? && i.unpackInfo.value.folder == FoldersOf(files, folders)
  {
  }

  // --- archives without data ---

  // With nothing but directories there is no packed stream. The header can be printed, and what is
  // printed is refused.
  lemma NoFoldersRefused(crc: Checksum, files: Entries, rest: seq<byte>)
    requires Indexed(files, []) && Sized(FilesOf(crc, files))
    ensures PrintableHeader(HeaderOf(crc, files, []))
    ensures GetHeader(PutHeader(HeaderOf(crc, files, [])) + rest) == Err(Zero)
  {
    hide GetHeader, PutHeader, PrintableHeader, Sized, HeaderOf, StreamsOf, FilesOf;
    NoStreamsPrintable(crc, files);
    HeaderRefused(HeaderOf(crc, files, []), rest);
  }

  lemma HeaderRefused(h: Header, rest: seq<byte>)
    requires PrintableHeader(h) && h.streamsInfo.Some? && NoStreams(h.streamsInfo.value)
    ensures GetHeader(PutHeader(h) + rest) == Err(Zero)
  {
    hide GetStreamsInfo, PutStreamsInfo, GetFilesSection, PutFilesSection, Sized, Printable, NoStreams;
    var i := h.streamsInfo.value;
    var behind := PutFilesSection(h) + [ID_END] + rest;
    StreamsRefused(i, behind);
    var t := PutStreamsInfo(i) + behind;
    assert PutHeader(h) + rest == [ID_MAIN_STREAMS_INFO] + t;
    assert ([ID_MAIN_STREAMS_INFO] + t)[1..] == t;
  }

  // A pack section without streams.
  ghost predicate NoStreams(i: StreamsInfo) {
    i.packInfo.Some? && i.packInfo.value.streams == 0 && i.packInfo.value.size == [] && i.packInfo.value.digest == []
  }

  lemma StreamsRefused(i: StreamsInfo, rest: seq<byte>)
    requires Printable(i) && NoStreams(i)
    ensures GetStreamsInfo(PutStreamsInfo(i) + rest) == Err(Zero)
  {
    hide GetStreamsInfo, GetPackInfo, PutPackInfo, Printable, PutUnpackSection, PutSubStreamsSection;
    var behind := PutUnpackSection(i) + PutSubStreamsSection(i) + [ID_END] + rest;
    ZeroStreams(i.packInfo.value, behind);
    PackRefused(PutPackInfo(i.packInfo.value) + behind);
    assert PutStreamsInfo(i) + rest == [ID_PACK_INFO] + (PutPackInfo(i.packInfo.value) + behind);
  }

  lemma NoStreamsPrintable(crc: Checksum, files: Entries)
    requires Indexed(files, []) && Sized(FilesOf(crc, files))
    ensures PrintableHeader(HeaderOf(crc, files, [])) && HeaderOf(crc, files, []).streamsInfo.Some?
    ensures NoStreams(HeaderOf(crc, files, []).streamsInfo.value)
  {
    hide FilesOf, PutNames;
    assert Listed([]) == [];
  }

  lemma PackRefused(t: seq<byte>)
    requires GetPackInfo(t) == Err(Zero)
    ensures GetStreamsInfo([ID_PACK_INFO] + t) == Err(Zero)
  {
    hide GetPackInfo, GetUnpackSection, GetSubStreamsSection;
    assert ([ID_PACK_INFO] + t)[1..] == t;
  }

  // Reading refuses a pack section exactly when it has no streams.
  lemma ZeroStreams(p: PackInfo, rest: seq<byte>)
    requires p.streams <= MAX_UINT32 && Covers(p.size, p.streams) && Covers(p.digest, p.streams)
    ensures GetPackInfo(PutPackInfo(p) + rest) == if p.streams == 0 then Err(Zero) else Ok(p, rest)
  {
    hide GetUint64, PutUint64, PutSizeSection, PutDigestSection;
    if p.streams == 0 {
      var tail := PutSizeSection(p.size) + PutDigestSection(p.digest) + [ID_END] + rest;
      assert PutPackInfo(p) + rest == PutUint64(p.position) + (PutUint64(p.streams) + tail);
      Uint64RoundTrip(p.position, PutUint64(p.streams) + tail);
      Uint64RoundTrip(p.streams, tail);
    } else {
      PackInfoRoundTrip(p, rest);
    }
  }

  // What is printed for an archive with all files closed can be read again if and only if one of
  // them has data, or there are none.
  lemma ReadableIff(solid: bool, crc: Checksum, files: Entries, folders: Folds, rest: seq<byte>)
    requires Consistent(solid, files, folders) && AllClosed(files, folders)
    requires files == [] || Fits(files, folders)
    ensures Indexed(files, folders) && PrintableHeader(HeaderOf(crc, files, folders))
    ensures var r := GetHeader(PutHeader(HeaderOf(crc, files, folders)) + rest);
            if files != [] && folders == [] then r == Err(Zero) else r.Ok? && r.rest == rest
    ensures folders == [] <==> forall k :: 0 <= k < |files| ==> files[k].fold.None?
  {
    hide Consistent, Fits, AllClosed, HeaderOf, GetHeader, PutHeader, GoodHeader, PrintableHeader, Sized, Indexed;
    ConsistentIndexed(solid, files, folders);
    SomeData(solid, files, folders);
    if files == [] {
      NothingReadable(crc, folders, rest);
    } else if folders == [] {
      FitsSized(crc, files, folders);
      NoFoldersRefused(crc, files, rest);
    } else {
      HeaderGood(solid, crc, files, folders);
      GoodHeaderIsPrintable(HeaderOf(crc, files, folders));
      HeaderRoundTrip.HeaderRoundTrip(HeaderOf(crc, files, folders), rest);
    }
  }

  // The header of an empty archive is empty.
  lemma NothingReadable(crc: Checksum, folders: Folds, rest: seq<byte>)
    requires Indexed([], folders)
    ensures PrintableHeader(HeaderOf(crc, [], folders))
    ensures GetHeader(PutHeader(HeaderOf(crc, [], folders)) + rest) == Ok(Header(None, None), rest)
  {
    hide StreamsOf, FilesOf;
    assert PutHeader(HeaderOf(crc, [], folders)) == [ID_END];
    assert ([ID_END] + rest)[1..] == rest;
  }

  lemma FitsSized(crc: Checksum, files: Entries, folders: Folds)
    requires Fits(files, folders)
    ensures Sized(FilesOf(crc, files))
  {
    hide PutNames, GoodName;
    assert Names(FilesOf(crc, files)) == Names(Plain(files));
  }

  lemma SomeData(solid: bool, files: Entries, folders: Folds)
    requires Consistent(solid, files, folders)
    ensures folders == [] <==> forall k :: 0 <= k < |files| ==> files[k].fold.None?
  {
    hide Flat, FlatWritten, Lossless, Emitted, Listed, DataFiles;
    if folders == [] {
      forall k | 0 <= k < |files| ensures files[k].fold.None? {
        assert EntryOk(files, folders, k);
      }
    } else {
      assert FoldOk(files, folders, 0);
      assert files[folders[0].files[0]].fold == Some(0);
    }
  }

  // The writer prints its header and a reader parses it: the files are those that were added.
  method PrintThenParse(w: Writer, crc: Checksum) returns (res: Result<Header>)
    requires w.Valid() && w.closed && (w.files == [] || Fits(w.files, w.folders))
    requires forall i :: 0 <= i < |w.files| ==> !w.files[i].open
    ensures if w.files != [] && forall k :: 0 <= k < |w.files| ==> w.files[k].fold.None? then res == Failure(Zero)
            else res.Success?
    ensures res.Success? ==>
              if w.files == [] then res.value == Header(None, None)
              else res.value.filesInfo.Some? && AllSame(res.value.filesInfo.value, w.files)
  {
    hide Fits, HeaderOf, GetHeader, PutHeader, PrintableHeader, Joined, Pending, AllSame, GoodHeader, NormalHeader;
    FoldersClosed(w);
    ReadableIff(w.solid, crc, w.files, w.folders, []);
    if w.files == [] {
      NothingReadable(crc, w.folders, []);
    } else if w.folders != [] {
      ClosedIsFinished(w);
      HeaderRead(w.solid, crc, w.files, w.folders);
      HeaderRoundTrip.HeaderRoundTrip(HeaderOf(crc, w.files, w.folders), []);
    }
    var h := BuildHeader(crc, w.files, w.folders);
    var sink := new Sink();
    WriteHeader(sink, h);
    assert PutHeader(h) + [] == PutHeader(h) == [] + PutHeader(h);
    var r := new Source(sink.out);
    res := ReadHeader(r);
  }
}
