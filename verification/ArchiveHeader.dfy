/** The metadata a writer prints when it is closed. */
module ArchiveHeader {
  import opened Basics
  import opened HeaderData
  import opened HeaderNumbers
  import opened HeaderStreams
  import opened HeaderFiles
  import opened Placement
  import opened ArchiveState

  // A checksum of bytes.
  type Checksum = seq<byte> -> u32

  // A file's size and checksum are set when it is closed; sizes are counted in a uint64.
  function SizeOf(e: Entry): u64 {
    if e.open then 0 else |e.written| % TWO64
  }

  function DigestOf(crc: Checksum, e: Entry): u32 {
    if e.open then 0 else crc(e.written)
  }

  function Listing(files: Entries, list: seq<nat>): (r: seq<u64>)
    requires Among(list, |files|)
    ensures |r| == |list|
  {
    seq(|list|, i requires 0 <= i < |list| => SizeOf(files[list[i]]))
  }

  function Digests(crc: Checksum, files: Entries, list: seq<nat>): (r: seq<u32>)
    requires Among(list, |files|)
    ensures |r| == |list|
  {
    seq(|list|, i requires 0 <= i < |list| => DigestOf(crc, files[list[i]]))
  }

  const AES: seq<byte> := [0x06, 0xf1, 0x07, 0x01]
  const LZMA2: seq<byte> := [0x21]

  // One coder, or two with the cipher first.
  function MetaFolder(c: Codec, inner: u64, total: u64): Folder {
    var lzma2 := Coder(LZMA2, 1, 1, [c.property]);
    if c.cipher.Some? then
      Folder(2, 2, 1, [Coder(AES, 1, 1, c.cipher.value), lzma2], [BindPair(1, 0)], [inner, total], [0])
    else Folder(1, 1, 1, [lzma2], [], [total], [0])
  }

  function FolderOf(files: Entries, d: Fold): Folder
    requires Among(d.files, |files|)
  {
    MetaFolder(d.codec, d.codec.inner(d.chunks), Sum(Listing(files, d.files)) % TWO64)
  }

  // What the bytes of a folder unpack to, with the size that is listed for its cipher.
  function Unpacked(d: Fold): seq<byte> {
    d.codec.unpack(d.emitted, d.codec.inner(d.chunks))
  }

  // How a folder is described when the sizes of its files are those of its data.
  function FoldMeta(d: Fold): Folder {
    MetaFolder(d.codec, d.codec.inner(d.chunks), |Flat(d.chunks)| % TWO64)
  }

  ghost predicate Indexed(files: Entries, folders: Folds) {
    (forall f :: 0 <= f < |folders| ==> Among(folders[f].files, |files|)) && Among(Listed(folders), |files|)
  }

  function FoldersOf(files: Entries, folders: Folds): (r: seq<Folder>)
    requires Indexed(files, folders)
    ensures |r| == |folders|
  {
    seq(|folders|, i requires 0 <= i < |folders| => FolderOf(files, folders[i]))
  }

  function PackSizes(folders: Folds): (r: seq<u64>)
    ensures |r| == |folders|
  {
    seq(|folders|, i requires 0 <= i < |folders| => |folders[i].emitted| % TWO64)
  }

  function FileCounts(folders: Folds): (r: seq<u64>)
    ensures |r| == |folders|
  {
    seq(|folders|, i requires 0 <= i < |folders| => |folders[i].files| % TWO64)
  }

  function FileOf(crc: Checksum, e: Entry): FileHeader {
    e.fh.(size := SizeOf(e), crc := DigestOf(crc, e))
  }

  function FilesOf(crc: Checksum, files: Entries): (r: Files)
    ensures |r| == |files|
  {
    seq(|files|, i requires 0 <= i < |files| => FileOf(crc, files[i]))
  }

  function StreamsOf(crc: Checksum, files: Entries, folders: Folds): StreamsInfo
    requires Indexed(files, folders)
  {
    StreamsInfo(Some(PackInfo(0, |folders| % TWO64, PackSizes(folders), [])),
                Some(UnpackInfo(FoldersOf(files, folders), [])),
                Some(SubStreamsInfo(FileCounts(folders), Listing(files, Listed(folders)),
                                    Digests(crc, files, Listed(folders)))))
  }

  function HeaderOf(crc: Checksum, files: Entries, folders: Folds): Header
    requires Indexed(files, folders)
  {
    if files == [] then Header(None, None)
    else Header(Some(StreamsOf(crc, files, folders)), Some(FilesOf(crc, files)))
  }

  // A file that was left open is listed with size and checksum zero, any other with its own.
  lemma ListedAs(crc: Checksum, files: Entries, folders: Folds, j: nat)
    requires Indexed(files, folders) && j < |Listed(folders)|
    ensures var e, sub := files[Listed(folders)[j]], StreamsOf(crc, files, folders).subStreamsInfo.value;
            && (e.open ==> sub.size[j] == 0 && sub.digest[j] == 0)
            && (!e.open && |e.written| < TWO64 ==> sub.size[j] == |e.written| && sub.digest[j] == crc(e.written))
  {
    hide Listed;
  }

  lemma {:induction false} DataFilesAmong(files: Entries)
    ensures Among(DataFiles(files), |files|)
  {
    if files != [] {
      DataFilesAmong(files[..|files| - 1]);
    }
  }

  lemma ConsistentIndexed(solid: bool, files: Entries, folders: Folds)
    requires Consistent(solid, files, folders)
    ensures Indexed(files, folders)
  {
    hide Among, Listed, DataFiles, Lossless, Flat, Emitted, FlatWritten, Rising;
    DataFilesAmong(files);
    forall f | 0 <= f < |folders| ensures Among(folders[f].files, |files|) {
      assert FoldOk(files, folders, f);
    }
  }

  // --- the loops of Close ---

  method TotalOf(files: Entries, list: seq<nat>) returns (total: u64)
    requires Among(list, |files|)
    ensures total == Sum(Listing(files, list)) % TWO64
  {
    hide Sum, SizeOf;
    total := 0;
    Totals([], 0);
    assert Listing(files, list)[..0] == [];
    for i := 0 to |list|
      invariant total == Sum(Listing(files, list)[..i]) % TWO64
    {
      assert Listing(files, list)[..i + 1] == Listing(files, list)[..i] + [SizeOf(files[list[i]])];
      Totals(Listing(files, list)[..i], SizeOf(files[list[i]]));
      total := (total + SizeOf(files[list[i]])) % TWO64;
    }
    assert Listing(files, list)[..|list|] == Listing(files, list);
  }

  lemma Totals(sizes: seq<u64>, v: u64)
    ensures Sum([]) == 0
    ensures (Sum(sizes) % TWO64 + v) % TWO64 == Sum(sizes + [v]) % TWO64
  {
    SumAppend(sizes, [v]);
    assert [v][1..] == [];
  }

  method CollectFolders(files: Entries, folders: Folds) returns (p: PackInfo, u: UnpackInfo)
    requires Indexed(files, folders)
    ensures p == PackInfo(0, |folders| % TWO64, PackSizes(folders), [])
    ensures u == UnpackInfo(FoldersOf(files, folders), [])
  {
    hide FolderOf;
    var size: seq<u64>, folder: seq<Folder> := [], [];
    for i := 0 to |folders|
      invariant |size| == i && forall k :: 0 <= k < i ==> size[k] == PackSizes(folders)[k]
      invariant |folder| == i && forall k :: 0 <= k < i ==> folder[k] == FoldersOf(files, folders)[k]
    {
      var d := folders[i];
      size := size + [|d.emitted| % TWO64];
      var total := TotalOf(files, d.files);
      FolderOfIs(files, d, total);
      folder := folder + [MetaFolder(d.codec, d.codec.inner(d.chunks), total)];
    }
    assert size == PackSizes(folders) && folder == FoldersOf(files, folders);
    return PackInfo(0, |folders| % TWO64, size, []), UnpackInfo(folder, []);
  }

  lemma FolderOfIs(files: Entries, d: Fold, total: u64)
    requires Among(d.files, |files|) && total == Sum(Listing(files, d.files)) % TWO64
    ensures FolderOf(files, d) == MetaFolder(d.codec, d.codec.inner(d.chunks), total)
  {
  }

  lemma {:induction false} ListedPrefix(folders: Folds, i: nat)
    requires i <= |folders|
    ensures |Listed(folders[..i])| <= |Listed(folders)|
            && Listed(folders[..i]) == Listed(folders)[..|Listed(folders[..i])|]
    ensures i < |folders| ==> Listed(folders[..i + 1]) == Listed(folders[..i]) + folders[i].files
    decreases |folders| - i
  {
    if i < |folders| {
      assert folders[..i + 1][..i] == folders[..i];
      ListedPrefix(folders, i + 1);
    } else {
      assert folders[..i] == folders;
    }
  }

  method CollectSubStreams(crc: Checksum, files: Entries, folders: Folds) returns (s: SubStreamsInfo)
    requires Indexed(files, folders)
    ensures s == SubStreamsInfo(FileCounts(folders), Listing(files, Listed(folders)),
                                  Digests(crc, files, Listed(folders)))
  {
    hide SizeOf, DigestOf, Listed;
    var streams: seq<u64>, size: seq<u64>, digest: seq<u32> := [], [], [];
    ghost var all := Listed(folders);
    ListedNone();
    for i := 0 to |folders|
      invariant |streams| == i && forall k :: 0 <= k < i ==> streams[k] == FileCounts(folders)[k]
      invariant |size| == |digest| == |Listed(folders[..i])| <= |all|
      invariant size == Listing(files, all)[..|size|] && digest == Digests(crc, files, all)[..|size|]
    {
      ListedPrefix(folders, i);
      ListedPrefix(folders, i + 1);
      var list := folders[i].files;
      streams := streams + [|list| % TWO64];
      ghost var before := |size|;
      for k := 0 to |list|
        invariant |size| == |digest| == before + k
        invariant size == Listing(files, all)[..before + k] && digest == Digests(crc, files, all)[..before + k]
      {
        assert all[before + k] == list[k];
        size := size + [SizeOf(files[list[k]])];
        digest := digest + [DigestOf(crc, files[list[k]])];
      }
    }
    assert folders[..|folders|] == folders;
    assert streams == FileCounts(folders);
    return SubStreamsInfo(streams, size, digest);
  }

  lemma ListedNone()
    ensures Listed([]) == []
  {
  }

  // The header built from what the writer holds.
  method BuildHeader(crc: Checksum, files: Entries, folders: Folds) returns (h: Header)
    requires Indexed(files, folders)
    ensures h == HeaderOf(crc, files, folders)
  {
    hide FileOf, Indexed;
    if |files| == 0 {
      return Header(None, None);
    }
    var p, u := CollectFolders(files, folders);
    var s := CollectSubStreams(crc, files, folders);
    var file: Files := [];
    for i := 0 to |files|
      invariant |file| == i && forall k :: 0 <= k < i ==> file[k] == FilesOf(crc, files)[k]
    {
      file := file + [FileOf(crc, files[i])];
    }
    assert file == FilesOf(crc, files);
    return Header(Some(StreamsInfo(Some(p), Some(u), Some(s))), Some(file));
  }

  // --- the header is well formed ---

  // Names without a zero unit, and numbers that the format can hold.
  ghost predicate Fits(files: Entries, folders: Folds) {
    && 0 < |files| <= MAX_UINT32
    && |PutNames(Names(Plain(files)))| + 1 < 0x8000_0000_0000_0000
    && (forall k :: 0 <= k < |files| ==> GoodName(files[k].fh.name))
    && (forall f :: 0 <= f < |folders| ==> |folders[f].emitted| < TWO64 && |Flat(folders[f].chunks)| < TWO64)
  }

  function Plain(files: Entries): (r: Files)
    ensures |r| == |files|
  {
    seq(|files|, i requires 0 <= i < |files| => files[i].fh)
  }

  ghost predicate AllClosed(files: Entries, folders: Folds) {
    && (forall k :: 0 <= k < |files| ==> !files[k].open)
    && (forall f :: 0 <= f < |folders| ==> folders[f].closed)
  }

  lemma MetaFolderGood(c: Codec, inner: u64, total: u64)
    requires c.cipher.Some? ==> |c.cipher.value| <= MAX_UINT32
    ensures var f := MetaFolder(c, inner, total);
            && GoodFolder(f) && RootSize(f) && UnpackSize(f) == total && f.packedStreams == 1
  {
    var f := MetaFolder(c, inner, total);
    if c.cipher.Some? {
      TwoCoders(f);
    } else {
      assert f.coder[1..] == [];
      assert UnboundIns([], 1, 1) == [] && UnboundIns([], 0, 1) == [0];
      assert LastUnbound(f, 1) == Some(total);
    }
  }

  lemma TwoCoders(f: Folder)
    requires |f.coder| == 2 && f.bindPair == [BindPair(1, 0)] && |f.size| == 2
    requires forall i :: 0 <= i < 2 ==> f.coder[i].ins == 1 && f.coder[i].outs == 1
    ensures SumIns(f.coder) == 2 && SumOuts(f.coder) == 2
    ensures UnboundIns(f.bindPair, 0, 2) == [0]
    ensures UnpackSize(f) == f.size[1]
  {
    assert f.coder[1..][1..] == [] && f.coder[1..][0] == f.coder[1];
    assert SumIns(f.coder[1..]) == 1 && SumOuts(f.coder[1..]) == 1;
    assert f.bindPair[1..] == [];
    assert FindIn(f.bindPair, 0) == None && FindIn(f.bindPair, 1) == Some(BindPair(1, 0));
    assert UnboundIns(f.bindPair, 2, 2) == [] && UnboundIns(f.bindPair, 1, 2) == [];
    assert FindOut(f.bindPair, 1) == None;
    assert LastUnbound(f, 2) == Some(f.size[1]);
  }

  lemma {:induction false} DataFilesFew(files: Entries)
    ensures |DataFiles(files)| <= |files|
  {
    if files != [] {
      DataFilesFew(files[..|files| - 1]);
    }
  }

  // The first file of folder r is the one behind all files of earlier folders.
  lemma {:induction false} FirstListed(folders: Folds, r: nat)
    requires r <= |folders| && |Listed(folders)| < TWO64
    ensures First(FileCounts(folders), r) == |Listed(folders[..r])|
  {
    if r == 0 {
      assert FileCounts(folders)[..0] == [];
    } else {
      FirstListed(folders, r - 1);
      ListedPrefix(folders, r - 1);
      ListedPrefix(folders, r);
      FirstNext(FileCounts(folders), r - 1);
      SmallRemainder(|folders[r - 1].files|, TWO64);
    }
  }

  // The files of folder r, in the list of all.
  lemma ListedSlice(folders: Folds, r: nat)
    requires r < |folders| && |Listed(folders)| < TWO64
    ensures var a := First(FileCounts(folders), r);
            && FileCounts(folders)[r] == |folders[r].files|
            && a + |folders[r].files| <= |Listed(folders)|
            && Listed(folders)[a..a + |folders[r].files|] == folders[r].files
  {
    hide Listed, First;
    ListedPrefix(folders, r);
    ListedPrefix(folders, r + 1);
    FirstListed(folders, r);
    SmallRemainder(|folders[r].files|, TWO64);
  }

  // --- sizes ---

  lemma {:induction false} WrittenSum(files: Entries, list: seq<nat>)
    requires Among(list, |files|) && |FlatWritten(files, list)| < TWO64
    requires forall i :: 0 <= i < |list| ==> !files[list[i]].open
    ensures Sum(Listing(files, list)) == |FlatWritten(files, list)|
  {
    hide Sum;
    if list == [] {
      assert Sum([]) == 0 by {
        Totals([], 0);
      }
    } else {
      var front, last := list[..|list| - 1], list[|list| - 1];
      WrittenSum(files, front);
      assert Listing(files, list) == Listing(files, front) + [SizeOf(files[last])];
      SumAppend(Listing(files, front), [SizeOf(files[last])]);
      SumOne(SizeOf(files[last]));
      SmallRemainder(|files[last].written|, TWO64);
    }
  }

  lemma {:induction false} AddUpParts(streams: seq<u64>, size: seq<u64>, folders: seq<Folder>)
    requires |streams| == |folders| && |size| == Sum(streams)
    requires forall r :: 0 <= r < |streams| ==> PartAddsUp(streams, size, folders, r)
    ensures AddUp(streams, size, folders)
    decreases |streams|
  {
    hide UnpackSize, PartAddsUp, First;
    if streams != [] {
      var n := streams[0];
      forall r | 0 <= r < |streams[1..]| ensures PartAddsUp(streams[1..], size[n..], folders[1..], r) {
        PartShifted(streams, size, folders, r);
      }
      AddUpParts(streams[1..], size[n..], folders[1..]);
      FirstPart(streams, size, folders);
    }
  }

  lemma FirstPart(streams: seq<u64>, size: seq<u64>, folders: seq<Folder>)
    requires 0 < |streams| == |folders| && streams[0] <= |size| && PartAddsUp(streams, size, folders, 0)
    ensures streams[0] > 0 ==> Sum(size[..streams[0]]) == UnpackSize(folders[0])
  {
    hide UnpackSize;
    assert streams[..0] == [] && First(streams, 0) == 0;
    assert size[0..streams[0]] == size[..streams[0]];
  }

  // What is known of folder r once everything is closed.
  lemma FolderFacts(solid: bool, files: Entries, folders: Folds, r: nat)
    requires Consistent(solid, files, folders) && Fits(files, folders) && AllClosed(files, folders)
    requires r < |folders|
    ensures Indexed(files, folders)
    ensures var d := folders[r];
            var f := FolderOf(files, d);
            && |d.files| > 0 && GoodFolder(f) && RootSize(f) && f.packedStreams == 1
            && UnpackSize(f) == Sum(Listing(files, d.files)) == |Flat(d.chunks)|
            && Flat(d.chunks) == FlatWritten(files, d.files)
            && (|d.emitted| < TWO63 ==> Unpacked(d) == Flat(d.chunks))
  {
    hide Listed, DataFiles, Flat, Emitted, FlatWritten, Sum, GoodFolder, RootSize, UnpackSize, MetaFolder, Packed;
    ConsistentIndexed(solid, files, folders);
    assert FoldOk(files, folders, r);
    var d := folders[r];
    WrittenSum(files, d.files);
    SmallRemainder(Sum(Listing(files, d.files)), TWO64);
    MetaFolderGood(d.codec, d.codec.inner(d.chunks), Sum(Listing(files, d.files)) % TWO64);
  }

  lemma CountsSmall(solid: bool, files: Entries, folders: Folds)
    requires Consistent(solid, files, folders) && |files| <= MAX_UINT32
    ensures |Listed(folders)| <= MAX_UINT32
    ensures Sum(FileCounts(folders)) == |Listed(folders)|
    ensures |folders| <= |Listed(folders)|
  {
    hide Flat, Emitted, FlatWritten, Lossless;
    DataFilesFew(files);
    FirstListed(folders, |folders|);
    assert folders[..|folders|] == folders;
    assert FileCounts(folders)[..|folders|] == FileCounts(folders);
    forall f | 0 <= f < |folders| ensures |folders[f].files| > 0 {
      assert FoldOk(files, folders, f);
    }
    FoldersFew(folders);
  }

  lemma {:induction false} FoldersFew(folders: Folds)
    requires forall f :: 0 <= f < |folders| ==> |folders[f].files| > 0
    ensures |folders| <= |Listed(folders)|
  {
    if folders != [] {
      FoldersFew(folders[..|folders| - 1]);
    }
  }

  // Sizes that add up are made as the reader makes them.
  lemma {:induction false} AddUpFollows(streams: seq<u64>, size: seq<u64>, folders: seq<Folder>)
    requires |streams| == |folders| && |size| == Sum(streams) && AddUp(streams, size, folders)
    ensures LastsFollow(streams, size, folders)
    decreases |streams|
  {
    hide UnpackSize, LastFollows;
    if streams != [] {
      AddUpFollows(streams[1..], size[streams[0]..], folders[1..]);
      if streams[0] > 0 {
        TotalFollows(size[..streams[0]], UnpackSize(folders[0]));
      }
    }
  }

  lemma TotalFollows(share: seq<u64>, unpackSize: u64)
    requires share != [] && Sum(share) == unpackSize
    ensures LastFollows(share, unpackSize)
  {
    hide Sum;
    var front, last := share[..|share| - 1], share[|share| - 1];
    assert share == front + [last];
    SumAppend(front, [last]);
    SumOne(last);
    SmallRemainder(last, TWO64);
  }

  lemma StreamsGood(solid: bool, crc: Checksum, files: Entries, folders: Folds)
    requires Consistent(solid, files, folders) && Fits(files, folders) && AllClosed(files, folders) && |folders| > 0
    ensures Indexed(files, folders) && GoodStreamsInfo(StreamsOf(crc, files, folders))
    ensures RootSizes(StreamsOf(crc, files, folders).unpackInfo.value)
  {
    hide Consistent, Fits, Listed, Sum, GoodFolder, RootSize, FolderOf, AddUp, LastsFollow;
    ConsistentIndexed(solid, files, folders);
    assert |files| <= MAX_UINT32 by {
      FitsCount(files, folders);
    }
    CountsSmall(solid, files, folders);
    forall r | 0 <= r < |folders|
      ensures GoodFolder(FoldersOf(files, folders)[r]) && RootSize(FoldersOf(files, folders)[r])
    {
      FolderFacts(solid, files, folders, r);
    }
    SizesAddUp(solid, files, folders);
    AddUpFollows(FileCounts(folders), Listing(files, Listed(folders)), FoldersOf(files, folders));
    SmallRemainder(|folders|, TWO64);
    SmallRemainder(|Listed(folders)|, TWO64);
  }

  lemma FitsCount(files: Entries, folders: Folds)
    requires Fits(files, folders)
    ensures 0 < |files| <= MAX_UINT32
  {
  }

  lemma SizesAddUp(solid: bool, files: Entries, folders: Folds)
    requires Consistent(solid, files, folders) && Fits(files, folders) && AllClosed(files, folders)
    ensures Indexed(files, folders) && |Listed(folders)| == Sum(FileCounts(folders))
    ensures AddUp(FileCounts(folders), Listing(files, Listed(folders)), FoldersOf(files, folders))
  {
    hide Consistent, Fits, Listed, Sum, GoodFolder, RootSize, FolderOf, AddUp, UnpackSize;
    ConsistentIndexed(solid, files, folders);
    FitsCount(files, folders);
    CountsSmall(solid, files, folders);
    var counts, size := FileCounts(folders), Listing(files, Listed(folders));
    forall r | 0 <= r < |counts| ensures PartAddsUp(counts, size, FoldersOf(files, folders), r) {
      ListedSlice(folders, r);
      FolderFacts(solid, files, folders, r);
      var a := First(counts, r);
      assert size[a..a + counts[r]] == Listing(files, folders[r].files) by {
        forall i | 0 <= i < counts[r] ensures size[a + i] == Listing(files, folders[r].files)[i] {
          assert Listed(folders)[a..a + counts[r]][i] == folders[r].files[i];
        }
      }
    }
    AddUpParts(counts, size, FoldersOf(files, folders));
  }
}
