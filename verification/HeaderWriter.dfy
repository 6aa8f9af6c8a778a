/** The header printer: methods that append to a sink, each equal to its byte function. */
module HeaderWriter {
  import opened Basics
  import opened HeaderData
  import opened HeaderNumbers
  import opened HeaderStreams
  import opened HeaderFiles
  import opened HeaderRoundTrip

  // A buffer that bytes are appended to.
  class Sink {
    var out: seq<byte>

    constructor ()
      ensures out == []
    {
      out := [];
    }

    method WriteByte(b: byte)
      modifies this
      ensures out == old(out) + [b]
    {
      out := out + [b];
    }

    method Write(b: seq<byte>)
      modifies this
      ensures out == old(out) + b
    {
      out := out + b;
    }
  }

  lemma {:induction false} ToLEAt(v: nat, n: nat, i: nat)
    requires i < n <= 8
    ensures ToLE(v, n)[i] == v / Pow256(i) % 0x100
  {
    if i > 0 {
      ToLEAt(v / 0x100, n - 1, i - 1);
      DivDiv(v, i);
    }
  }

  lemma DivDiv(v: nat, i: nat)
    requires 0 < i <= 8
    ensures v / 0x100 / Pow256(i - 1) == v / Pow256(i)
  {
  }

  // The bytes of a number, the lowest one first.
  function LowBytes(v: u64): (b: seq<byte>)
    ensures |b| == 8
  {
    [v % 0x100, v / 0x100 % 0x100, v / 0x1_0000 % 0x100, v / 0x100_0000 % 0x100, v / 0x1_0000_0000 % 0x100,
     v / 0x100_0000_0000 % 0x100, v / 0x1_0000_0000_0000 % 0x100, v / 0x100_0000_0000_0000 % 0x100]
  }

  lemma LowByteIs(v: u64, i: nat)
    requires i < 8
    ensures LowBytes(v)[i] == v / Pow256(i) % 0x100
  {
  }

  lemma LowBytesAre(v: u64, n: nat)
    requires n <= 8
    ensures LowBytes(v)[..n] == ToLE(v, n)
  {
    hide LowBytes, Pow256;
    forall i | 0 <= i < n ensures LowBytes(v)[i] == ToLE(v, n)[i] {
      LowByteIs(v, i);
      ToLEAt(v, n, i);
    }
  }

  // The first byte of a number and as many of its low bytes as follow.
  lemma BytesAre(v: u64, lead: byte)
    requires lead == Lead(Extra(v)) + (if Extra(v) < 7 then v / Pow256(Extra(v)) else 0)
    ensures PutUint64(v) == [lead] + LowBytes(v)[..Extra(v)]
  {
    hide LowBytes, ToLE, Pow256, Lead, Extra;
    LowBytesAre(v, Extra(v));
  }

  method WriteUint64(w: Sink, v: u64)
    modifies w
    ensures w.out == old(w.out) + PutUint64(v)
  {
    hide PutUint64, LowBytes;
    var low := LowBytes(v);
    var lead: byte;
    if v < 0x80 {
      lead := v;
      w.WriteByte(lead);
    } else if v < 0x4000 {
      lead := v / 0x100 + 0x80;
      w.Write([lead] + low[..1]);
    } else if v < 0x20_0000 {
      lead := v / 0x1_0000 + 0xc0;
      w.Write([lead] + low[..2]);
    } else if v < 0x1000_0000 {
      lead := v / 0x100_0000 + 0xe0;
      w.Write([lead] + low[..3]);
    } else if v < 0x8_0000_0000 {
      lead := v / 0x1_0000_0000 + 0xf0;
      w.Write([lead] + low[..4]);
    } else if v < 0x400_0000_0000 {
      lead := v / 0x100_0000_0000 + 0xf8;
      w.Write([lead] + low[..5]);
    } else if v < 0x2_0000_0000_0000 {
      lead := v / 0x1_0000_0000_0000 + 0xfc;
      w.Write([lead] + low[..6]);
    } else if v < 0x100_0000_0000_0000 {
      lead := v / 0x100_0000_0000_0000 + 0xfe;
      w.Write([lead] + low[..7]);
    } else {
      lead := 0xff;
      w.Write([lead] + low);
    }
    BytesAre(v, lead);
  }

  method WriteBool(w: Sink, defined: seq<bool>)
    modifies w
    ensures w.out == old(w.out) + PutBools(defined)
  {
    hide With;
    var b: bv8, mask: bv8 := 0, 0x80;
    for i := 0 to |defined|
      invariant w.out + PutBits(defined[i..], b, mask) == old(w.out) + PutBools(defined)
    {
      assert defined[i..][1..] == defined[i + 1..];
      b := With(b, mask, defined[i]);
      mask := mask >> 1;
      if mask == 0 {
        w.WriteByte(b as int);
        b, mask := 0, 0x80;
      }
    }
    if mask != 0x80 {
      w.WriteByte(b as int);
    }
  }

  method WriteOptionalBool(w: Sink, defined: seq<bool>)
    modifies w
    ensures w.out == old(w.out) + PutOptionalBools(defined)
  {
    hide PutBools;
    var allTrue := true;
    for i := 0 to |defined|
      invariant allTrue && AllTrue(defined[..i])
    {
      if !defined[i] {
        allTrue := false;
        break;
      }
    }
    assert allTrue ==> defined[..|defined|] == defined;
    if allTrue {
      w.WriteByte(1);
      return;
    }
    w.WriteByte(0);
    WriteBool(w, defined);
  }

  method WriteSizes(w: Sink, sizes: seq<u64>)
    modifies w
    ensures w.out == old(w.out) + PutSizes(sizes)
  {
    hide PutUint64;
    for i := 0 to |sizes|
      invariant w.out + PutSizes(sizes[i..]) == old(w.out) + PutSizes(sizes)
    {
      assert sizes[i..][1..] == sizes[i + 1..];
      WriteUint64(w, sizes[i]);
    }
  }

  // The values of defined entries, in width bytes each.
  method WriteValues(w: Sink, values: seq<Option<nat>>, width: nat)
    modifies w
    ensures w.out == old(w.out) + PutValues(values, width)
  {
    hide ToLE;
    for i := 0 to |values|
      invariant w.out + PutValues(values[i..], width) == old(w.out) + PutValues(values, width)
    {
      assert values[i..][1..] == values[i + 1..];
      if values[i].Some? {
        w.Write(ToLE(values[i].value, width));
      }
    }
  }

  method WriteCRC(w: Sink, crcs: seq<Option<nat>>)
    modifies w
    ensures w.out == old(w.out) + PutCRC(crcs)
  {
    hide PutOptionalBools, PutValues;
    WriteOptionalBool(w, Defined(crcs));
    WriteValues(w, crcs, 4);
  }

  method WriteDigests(w: Sink, digest: seq<u32>)
    modifies w
    ensures w.out == old(w.out) + PutDigestSection(digest)
  {
    hide PutCRC;
    if |digest| > 0 {
      w.WriteByte(ID_CRC);
      WriteCRC(w, Somes(digest));
    }
  }

  method WritePackInfo(w: Sink, p: PackInfo)
    modifies w
    ensures w.out == old(w.out) + PutPackInfo(p)
  {
    hide PutUint64, PutSizes, PutDigestSection;
    WriteUint64(w, p.position);
    WriteUint64(w, p.streams);
    if |p.size| > 0 {
      w.WriteByte(ID_SIZE);
      WriteSizes(w, p.size);
    }
    WriteDigests(w, p.digest);
    w.WriteByte(ID_END);
  }

  method WriteCoder(w: Sink, c: Coder)
    requires GoodCoder(c)
    modifies w
    ensures w.out == old(w.out) + PutCoder(c)
  {
    hide PutStreamCounts, PutProperties, Complex;
    var flags := |c.id| % 0x10;
    if Complex(c) {
      flags := flags + 0x10;
    }
    if |c.properties| > 0 {
      flags := flags + 0x20;
    }
    w.WriteByte(flags);
    w.Write(c.id);
    WriteStreamCounts(w, c);
    WriteProperties(w, c);
  }

  method WriteStreamCounts(w: Sink, c: Coder)
    requires GoodCoder(c)
    modifies w
    ensures w.out == old(w.out) + PutStreamCounts(c)
  {
    hide PutUint64;
    if Complex(c) {
      WriteUint64(w, c.ins);
      WriteUint64(w, c.outs);
    }
  }

  method WriteProperties(w: Sink, c: Coder)
    requires GoodCoder(c)
    modifies w
    ensures w.out == old(w.out) + PutProperties(c)
  {
    hide PutUint64;
    if |c.properties| > 0 {
      WriteUint64(w, |c.properties|);
      w.Write(c.properties);
    }
  }

  method WriteCoders(w: Sink, coders: seq<Coder>)
    requires GoodCoders(coders)
    modifies w
    ensures w.out == old(w.out) + PutCoders(coders)
  {
    hide PutCoder, GoodCoder;
    for i := 0 to |coders|
      invariant GoodCoders(coders[i..]) && w.out + PutCoders(coders[i..]) == old(w.out) + PutCoders(coders)
    {
      assert coders[i..][1..] == coders[i + 1..];
      WriteCoder(w, coders[i]);
    }
  }

  method WritePairs(w: Sink, pairs: seq<BindPair>)
    requires GoodPairs(pairs)
    modifies w
    ensures w.out == old(w.out) + PutPairs(pairs)
  {
    hide PutPair, GoodPair;
    for i := 0 to |pairs|
      invariant GoodPairs(pairs[i..]) && w.out + PutPairs(pairs[i..]) == old(w.out) + PutPairs(pairs)
    {
      assert pairs[i..][1..] == pairs[i + 1..];
      WritePair(w, pairs[i]);
    }
  }

  method WriteFolder(w: Sink, f: Folder)
    requires GoodFolder(f)
    modifies w
    ensures w.out == old(w.out) + PutFolder(f)
  {
    hide PutUint64, PutCoders, PutPairs, PutSizes, GoodCoder, GoodPair, UnboundIns;
    WriteUint64(w, |f.coder|);
    WriteCoders(w, f.coder);
    WritePairs(w, f.bindPair);
    if f.packedStreams > 1 {
      WriteSizes(w, f.packed);
    }
  }

  method WritePair(w: Sink, p: BindPair)
    requires GoodPair(p)
    modifies w
    ensures w.out == old(w.out) + PutPair(p)
  {
    WriteUint64(w, p.ins);
    WriteUint64(w, p.outs);
  }

  method WriteFolders(w: Sink, folders: seq<Folder>)
    requires GoodFolders(folders)
    modifies w
    ensures w.out == old(w.out) + PutFolders(folders)
  {
    hide PutFolder, GoodFolder;
    for i := 0 to |folders|
      invariant GoodFolders(folders[i..]) && w.out + PutFolders(folders[i..]) == old(w.out) + PutFolders(folders)
    {
      assert folders[i..][1..] == folders[i + 1..];
      WriteFolder(w, folders[i]);
    }
  }

  method WriteFolderSizes(w: Sink, folders: seq<Folder>)
    modifies w
    ensures w.out == old(w.out) + PutFolderSizes(folders)
  {
    hide PutSizes;
    for i := 0 to |folders|
      invariant w.out + PutFolderSizes(folders[i..]) == old(w.out) + PutFolderSizes(folders)
    {
      assert folders[i..][1..] == folders[i + 1..];
      WriteSizes(w, folders[i].size);
    }
  }

  method WriteUnpackInfo(w: Sink, u: UnpackInfo)
    requires PrintableUnpack(u)
    modifies w
    ensures w.out == old(w.out) + PutUnpackInfo(u)
  {
    hide PutUint64, PutFolders, PutFolderSizes, PutDigestSection, GoodFolder;
    w.WriteByte(ID_FOLDER);
    WriteUint64(w, |u.folder|);
    w.WriteByte(0);
    WriteFolders(w, u.folder);
    w.WriteByte(ID_CODERS_UNPACK_SIZE);
    WriteFolderSizes(w, u.folder);
    WriteDigests(w, u.digest);
    w.WriteByte(ID_END);
  }

  method WriteSubStreamsInfo(w: Sink, s: SubStreamsInfo)
    requires |s.size| > 0 ==> |s.size| == Sum(s.streams)
    modifies w
    ensures w.out == old(w.out) + PutSubStreamsInfo(s)
  {
    hide PutCountSection, PutShareSection, PutDigestSection, Sum;
    WriteCounts(w, s.streams);
    WriteShareSection(w, s.streams, s.size);
    WriteDigests(w, s.digest);
    w.WriteByte(ID_END);
  }

  method WriteCounts(w: Sink, streams: seq<u64>)
    modifies w
    ensures w.out == old(w.out) + PutCountSection(streams)
  {
    hide PutSizes;
    var allOne := true;
    for i := 0 to |streams|
      invariant allOne && streams[..i] == AllOnes(i)
    {
      if streams[i] != 1 {
        allOne := false;
        break;
      }
    }
    assert allOne ==> streams[..|streams|] == streams;
    if !allOne {
      w.WriteByte(ID_NUM_UNPACK_STREAM);
      WriteSizes(w, streams);
    }
  }

  // The sizes k .. k + count - 2 of each folder, skipping its last one.
  method WriteShares(w: Sink, streams: seq<u64>, size: seq<u64>)
    requires |size| == Sum(streams)
    modifies w
    ensures w.out == old(w.out) + PutShares(streams, size)
  {
    hide PutSizes;
    var k: nat := 0;
    assert size[0..] == size;
    for i := 0 to |streams|
      invariant k <= |size| && |size| - k == Sum(streams[i..])
      invariant w.out + PutShares(streams[i..], size[k..]) == old(w.out) + PutShares(streams, size)
    {
      assert streams[i..][1..] == streams[i + 1..];
      if streams[i] == 0 {
        continue;
      }
      NextShare(streams[i..], size[k..]);
      WriteSizes(w, size[k..k + streams[i] - 1]);
      assert size[k..][..streams[i] - 1] == size[k..k + streams[i] - 1];
      assert size[k..][streams[i]..] == size[k + streams[i]..];
      k := k + streams[i];
    }
  }

  lemma NextShare(streams: seq<u64>, size: seq<u64>)
    requires streams != [] && streams[0] > 0 && |size| == Sum(streams)
    ensures streams[0] <= |size|
    ensures PutShares(streams, size) == PutSizes(size[..streams[0] - 1]) + PutShares(streams[1..], size[streams[0]..])
  {
  }

  method WriteShareSection(w: Sink, streams: seq<u64>, size: seq<u64>)
    requires |size| > 0 ==> |size| == Sum(streams)
    modifies w
    ensures w.out == old(w.out) + PutShareSection(streams, size)
  {
    hide PutShares, Sum;
    if |size| > 0 {
      var hasSize := false;
      for i := 0 to |streams|
        invariant !hasSize && forall j :: 0 <= j < i ==> streams[j] <= 1
      {
        if streams[i] > 1 {
          hasSize := true;
          break;
        }
      }
      if hasSize {
        w.WriteByte(ID_SIZE);
        WriteShares(w, streams, size);
      }
    }
  }

  method WritePackSection(w: Sink, s: StreamsInfo)
    modifies w
    ensures w.out == old(w.out) + PutPackSection(s)
  {
    hide PutPackInfo;
    if s.packInfo.Some? {
      w.WriteByte(ID_PACK_INFO);
      WritePackInfo(w, s.packInfo.value);
    }
  }

  method WriteUnpackSection(w: Sink, s: StreamsInfo)
    requires Printable(s)
    modifies w
    ensures w.out == old(w.out) + PutUnpackSection(s)
  {
    hide PutUnpackInfo, PrintableUnpack;
    if s.unpackInfo.Some? {
      w.WriteByte(ID_UNPACK_INFO);
      WriteUnpackInfo(w, s.unpackInfo.value);
    }
  }

  method WriteSubStreamsSection(w: Sink, s: StreamsInfo)
    requires Printable(s)
    modifies w
    ensures w.out == old(w.out) + PutSubStreamsSection(s)
  {
    hide PutSubStreamsInfo, PrintableUnpack, Sum;
    if s.subStreamsInfo.Some? {
      w.WriteByte(ID_SUB_STREAMS_INFO);
      WriteSubStreamsInfo(w, s.subStreamsInfo.value);
    }
  }

  method WriteStreamsInfo(w: Sink, s: StreamsInfo)
    requires Printable(s)
    modifies w
    ensures w.out == old(w.out) + PutStreamsInfo(s)
  {
    hide PutPackSection, PutUnpackSection, PutSubStreamsSection, Printable;
    WritePackSection(w, s);
    WriteUnpackSection(w, s);
    WriteSubStreamsSection(w, s);
    w.WriteByte(ID_END);
  }

  // A property whose body was built in a buffer of its own.
  method WriteProperty(w: Sink, id: byte, body: seq<byte>)
    requires |body| < 0x8000_0000_0000_0000
    modifies w
    ensures w.out == old(w.out) + PutProperty(id, body)
  {
    hide PutUint64;
    w.WriteByte(id);
    WriteUint64(w, |body|);
    w.Write(body);
  }

  method WriteExternalValues(values: seq<Option<nat>>, width: nat) returns (body: seq<byte>)
    ensures body == PutExternalValues(values, width)
  {
    hide PutOptionalBools, PutValues;
    var buf := new Sink();
    WriteOptionalBool(buf, Defined(values));
    buf.WriteByte(0);
    WriteValues(buf, values, width);
    return buf.out;
  }

  // A bit vector as a property; its declared length is computed from the number of bits.
  method WriteBits(w: Sink, id: byte, bits: seq<bool>)
    requires |bits| <= MAX_UINT32
    modifies w
    ensures |PutBools(bits)| < 0x8000_0000_0000_0000
    ensures w.out == old(w.out) + PutProperty(id, PutBools(bits))
  {
    hide PutBools, PutUint64;
    BoolsSize(bits);
    w.WriteByte(id);
    WriteUint64(w, (|bits| + 7) / 8);
    WriteBool(w, bits);
  }

  method CollectEmptyStreams(files: Files) returns (emptyStreams: seq<bool>, hasEmptyStream: bool)
    ensures emptyStreams == EmptyStreams(files) && hasEmptyStream == AnyTrue(emptyStreams)
  {
    emptyStreams, hasEmptyStream := [], false;
    for i := 0 to |files|
      invariant emptyStreams == EmptyStreams(files)[..i] && hasEmptyStream == AnyTrue(emptyStreams)
    {
      AnyTrueMore(emptyStreams, files[i].isEmptyStream);
      emptyStreams := emptyStreams + [files[i].isEmptyStream];
      if files[i].isEmptyStream {
        hasEmptyStream := true;
      }
    }
  }

  // The bit of one more file, if it has no stream.
  lemma EmptyFilesStep(files: Files, done: seq<bool>)
    requires files != []
    ensures done + EmptyFiles(files)
            == (if files[0].isEmptyStream then done + [files[0].isEmptyFile] else done) + EmptyFiles(files[1..])
  {
  }

  lemma NoEmptyFiles(done: seq<bool>)
    ensures done + EmptyFiles([]) == done && !AnyTrue([])
  {
  }

  method CollectEmptyFiles(files: Files) returns (emptyFiles: seq<bool>, hasEmptyFile: bool)
    ensures emptyFiles == EmptyFiles(files) && hasEmptyFile == AnyTrue(emptyFiles)
  {
    hide EmptyFiles, AnyTrue;
    emptyFiles, hasEmptyFile := [], false;
    NoEmptyFiles([]);
    assert files[0..] == files && [] + EmptyFiles(files) == EmptyFiles(files);
    for i := 0 to |files|
      invariant emptyFiles + EmptyFiles(files[i..]) == EmptyFiles(files) && hasEmptyFile == AnyTrue(emptyFiles)
    {
      EmptyFilesStep(files[i..], emptyFiles);
      assert files[i..][1..] == files[i + 1..];
      if files[i].isEmptyStream {
        AnyTrueMore(emptyFiles, files[i].isEmptyFile);
        emptyFiles := emptyFiles + [files[i].isEmptyFile];
        if files[i].isEmptyFile {
          hasEmptyFile := true;
        }
      }
    }
    NoEmptyFiles(emptyFiles);
  }

  method WriteEmptyStreams(w: Sink, files: Files)
    requires Sized(files)
    modifies w
    ensures w.out == old(w.out) + PutEmptyStreams(files) + PutEmptyFiles(files)
  {
    hide PutBools, PutProperty, PutNames, EmptyStreams, EmptyFiles, AnyTrue;
    var emptyStreams, hasEmptyStream := CollectEmptyStreams(files);
    if hasEmptyStream {
      WriteBits(w, ID_EMPTY_STREAM, emptyStreams);
      var emptyFiles, hasEmptyFile := CollectEmptyFiles(files);
      if hasEmptyFile {
        EmptyLength(files);
        WriteBits(w, ID_EMPTY_FILE, emptyFiles);
      }
    }
  }

  lemma AnyTrueMore(bits: seq<bool>, bit: bool)
    ensures AnyTrue(bits + [bit]) == (AnyTrue(bits) || bit)
  {
    if AnyTrue(bits) {
      var i :| 0 <= i < |bits| && bits[i];
      assert (bits + [bit])[i];
    }
    if bit {
      assert (bits + [bit])[|bits|];
    }
  }

  // The declared size of a bit vector is the number of bytes written.
  lemma BoolsSize(bits: seq<bool>)
    ensures |PutBools(bits)| == (|bits| + 7) / 8
  {
    BitsSize(bits, 0, 0x80, 0);
  }

  // Mask 0x80 >> used, with that many bits of the current byte taken.
  lemma {:induction false} BitsSize(bits: seq<bool>, b: bv8, mask: bv8, used: nat)
    requires used < 8 && mask == Top(used)
    ensures |PutBits(bits, b, mask)| == (used + |bits| + 7) / 8
    decreases |bits|
  {
    hide With;
    TopShift(used);
    if bits != [] {
      if mask >> 1 == 0 {
        BitsSize(bits[1..], 0, 0x80, 0);
      } else {
        BitsSize(bits[1..], With(b, mask, bits[0]), mask >> 1, used + 1);
      }
    }
  }

  function Top(used: nat): bv8
    requires used < 8
  {
    if used == 0 then 0x80 else if used == 1 then 0x40 else if used == 2 then 0x20 else if used == 3 then 0x10
    else if used == 4 then 8 else if used == 5 then 4 else if used == 6 then 2 else 1
  }

  lemma TopShift(used: nat)
    requires used < 8
    ensures Top(used) >> 1 == (if used == 7 then 0 else Top(used + 1))
    ensures Top(used) >> 1 == 0 <==> used == 7
    ensures Top(used) == 0x80 <==> used == 0
  {
  }

  // Whether some file has a value; the loop stops at the first.
  method HasTime(files: Files, k: TimeKind) returns (hasTime: bool)
    ensures hasTime == AnySome(Times(files, k))
  {
    ghost var times := Times(files, k);
    for i := 0 to |files|
      invariant forall j :: 0 <= j < i ==> !Defined(times)[j]
    {
      if TimeOf(files[i], k).Some? {
        assert Defined(times)[i];
        return true;
      }
    }
    return false;
  }

  method HasAttributes(files: Files) returns (hasAttr: bool)
    ensures hasAttr == AnySome(Attributes(files))
  {
    ghost var values := Attributes(files);
    for i := 0 to |files|
      invariant forall j :: 0 <= j < i ==> !Defined(values)[j]
    {
      if files[i].attributes != 0 {
        assert Defined(values)[i];
        return true;
      }
    }
    return false;
  }

  method WriteTimes(w: Sink, files: Files, k: TimeKind)
    requires Sized(files)
    modifies w
    ensures w.out == old(w.out) + PutTimes(files, k)
  {
    hide PutExternalValues, PutProperty, PutNames, AnySome;
    var hasTime := HasTime(files, k);
    if hasTime {
      ExternalValuesLength(Times(files, k), 8);
      var body := WriteExternalValues(Times(files, k), 8);
      WriteProperty(w, TimeId(k), body);
    }
  }

  method WriteName(w: Sink, name: seq<u16>)
    modifies w
    ensures w.out == old(w.out) + PutName(name)
  {
    for i := 0 to |name|
      invariant w.out + PutName(name[i..]) == old(w.out) + PutName(name)
    {
      assert name[i..][1..] == name[i + 1..];
      w.WriteByte(name[i] % 0x100);
      w.WriteByte(name[i] / 0x100);
    }
    w.WriteByte(0);
    w.WriteByte(0);
  }

  method WriteNames(w: Sink, files: Files)
    requires Sized(files)
    modifies w
    ensures w.out == old(w.out) + PutFileNames(files)
  {
    hide PutName, PutProperty;
    var buf := new Sink();
    buf.WriteByte(0);
    ghost var names := Names(files);
    for i := 0 to |files|
      invariant buf.out + PutNames(names[i..]) == [0] + PutNames(names) && w.out == old(w.out)
    {
      assert names[i..][1..] == names[i + 1..];
      WriteName(buf, files[i].name);
    }
    assert buf.out == [0] + PutNames(names);
    WriteProperty(w, ID_NAME, buf.out);
  }

  method WriteAttributes(w: Sink, files: Files)
    requires Sized(files)
    modifies w
    ensures w.out == old(w.out) + PutAttributes(files)
  {
    hide PutExternalValues, PutProperty, PutNames, AnySome;
    var hasAttr := HasAttributes(files);
    if hasAttr {
      ExternalValuesLength(Attributes(files), 4);
      var body := WriteExternalValues(Attributes(files), 4);
      WriteProperty(w, ID_WIN_ATTRIBUTES, body);
    }
  }

  method WriteFilesInfo(w: Sink, files: Files)
    requires Sized(files)
    modifies w
    ensures w.out == old(w.out) + PutFilesInfo(files)
  {
    hide PutUint64, PutEmptyStreams, PutEmptyFiles, PutTimes, PutFileNames, PutAttributes, Sized;
    assert |files| <= MAX_UINT32 by {
      SizedCount(files);
    }
    WriteUint64(w, |files|);
    WriteEmptyStreams(w, files);
    WriteTimes(w, files, Created);
    WriteTimes(w, files, Accessed);
    WriteTimes(w, files, Modified);
    WriteNames(w, files);
    WriteAttributes(w, files);
    w.WriteByte(ID_END);
  }

  lemma SizedCount(files: Files)
    requires Sized(files)
    ensures |files| <= MAX_UINT32
  {
  }

  method WriteMainStreams(w: Sink, h: Header)
    requires PrintableHeader(h)
    modifies w
    ensures w.out == old(w.out) + PutMainStreams(h)
  {
    hide PutStreamsInfo, Printable, Sized;
    if h.streamsInfo.Some? {
      w.WriteByte(ID_MAIN_STREAMS_INFO);
      WriteStreamsInfo(w, h.streamsInfo.value);
    }
  }

  method WriteFilesSection(w: Sink, h: Header)
    requires PrintableHeader(h)
    modifies w
    ensures w.out == old(w.out) + PutFilesSection(h)
  {
    hide PutFilesInfo, Printable, Sized;
    if h.filesInfo.Some? {
      w.WriteByte(ID_FILES_INFO);
      WriteFilesInfo(w, h.filesInfo.value);
    }
  }

  method WriteHeader(w: Sink, h: Header)
    requires PrintableHeader(h)
    modifies w
    ensures w.out == old(w.out) + PutHeader(h)
  {
    hide PutMainStreams, PutFilesSection, PrintableHeader;
    WriteMainStreams(w, h);
    WriteFilesSection(w, h);
    w.WriteByte(ID_END);
  }
}
