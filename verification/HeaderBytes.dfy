/** Parts of a header byte by byte, as the 7z format has them. */
module HeaderBytes {
  import opened Basics
  import opened HeaderData
  import opened HeaderNumbers
  import opened HeaderStreams
  import opened HeaderFiles
  import opened HeaderRoundTrip
  import opened ArchiveState
  import opened ArchiveHeader

  // Little endian.
  function Four(v: u32): seq<byte> {
    [v % 0x100, v / 0x100 % 0x100, v / 0x1_0000 % 0x100, v / 0x100_0000]
  }

  function Eight(v: u64): seq<byte> {
    Four(v % 0x1_0000_0000) + Four(v / 0x1_0000_0000)
  }

  lemma Nest(v: nat)
    ensures var h, l := v / 0x1_0000_0000, v % 0x1_0000_0000;
            && v / 0x100 == h * 0x100_0000 + l / 0x100
            && v / 0x100 / 0x100 == h * 0x1_0000 + l / 0x1_0000
            && v / 0x100 / 0x100 / 0x100 == h * 0x100 + l / 0x100_0000
            && v / 0x100 / 0x100 / 0x100 / 0x100 == h
  {
  }

  lemma LowBytes(v: nat)
    ensures Four(v % 0x1_0000_0000)
            == [v % 0x100, v / 0x100 % 0x100, v / 0x100 / 0x100 % 0x100, v / 0x100 / 0x100 / 0x100 % 0x100]
  {
    var h, l := v / 0x1_0000_0000, v % 0x1_0000_0000;
    Nest(v);
    Only256(v, h * 0x100_0000, l);
    Only256(v / 0x100, h * 0x1_0000, l / 0x100);
    Only256(v / 0x100 / 0x100, h * 0x100, l / 0x1_0000);
    Only256(v / 0x100 / 0x100 / 0x100, h, l / 0x100_0000);
  }

  lemma Only256(v: nat, q: nat, l: nat)
    requires v == q * 0x100 + l
    ensures v % 0x100 == l % 0x100
  {
  }

  lemma LowAndHigh(v: nat, n: nat)
    requires n >= 4
    ensures ToLE(v, n) == Four(v % 0x1_0000_0000) + ToLE(v / 0x1_0000_0000, n - 4)
  {
    hide Four;
    LowBytes(v);
    Nest(v);
    var a := v / 0x100;
    var b := a / 0x100;
    var c := b / 0x100;
    assert ToLE(v, n) == [v % 0x100] + ToLE(a, n - 1);
    assert ToLE(a, n - 1) == [a % 0x100] + ToLE(b, n - 2);
    assert ToLE(b, n - 2) == [b % 0x100] + ToLE(c, n - 3);
    assert ToLE(c, n - 3) == [c % 0x100] + ToLE(c / 0x100, n - 4);
  }

  lemma FourIs(v: u32)
    ensures ToLE(v, 4) == Four(v)
  {
    hide Four, ToLE;
    LowAndHigh(v, 4);
    SmallRemainder(v, 0x1_0000_0000);
    NoBytes(v / 0x1_0000_0000);
  }

  lemma NoBytes(v: nat)
    ensures ToLE(v, 0) == []
  {
  }

  lemma EightIs(v: u64)
    ensures ToLE(v, 8) == Eight(v)
  {
    hide Four;
    LowAndHigh(v, 8);
    FourIs(v / 0x1_0000_0000);
  }

  // A number below 0x80 is its own byte; a larger one puts its length in front, its top bits
  // behind that, and the bytes below in little endian.
  lemma SmallNumber(v: u64)
    requires v < 0x80
    ensures PutUint64(v) == [v]
  {
  }

  lemma MiddleNumber(v: u64)
    requires 0x4000 <= v < 0x20_0000
    ensures PutUint64(v) == [0xc0 + v / 0x1_0000, v % 0x100, v / 0x100 % 0x100]
  {
    assert ToLE(v / 0x100, 1) == [v / 0x100 % 0x100];
    assert ToLE(v, 2) == [v % 0x100] + ToLE(v / 0x100, 1);
  }

  lemma LargeNumber(v: u64)
    requires v >= 0x100_0000_0000_0000
    ensures PutUint64(v) == [0xff] + Eight(v)
  {
    EightIs(v);
  }

  // --- bits ---

  // What the k-th bit of a byte counts, the highest first.
  function Worth(k: nat): nat
    requires k < 8
  {
    if k == 0 then 128 else if k == 1 then 64 else if k == 2 then 32 else if k == 3 then 16
    else if k == 4 then 8 else if k == 5 then 4 else if k == 6 then 2 else 1
  }

  // Bits from the k-th of a byte on, as far as there are any.
  function BitsOf(bits: seq<bool>, k: nat): nat
    requires k <= 8
    decreases 8 - k
  {
    if k == 8 || bits == [] then 0 else (if bits[0] then Worth(k) else 0) + BitsOf(bits[1..], k + 1)
  }

  function MaskOf(k: nat): bv8
    requires k < 8
  {
    if k == 0 then 0x80 else if k == 1 then 0x40 else if k == 2 then 0x20 else if k == 3 then 0x10
    else if k == 4 then 8 else if k == 5 then 4 else if k == 6 then 2 else 1
  }

  lemma NextMask(k: nat)
    requires k < 8
    ensures MaskOf(k) >> 1 == if k == 7 then 0 else MaskOf(k + 1)
    ensures MaskOf(k) != 0 && (MaskOf(k) == 0x80 <==> k == 0)
  {
  }

  lemma WithAdds(b: bv8, k: nat, bit: bool)
    requires k < 8 && Clear(b, MaskOf(k))
    ensures Num(With(b, MaskOf(k), bit)) == Num(b) + if bit then Worth(k) else 0
    ensures k < 7 ==> Clear(With(b, MaskOf(k), bit), MaskOf(k + 1))
  {
  }

  lemma OneBit(bits: seq<bool>, b: bv8, k: nat)
    requires k < 8 && bits != []
    ensures var v := With(b, MaskOf(k), bits[0]);
            PutBits(bits, b, MaskOf(k))
            == if k == 7 then [Num(v)] + PutBools(bits[1..]) else PutBits(bits[1..], v, MaskOf(k + 1))
  {
    hide MaskOf, With;
    NextMask(k);
    NextMask(if k < 7 then k + 1 else 7);
  }

  lemma BitsEnd(b: bv8, k: nat)
    requires k < 8
    ensures PutBits([], b, MaskOf(k)) == if k == 0 then [] else [Num(b)]
  {
    hide MaskOf;
    NextMask(k);
  }

  lemma BitsStep(bits: seq<bool>, k: nat)
    requires k < 8
    ensures BitsOf(bits, k)
            == if bits == [] then 0
               else (if bits[0] then Worth(k) else 0) + if k == 7 then 0 else BitsOf(bits[1..], k + 1)
  {
    hide Worth;
  }

  lemma {:induction false} BitsFrom(bits: seq<bool>, b: bv8, k: nat)
    requires k < 8 && Clear(b, MaskOf(k)) && (bits != [] || k > 0)
    ensures PutBits(bits, b, MaskOf(k))
            == [Num(b) + BitsOf(bits, k)] + if |bits| >= 8 - k then PutBools(bits[8 - k..]) else []
    decreases |bits|
  {
    hide MaskOf, Clear, With, Worth, PutBits, PutBools, BitsOf, Num;
    BitsStep(bits, k);
    if bits == [] {
      BitsEnd(b, k);
    } else {
      OneBit(bits, b, k);
      WithAdds(b, k, bits[0]);
      if k < 7 {
        BitsFrom(bits[1..], With(b, MaskOf(k), bits[0]), k + 1);
        assert |bits| >= 8 - k ==> bits[1..][8 - (k + 1)..] == bits[8 - k..];
      }
    }
  }

  lemma BoolsFrom(bits: seq<bool>, none: bv8)
    requires PutBools(bits) == PutBits(bits, none, MaskOf(0)) && Clear(none, MaskOf(0)) && Num(none) == 0
    ensures PutBools(bits)
            == if bits == [] then [] else [BitsOf(bits, 0)] + if |bits| >= 8 then PutBools(bits[8..]) else []
  {
    hide *;
    if bits == [] {
      BitsEnd(none, 0);
    } else {
      BitsFrom(bits, none, 0);
    }
  }

  // Eight bits make a byte, the first one its highest bit, and a byte that is not full ends with zeros.
  lemma BoolsBytes(bits: seq<bool>)
    ensures PutBools(bits)
            == if bits == [] then [] else [BitsOf(bits, 0)] + if |bits| >= 8 then PutBools(bits[8..]) else []
  {
    hide PutBits, MaskOf, Clear, Num, BitsOf;
    NothingSet(bits);
    BoolsFrom(bits, 0);
  }

  lemma NothingSet(bits: seq<bool>)
    ensures PutBools(bits) == PutBits(bits, 0, MaskOf(0)) && Clear(0, MaskOf(0)) && Num(0) == 0
  {
    hide PutBits;
  }

  // --- the folders of a writer ---

  lemma PlainFolder(c: Codec, inner: u64, total: u64)
    requires c.cipher.None?
    ensures var f := MetaFolder(c, inner, total);
            && GoodFolder(f) && f.size == [total]
            && PutFolder(f) == [1, 0x21, 0x21, 1, c.property]
  {
    hide PutUint64, PutCoder;
    MetaFolderGood(c, inner, total);
    SmallNumber(1);
    var f := MetaFolder(c, inner, total);
    var lzma2 := f.coder[0];
    Compressor(c.property);
    assert f.coder[1..] == [];
    assert PutCoders([]) == [];
    assert PutCoders(f.coder) == PutCoder(lzma2) + [];
  }

  // The cipher is the first coder; the compressor's input, number 1, is its output, number 0.
  lemma SecretFolder(c: Codec, inner: u64, total: u64)
    requires c.cipher.Some? && 0 < |c.cipher.value| <= MAX_UINT32
    ensures var p, f := c.cipher.value, MetaFolder(c, inner, total);
            && GoodFolder(f) && f.size == [inner, total]
            && PutFolder(f) == [2, 0x24, 0x06, 0xf1, 0x07, 0x01] + PutUint64(|p|) + p
                               + [0x21, 0x21, 1, c.property] + [1, 0]
  {
    hide PutUint64, PutCoder;
    MetaFolderGood(c, inner, total);
    SmallNumber(0);
    SmallNumber(1);
    SmallNumber(2);
    var f := MetaFolder(c, inner, total);
    var aes, lzma2 := f.coder[0], f.coder[1];
    Compressor(c.property);
    Cipher(c.cipher.value);
    assert f.coder[1..] == [lzma2] && [lzma2][1..] == [];
    assert PutCoders([]) == [];
    assert PutCoders([lzma2]) == PutCoder(lzma2) + [];
    assert PutCoders(f.coder) == PutCoder(aes) + PutCoder(lzma2);
    assert f.bindPair[1..] == [] && PutPairs([]) == [];
    assert PutPairs(f.bindPair) == [1, 0];
  }

  lemma SimpleCoder(c: Coder)
    requires GoodCoder(c) && c.ins == 1 && c.outs == 1 && c.properties != []
    ensures PutCoder(c) == [0x20 + |c.id|] + c.id + (PutUint64(|c.properties|) + c.properties)
  {
    hide PutUint64;
    assert Flags(c) == 0x20 + |c.id|;
  }

  lemma Compressor(property: byte)
    ensures PutCoder(Coder(LZMA2, 1, 1, [property])) == [0x21, 0x21, 1, property]
  {
    hide PutUint64, PutCoder;
    SmallNumber(1);
    SimpleCoder(Coder(LZMA2, 1, 1, [property]));
  }

  lemma Cipher(p: seq<byte>)
    requires 0 < |p| <= MAX_UINT32
    ensures PutCoder(Coder(AES, 1, 1, p)) == [0x24, 0x06, 0xf1, 0x07, 0x01] + PutUint64(|p|) + p
  {
    hide PutUint64, PutCoder;
    SimpleCoder(Coder(AES, 1, 1, p));
    assert [0x24] + AES == [0x24, 0x06, 0xf1, 0x07, 0x01];
  }

  // --- other coders ---

  // Streams are counted when there are several: inputs, then outputs.
  lemma ManyStreams(id: seq<byte>, ins: nat, outs: nat)
    requires |id| < 0x10 && 0 < ins < 0x80 && 0 < outs < 0x80 && (ins > 1 || outs > 1)
    ensures PutCoder(Coder(id, ins, outs, [])) == [0x10 + |id|] + id + [ins, outs]
  {
    hide PutUint64;
    SmallNumber(ins);
    SmallNumber(outs);
  }

  // And where several of them are packed, their numbers end the folder.
  lemma ManyPacked(f: Folder)
    requires GoodFolder(f) && |f.coder| == 1 && f.bindPair == [] && f.packedStreams > 1
    requires forall i :: 0 <= i < |f.packed| ==> f.packed[i] < 0x80
    ensures PutFolder(f) == [1] + PutCoder(f.coder[0]) + f.packed
  {
    hide PutUint64, PutCoder, PutSizes, GoodCoder;
    SmallNumber(1);
    SmallSizes(f.packed);
    assert f.coder[1..] == [] && PutCoders([]) == [] && PutPairs([]) == [];
    assert PutCoders(f.coder) == PutCoder(f.coder[0]) + [];
  }

  lemma SmallSizes(sizes: seq<u64>)
    requires forall i :: 0 <= i < |sizes| ==> sizes[i] < 0x80
    ensures PutSizes(sizes) == sizes
  {
    hide PutUint64;
    if sizes != [] {
      SmallNumber(sizes[0]);
      SmallSizes(sizes[1..]);
      assert sizes == [sizes[0]] + sizes[1..];
    }
  }

  // --- a header with one file ---

  function OneStream(c: Codec, packed: u64, size: u64, crc: u32): StreamsInfo {
    StreamsInfo(Some(PackInfo(0, 1, [packed], [])), Some(UnpackInfo([MetaFolder(c, 0, size)], [])),
                Some(SubStreamsInfo([1], [size], [crc])))
  }

  function OneFile(unit: u16, created: u64, accessed: u64, modified: u64, attributes: u32): FileHeader {
    FileHeader([unit], Some(created), Some(accessed), Some(modified), attributes, 0, 0, false, false)
  }

  lemma OneCRC(v: u32)
    ensures PutCRC(Somes([v])) == [1] + Four(v)
  {
    hide Four;
    FourIs(v);
    var values := Somes([v]);
    assert values == [Some(v)] && values[1..] == [];
    assert AllTrue(Defined(values));
    assert PutValues([], 4) == [];
    assert PutValues(values, 4) == Four(v) + [];
  }

  lemma OnePackBytes(packed: u64)
    requires packed < 0x80
    ensures PutPackInfo(PackInfo(0, 1, [packed], [])) == [0, 1, 0x09, packed, 0]
  {
    hide PutUint64;
    SmallNumber(0);
    SmallNumber(1);
    SmallSizes([packed]);
  }

  lemma OneFolderBytes(c: Codec, size: u64)
    requires c.cipher.None? && size < 0x80
    ensures var u := UnpackInfo([MetaFolder(c, 0, size)], []);
            && PrintableUnpack(u)
            && PutUnpackInfo(u) == [0x0b, 1, 0, 1, 0x21, 0x21, 1, c.property, 0x0c, size, 0]
  {
    hide PutUint64, MetaFolder, PutFolder, GoodFolder, PutSizes;
    PlainFolder(c, 0, size);
    SmallNumber(1);
    SmallSizes([size]);
    var f := MetaFolder(c, 0, size);
    assert [f][1..] == [] && PutFolders([]) == [] && PutFolderSizes([]) == [];
    assert PutFolders([f]) == PutFolder(f) + [];
    assert PutFolderSizes([f]) == [size] + [];
  }

  lemma OneSubBytes(size: u64, crc: u32)
    ensures var sub := SubStreamsInfo([1], [size], [crc]);
            Sum(sub.streams) == 1 && PutSubStreamsInfo(sub) == [0x0a, 1] + Four(crc) + [0]
  {
    hide PutCRC, Four;
    OneCRC(crc);
    var n: seq<u64> := [1];
    assert n[1..] == [] && Sum([]) == 0 && AllOnes(1) == n;
  }

  lemma OneStreamBytes(c: Codec, packed: u64, size: u64, crc: u32)
    requires c.cipher.None? && packed < 0x80 && size < 0x80
    ensures var i := OneStream(c, packed, size, crc);
            && Printable(i)
            && PutStreamsInfo(i) == [0x06, 0, 1, 0x09, packed, 0]
                                    + [0x07, 0x0b, 1, 0, 1, 0x21, 0x21, 1, c.property, 0x0c, size, 0]
                                    + [0x08, 0x0a, 1] + Four(crc) + [0, 0]
  {
    hide PutPackInfo, PutUnpackInfo, PutSubStreamsInfo, PrintableUnpack, Sum, Four, MetaFolder;
    OnePackBytes(packed);
    OneFolderBytes(c, size);
    OneSubBytes(size, crc);
    var i := OneStream(c, packed, size, crc);
    var p: seq<byte> := [0x06, 0, 1, 0x09, packed, 0];
    var u: seq<byte> := [0x07, 0x0b, 1, 0, 1, 0x21, 0x21, 1, c.property, 0x0c, size, 0];
    var s := [0x08, 0x0a, 1] + Four(crc) + [0];
    assert Printable(i);
    assert PutPackSection(i) == p;
    assert PutUnpackSection(i) == u;
    assert PutSubStreamsSection(i) == s;
    Ends(p + u, [0x08, 0x0a, 1] + Four(crc));
  }

  lemma Ends(a: seq<byte>, b: seq<byte>)
    ensures a + (b + [0]) + [0] == a + b + [0, 0]
  {
  }

  lemma OneValue(v: nat, width: nat)
    ensures AnySome([Some(v)])
    ensures PutExternalValues([Some(v)], width) == [1, 0] + ToLE(v, width)
  {
    hide ToLE;
    var values: seq<Option<nat>> := [Some(v)];
    var none: seq<Option<nat>> := values[1..];
    assert none == [] && PutValues(none, width) == [];
    assert Defined(values)[0];
  }

  lemma OneTime(f: FileHeader, k: TimeKind, time: u64)
    requires Sized([f]) && TimeOf(f, k) == Some(time)
    ensures PutTimes([f], k)
            == [if k == Created then 0x12 else if k == Accessed then 0x13 else 0x14, 10, 1, 0] + Eight(time)
  {
    hide PutUint64, PutExternalValues, AnySome, Eight, Sized, ToLE;
    EightIs(time);
    SmallNumber(10);
    OneValue(time, 8);
    assert Times([f], k) == [Some(time)];
  }

  lemma OneName(f: FileHeader, unit: u16)
    requires f.name == [unit]
    ensures Sized([f])
    ensures PutFileNames([f]) == [0x11, 5, 0, unit % 0x100, unit / 0x100, 0, 0]
  {
    SmallNumber(5);
    assert [unit][1..] == [] && PutName([]) == [0, 0];
    assert PutName([unit]) == [unit % 0x100, unit / 0x100, 0, 0];
    assert Names([f]) == [[unit]] && [[unit]][1..] == [];
    assert PutNames([]) == [];
    assert PutNames([[unit]]) == PutName([unit]) + [];
  }

  lemma OneAttributes(f: FileHeader)
    requires Sized([f]) && f.attributes != 0
    ensures PutAttributes([f]) == [0x15, 6, 1, 0] + Four(f.attributes)
  {
    hide PutUint64, PutExternalValues, AnySome, Four, Sized, ToLE;
    FourIs(f.attributes);
    SmallNumber(6);
    OneValue(f.attributes, 4);
    assert Attributes([f]) == [Some(f.attributes)];
  }

  lemma OneFileBytes(unit: u16, created: u64, accessed: u64, modified: u64, attributes: u32)
    requires attributes != 0
    ensures var f := OneFile(unit, created, accessed, modified, attributes);
            && Sized([f])
            && PutFilesInfo([f]) == [1] + ([0x12, 10, 1, 0] + Eight(created)) + ([0x13, 10, 1, 0] + Eight(accessed))
                                    + ([0x14, 10, 1, 0] + Eight(modified))
                                    + [0x11, 5, 0, unit % 0x100, unit / 0x100, 0, 0]
                                    + ([0x15, 6, 1, 0] + Four(attributes)) + [0]
  {
    hide PutUint64, PutTimes, PutFileNames, PutAttributes, Four, Eight, Sized;
    var f := OneFile(unit, created, accessed, modified, attributes);
    OneName(f, unit);
    OneTime(f, Created, created);
    OneTime(f, Accessed, accessed);
    OneTime(f, Modified, modified);
    OneAttributes(f);
    SmallNumber(1);
    assert EmptyStreams([f]) == [false];
    assert PutEmptyStreams([f]) == [] && PutEmptyFiles([f]) == [];
  }

  // A property that no file has is left out.
  lemma LeftOut(f: FileHeader, k: TimeKind)
    requires Sized([f])
    ensures TimeOf(f, k).None? ==> PutTimes([f], k) == []
    ensures f.attributes == 0 ==> PutAttributes([f]) == []
  {
    hide Sized;
    assert TimeOf(f, k).None? ==> !AnySome(Times([f], k));
    assert f.attributes == 0 ==> !AnySome(Attributes([f]));
  }

  lemma FirstOfTwo()
    ensures PutBools([true]) == [0x80] && PutBools([false]) == [0] && PutBools([true, false]) == [0x80]
  {
    hide PutBools;
    BoolsBytes([true]);
    BoolsBytes([false]);
    BoolsBytes([true, false]);
    assert [true][1..] == [] && [false][1..] == [] && [true, false][1..] == [false];
    assert BitsOf([], 1) == 0 && BitsOf([], 2) == 0;
    assert BitsOf([false], 1) == 0;
  }

  lemma EmptyBytes(f: FileHeader)
    requires Sized([f])
    ensures PutEmptyStreams([f]) == if f.isEmptyStream then [0x0e, 1, 0x80] else []
    ensures PutEmptyFiles([f]) == if f.isEmptyStream && f.isEmptyFile then [0x0f, 1, 0x80] else []
  {
    hide PutUint64, PutBools, Sized;
    SmallNumber(1);
    FirstOfTwo();
    assert EmptyStreams([f]) == [f.isEmptyStream] && EmptyStreams([f])[0] == f.isEmptyStream;
    assert [f][1..] == [] && EmptyFiles([]) == [];
    assert EmptyFiles([f]) == if f.isEmptyStream then [f.isEmptyFile] else [];
    assert f.isEmptyStream ==> EmptyFiles([f])[0] == f.isEmptyFile;
  }

  // A file that has only a name, with data or without.
  lemma NamedBytes(f: FileHeader, unit: u16)
    requires f.name == [unit] && f.attributes == 0 && f.created.None? && f.accessed.None? && f.modified.None?
    ensures Sized([f])
    ensures PutFilesInfo([f]) == [1] + (if f.isEmptyStream then [0x0e, 1, 0x80] else [])
                                 + (if f.isEmptyStream && f.isEmptyFile then [0x0f, 1, 0x80] else [])
                                 + [0x11, 5, 0, unit % 0x100, unit / 0x100, 0, 0] + [0]
  {
    hide PutUint64, PutFileNames, PutEmptyStreams, PutEmptyFiles, PutTimes, PutAttributes, Sized;
    OneName(f, unit);
    SmallNumber(1);
    EmptyBytes(f);
    LeftOut(f, Created);
    LeftOut(f, Accessed);
    LeftOut(f, Modified);
  }

  // Attributes of the first of two files only.
  lemma TwoAttributes(f: FileHeader, g: FileHeader)
    requires Sized([f, g]) && f.attributes != 0 && g.attributes == 0
    ensures PutAttributes([f, g]) == [0x15, 7, 0, 0x80, 0] + Four(f.attributes)
  {
    hide PutUint64, PutExternalValues, AnySome, Four, Sized, ToLE;
    FourIs(f.attributes);
    SmallNumber(7);
    FirstOfValues(f.attributes);
    assert Attributes([f, g]) == [Some(f.attributes), None];
  }

  lemma FirstOfValues(v: u32)
    ensures AnySome([Some(v), None])
    ensures PutExternalValues([Some(v), None], 4) == [0, 0x80, 0] + ToLE(v, 4)
  {
    hide PutBools, ToLE;
    FirstOfTwo();
    var values: seq<Option<nat>> := [Some(v), None];
    var none: seq<Option<nat>> := [];
    assert values[1..][1..] == none && PutValues(none, 4) == [];
    assert PutValues(values[1..], 4) == [];
    var bits := Defined(values);
    assert bits == [true, false] && bits[0] && !bits[1];
  }

  lemma OneHeaderBytes(c: Codec, packed: u64, size: u64, crc: u32, f: FileHeader)
    requires c.cipher.None? && packed < 0x80 && size < 0x80 && Sized([f])
    ensures var h := Header(Some(OneStream(c, packed, size, crc)), Some([f]));
            && PrintableHeader(h)
            && PutHeader(h) == [0x04] + ([0x06, 0, 1, 0x09, packed, 0]
                                         + [0x07, 0x0b, 1, 0, 1, 0x21, 0x21, 1, c.property, 0x0c, size, 0]
                                         + [0x08, 0x0a, 1] + Four(crc) + [0, 0])
                               + ([0x05] + PutFilesInfo([f])) + [0]
  {
    hide PutStreamsInfo, OneStream, PutFilesInfo, Sized, Printable, Four;
    OneStreamBytes(c, packed, size, crc);
  }

  // Several files in a folder: their number and all their sizes but the last are listed.
  lemma TwoInOne(a: u64, b: u64, crc: u32)
    requires a < 0x80
    ensures PutSubStreamsInfo(SubStreamsInfo([2], [a, b], [crc, crc]))
            == [0x0d, 2, 0x09, a, 0x0a, 1] + Four(crc) + Four(crc) + [0]
  {
    hide PutCountSection, PutShareSection, Sum, PutCRC, Four;
    TwoCRC(crc);
    TwoCounted();
    TwoShared(a, b);
  }

  lemma TwoCounted()
    ensures PutCountSection([2]) == [0x0d, 2]
  {
    hide PutSizes;
    SmallSizes([2]);
    assert AllOnes(1)[0] == 1;
  }

  lemma TwoShared(a: u64, b: u64)
    requires a < 0x80
    ensures Sum([2]) == 2 && PutShareSection([2], [a, b]) == [0x09, a]
  {
    hide PutSizes;
    var n: seq<u64> := [2];
    SmallSizes([a]);
    assert n[1..] == [] && Sum([]) == 0 && Sum(n) == 2;
    assert [a, b][..1] == [a] && [a, b][2..] == [] && PutShares([], []) == [];
    assert PutShares(n, [a, b]) == [a];
    assert n[0] > 1 && AnyShared(n);
  }

  lemma TwoCRC(crc: u32)
    ensures PutCRC(Somes([crc, crc])) == [1] + Four(crc) + Four(crc)
  {
    hide Four, ToLE;
    FourIs(crc);
    var values: seq<Option<nat>> := Somes([crc, crc]);
    assert AllTrue(Defined(values));
    assert PutValues([], 4) == [];
    assert PutValues(values[1..], 4) == Four(crc) + [];
    assert PutValues(values, 4) == Four(crc) + Four(crc);
  }
}
