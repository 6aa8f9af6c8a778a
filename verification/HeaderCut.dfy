/** What is read depends only on the bytes that are taken; so no header that is cut short can be read. */
module HeaderCut {
  import opened Basics
  import opened HeaderData
  import opened HeaderNumbers
  import opened HeaderStreams
  import opened HeaderFiles
  import opened HeaderRoundTrip

  // With x behind the bytes, reading gives the same and leaves x as well.
  ghost predicate Same<T>(r: Parse<T>, more: Parse<T>, x: seq<byte>) {
    r.Ok? ==> more == Ok(r.value, r.rest + x)
  }

  lemma DropThenAdd(s: seq<byte>, n: nat, x: seq<byte>)
    requires n <= |s|
    ensures (s + x)[..n] == s[..n] && (s + x)[n..] == s[n..] + x
  {
  }

  // --- numbers and lists ---

  lemma ByteSame(s: seq<byte>, x: seq<byte>)
    ensures Same(GetByte(s), GetByte(s + x), x)
  {
    if s != [] {
      DropThenAdd(s, 1, x);
    }
  }

  lemma Uint64Same(s: seq<byte>, x: seq<byte>)
    ensures Same(GetUint64(s), GetUint64(s + x), x)
  {
    hide LeadingOnes, Lead, Pow256, FromLE;
    if s != [] {
      var l := LeadingOnes(s[0]);
      DropThenAdd(s, 1, x);
      if l <= |s[1..]| {
        DropThenAdd(s[1..], l, x);
      }
    }
  }

  lemma BoundedSame(s: seq<byte>, nonZero: bool, x: seq<byte>)
    ensures Same(GetBounded(s, nonZero), GetBounded(s + x, nonZero), x)
  {
    hide GetUint64;
    Uint64Same(s, x);
  }

  lemma {:induction false} BitsSame(s: seq<byte>, b: bv8, mask: bv8, count: nat, x: seq<byte>)
    ensures Same(GetBits(s, b, mask, count), GetBits(s + x, b, mask, count), x)
    decreases count, mask == 0
  {
    hide Bit, AsBits;
    if count > 0 {
      if mask != 0 {
        BitsSame(s, b, mask >> 1, count - 1, x);
      } else if s != [] {
        DropThenAdd(s, 1, x);
        BitsSame(s[1..], AsBits(s[0]), 0x80, count, x);
      }
    }
  }

  lemma BoolsSame(s: seq<byte>, count: nat, x: seq<byte>)
    ensures Same(GetBools(s, count), GetBools(s + x, count), x)
  {
    hide GetBits;
    BitsSame(s, 0, 0, count, x);
  }

  lemma OptionalBoolsSame(s: seq<byte>, count: nat, x: seq<byte>)
    ensures Same(GetOptionalBools(s, count), GetOptionalBools(s + x, count), x)
  {
    hide GetBools;
    if s != [] {
      DropThenAdd(s, 1, x);
      BoolsSame(s[1..], count, x);
    }
  }

  lemma {:induction false} SizeListSame(s: seq<byte>, count: nat, x: seq<byte>)
    ensures Same(GetSizeList(s, count), GetSizeList(s + x, count), x)
    decreases count
  {
    hide GetUint64;
    Uint64Same(s, x);
    if count > 0 && GetUint64(s).Ok? {
      SizeListSame(GetUint64(s).rest, count - 1, x);
    }
  }

  lemma ValueSame(s: seq<byte>, defined: bool, width: nat, x: seq<byte>)
    requires width <= 8
    ensures Same(GetValue(s, defined, width), GetValue(s + x, defined, width), x)
  {
    hide FromLE, Pow256;
    if width <= |s| {
      DropThenAdd(s, width, x);
    }
  }

  lemma {:induction false} ValuesSame(s: seq<byte>, defined: seq<bool>, width: nat, x: seq<byte>)
    requires width <= 8
    ensures Same(GetValues(s, defined, width), GetValues(s + x, defined, width), x)
    decreases |defined|
  {
    hide GetValue, FitsIn;
    if defined != [] {
      ValueSame(s, defined[0], width, x);
      if GetValue(s, defined[0], width).Ok? {
        ValuesSame(GetValue(s, defined[0], width).rest, defined[1..], width, x);
      }
    }
  }

  lemma CRCSame(s: seq<byte>, count: nat, x: seq<byte>)
    ensures Same(GetCRC(s, count), GetCRC(s + x, count), x)
  {
    hide GetOptionalBools, GetValues, Fit;
    OptionalBoolsSame(s, count, x);
    var d := GetOptionalBools(s, count);
    if d.Ok? {
      ValuesSame(d.rest, d.value, 4, x);
    }
  }

  lemma BytesSame(s: seq<byte>, n: nat, x: seq<byte>)
    ensures Same(GetBytes(s, n), GetBytes(s + x, n), x)
  {
    if n <= |s| {
      DropThenAdd(s, n, x);
    }
  }

  // --- streams ---

  lemma SizeSectionSame(id: byte, s: seq<byte>, count: nat, x: seq<byte>)
    ensures Same(GetSizeSection(id, s, count), GetSizeSection(id, s + x, count), x)
  {
    hide GetSizeList, GetByte;
    SizeListSame(s, count, x);
    if GetSizeList(s, count).Ok? {
      ByteSame(GetSizeList(s, count).rest, x);
    }
  }

  lemma DigestSectionSame(id: byte, s: seq<byte>, count: nat, x: seq<byte>)
    ensures Same(GetDigestSection(id, s, count), GetDigestSection(id, s + x, count), x)
  {
    hide GetCRC, GetByte;
    CRCSame(s, count, x);
    if GetCRC(s, count).Ok? {
      ByteSame(GetCRC(s, count).rest, x);
    }
  }

  lemma PackInfoSame(s: seq<byte>, x: seq<byte>)
    ensures Same(GetPackInfo(s), GetPackInfo(s + x), x)
  {
    hide GetUint64, GetBounded, GetByte, GetSizeSection, GetDigestSection;
    Uint64Same(s, x);
    var p := GetUint64(s);
    if p.Ok? {
      BoundedSame(p.rest, true, x);
      var n := GetBounded(p.rest, true);
      if n.Ok? {
        ByteSame(n.rest, x);
        var b := GetByte(n.rest);
        if b.Ok? {
          SizeSectionSame(b.value, b.rest, n.value, x);
          var z := GetSizeSection(b.value, b.rest, n.value);
          if z.Ok? {
            DigestSectionSame(z.value.1, z.rest, n.value, x);
          }
        }
      }
    }
  }

  lemma StreamCountsSame(v: byte, s: seq<byte>, x: seq<byte>)
    ensures Same(GetStreamCounts(v, s), GetStreamCounts(v, s + x), x)
  {
    hide GetBounded;
    BoundedSame(s, true, x);
    if GetBounded(s, true).Ok? {
      BoundedSame(GetBounded(s, true).rest, true, x);
    }
  }

  lemma PropertiesSame(v: byte, s: seq<byte>, x: seq<byte>)
    ensures Same(GetProperties(v, s), GetProperties(v, s + x), x)
  {
    hide GetBounded, GetBytes;
    BoundedSame(s, true, x);
    var n := GetBounded(s, true);
    if n.Ok? {
      BytesSame(n.rest, n.value, x);
    }
  }

  lemma CoderSame(s: seq<byte>, x: seq<byte>)
    ensures Same(GetCoder(s), GetCoder(s + x), x)
  {
    hide GetByte, GetBytes, GetStreamCounts, GetProperties;
    ByteSame(s, x);
    var v := GetByte(s);
    if v.Ok? {
      BytesSame(v.rest, v.value % 0x10, x);
      var id := GetBytes(v.rest, v.value % 0x10);
      if id.Ok? {
        StreamCountsSame(v.value, id.rest, x);
        var n := GetStreamCounts(v.value, id.rest);
        if n.Ok? {
          PropertiesSame(v.value, n.rest, x);
        }
      }
    }
  }

  lemma {:induction false} CodersSame(s: seq<byte>, count: nat, x: seq<byte>)
    ensures Same(GetCoders(s, count), GetCoders(s + x, count), x)
    decreases count
  {
    hide GetCoder;
    CoderSame(s, x);
    if count > 0 && GetCoder(s).Ok? {
      CodersSame(GetCoder(s).rest, count - 1, x);
    }
  }

  lemma PairSame(s: seq<byte>, x: seq<byte>)
    ensures Same(GetPair(s), GetPair(s + x), x)
  {
    hide GetBounded;
    BoundedSame(s, false, x);
    if GetBounded(s, false).Ok? {
      BoundedSame(GetBounded(s, false).rest, false, x);
    }
  }

  lemma {:induction false} PairsSame(s: seq<byte>, count: nat, x: seq<byte>)
    ensures Same(GetPairs(s, count), GetPairs(s + x, count), x)
    decreases count
  {
    hide GetPair;
    PairSame(s, x);
    if count > 0 && GetPair(s).Ok? {
      PairsSame(GetPair(s).rest, count - 1, x);
    }
  }

  lemma FolderSame(s: seq<byte>, x: seq<byte>)
    ensures Same(GetFolder(s), GetFolder(s + x), x)
  {
    hide GetBounded, GetCoders, GetPairs, GetSizeList, SumIns, SumOuts, UnboundIns;
    BoundedSame(s, true, x);
    var n := GetBounded(s, true);
    if n.Ok? {
      CodersSame(n.rest, n.value, x);
      var c := GetCoders(n.rest, n.value);
      if c.Ok? {
        var ins, outs := SumIns(c.value), SumOuts(c.value);
        if 0 < outs <= ins {
          PairsSame(c.rest, outs - 1, x);
          var p := GetPairs(c.rest, outs - 1);
          if p.Ok? {
            SizeListSame(p.rest, ins - (outs - 1), x);
          }
        }
      }
    }
  }

  lemma {:induction false} FoldersSame(s: seq<byte>, count: nat, x: seq<byte>)
    ensures Same(GetFolders(s, count), GetFolders(s + x, count), x)
    decreases count
  {
    hide GetFolder;
    FolderSame(s, x);
    if count > 0 && GetFolder(s).Ok? {
      FoldersSame(GetFolder(s).rest, count - 1, x);
    }
  }

  lemma {:induction false} FolderSizesSame(s: seq<byte>, folders: seq<Folder>, x: seq<byte>)
    ensures Same(GetFolderSizes(s, folders), GetFolderSizes(s + x, folders), x)
    decreases |folders|
  {
    hide GetSizeList, SumOuts;
    if folders != [] {
      var n := SumOuts(folders[0].coder);
      SizeListSame(s, n, x);
      if GetSizeList(s, n).Ok? {
        FolderSizesSame(GetSizeList(s, n).rest, folders[1..], x);
      }
    }
  }

  lemma IdSame(s: seq<byte>, id: byte, x: seq<byte>)
    ensures Same(GetId(s, id), GetId(s + x, id), x)
  {
    hide GetByte;
    ByteSame(s, x);
  }

  lemma UnpackInfoSame(s: seq<byte>, x: seq<byte>)
    ensures Same(GetUnpackInfo(s), GetUnpackInfo(s + x), x)
  {
    hide GetId, GetBounded, GetByte, GetFolders, GetFolderSizes, GetDigestSection;
    IdSame(s, ID_FOLDER, x);
    var a := GetId(s, ID_FOLDER);
    if a.Err? { return; }
    BoundedSame(a.rest, true, x);
    var n := GetBounded(a.rest, true);
    if n.Err? { return; }
    ByteSame(n.rest, x);
    var e := GetByte(n.rest);
    if e.Err? { return; }
    FoldersSame(e.rest, n.value, x);
    var f := GetFolders(e.rest, n.value);
    if f.Err? { return; }
    IdSame(f.rest, ID_CODERS_UNPACK_SIZE, x);
    var c := GetId(f.rest, ID_CODERS_UNPACK_SIZE);
    if c.Err? { return; }
    FolderSizesSame(c.rest, f.value, x);
    var z := GetFolderSizes(c.rest, f.value);
    if z.Err? { return; }
    ByteSame(z.rest, x);
    var b := GetByte(z.rest);
    if b.Err? { return; }
    DigestSectionSame(b.value, b.rest, n.value, x);
  }

  lemma ShareSame(s: seq<byte>, count: u64, unpackSize: u64, room: nat, x: seq<byte>)
    ensures Same(GetShare(s, count, unpackSize, room), GetShare(s + x, count, unpackSize, room), x)
  {
    hide GetSizeList, Sum;
    if count > 0 {
      SizeListSame(s, if count - 1 < room then count - 1 else room, x);
    }
  }

  lemma {:induction false} SharesSame(s: seq<byte>, streams: seq<u64>, folders: seq<Folder>, room: nat, x: seq<byte>)
    requires |streams| == |folders|
    ensures Same(GetShares(s, streams, folders, room), GetShares(s + x, streams, folders, room), x)
    decreases |streams|
  {
    hide GetShare, UnpackSize;
    if streams != [] {
      ShareSame(s, streams[0], UnpackSize(folders[0]), room, x);
      var h := GetShare(s, streams[0], UnpackSize(folders[0]), room);
      if h.Ok? {
        SharesSame(h.rest, streams[1..], folders[1..], room - |h.value|, x);
      }
    }
  }

  lemma StreamsSame(id: byte, s: seq<byte>, folders: nat, x: seq<byte>)
    ensures Same(GetStreams(id, s, folders), GetStreams(id, s + x, folders), x)
  {
    hide GetSizeList, GetByte, AllOnes;
    SizeListSame(s, folders, x);
    if GetSizeList(s, folders).Ok? {
      ByteSame(GetSizeList(s, folders).rest, x);
    }
  }

  lemma ShareSectionSame(id: byte, s: seq<byte>, streams: seq<u64>, folders: seq<Folder>, files: nat, x: seq<byte>)
    requires |streams| == |folders|
    ensures var r := GetShareSection(id, s, streams, folders, files);
            Same(r, GetShareSection(id, s + x, streams, folders, files), x)
  {
    hide GetShares, GetByte;
    SharesSame(s, streams, folders, files, x);
    if GetShares(s, streams, folders, files).Ok? {
      ByteSame(GetShares(s, streams, folders, files).rest, x);
    }
  }

  lemma SubStreamsSame(s: seq<byte>, folders: seq<Folder>, x: seq<byte>)
    ensures Same(GetSubStreamsInfo(s, folders), GetSubStreamsInfo(s + x, folders), x)
  {
    hide GetByte, GetStreams, GetShareSection, GetDigestSection, Sum;
    ByteSame(s, x);
    var b := GetByte(s);
    if b.Ok? {
      StreamsSame(b.value, b.rest, |folders|, x);
      var n := GetStreams(b.value, b.rest, |folders|);
      if n.Ok? {
        var files := Sum(n.value.0) % TWO64;
        ShareSectionSame(n.value.1, n.rest, n.value.0, folders, files, x);
        var z := GetShareSection(n.value.1, n.rest, n.value.0, folders, files);
        if z.Ok? {
          DigestSectionSame(z.value.1, z.rest, files, x);
        }
      }
    }
  }

  lemma PackSectionSame(id: byte, s: seq<byte>, x: seq<byte>)
    ensures Same(GetPackSection(id, s), GetPackSection(id, s + x), x)
  {
    hide GetPackInfo, GetByte;
    PackInfoSame(s, x);
    if GetPackInfo(s).Ok? {
      ByteSame(GetPackInfo(s).rest, x);
    }
  }

  lemma UnpackSectionSame(id: byte, s: seq<byte>, x: seq<byte>)
    ensures Same(GetUnpackSection(id, s), GetUnpackSection(id, s + x), x)
  {
    hide GetUnpackInfo, GetByte;
    UnpackInfoSame(s, x);
    if GetUnpackInfo(s).Ok? {
      ByteSame(GetUnpackInfo(s).rest, x);
    }
  }

  lemma SubSectionSame(id: byte, s: seq<byte>, unpack: Option<UnpackInfo>, x: seq<byte>)
    ensures Same(GetSubStreamsSection(id, s, unpack), GetSubStreamsSection(id, s + x, unpack), x)
  {
    hide GetSubStreamsInfo, GetByte;
    if unpack.Some? {
      SubStreamsSame(s, unpack.value.folder, x);
      var i := GetSubStreamsInfo(s, unpack.value.folder);
      if i.Ok? {
        ByteSame(i.rest, x);
      }
    }
  }

  lemma StreamsInfoSame(s: seq<byte>, x: seq<byte>)
    ensures Same(GetStreamsInfo(s), GetStreamsInfo(s + x), x)
  {
    hide GetByte, GetPackSection, GetUnpackSection, GetSubStreamsSection;
    ByteSame(s, x);
    var b := GetByte(s);
    if b.Ok? {
      PackSectionSame(b.value, b.rest, x);
      var p := GetPackSection(b.value, b.rest);
      if p.Ok? {
        UnpackSectionSame(p.value.1, p.rest, x);
        var u := GetUnpackSection(p.value.1, p.rest);
        if u.Ok? {
          SubSectionSame(u.value.1, u.rest, u.value.0, x);
        }
      }
    }
  }

  // --- files ---

  lemma ExternalSame<T>(s: seq<byte>, value: T, x: seq<byte>)
    ensures Same(GetExternal(s, value), GetExternal(s + x, value), x)
  {
    hide GetByte;
    ByteSame(s, x);
  }

  lemma ExternalValuesSame(s: seq<byte>, count: nat, width: nat, x: seq<byte>)
    requires width <= 8
    ensures Same(GetExternalValues(s, count, width), GetExternalValues(s + x, count, width), x)
  {
    hide GetOptionalBools, GetExternal, GetValues, Fit;
    OptionalBoolsSame(s, count, x);
    var d := GetOptionalBools(s, count);
    if d.Ok? {
      ExternalSame(d.rest, (), x);
      var e := GetExternal(d.rest, ());
      if e.Ok? {
        ValuesSame(e.rest, d.value, width, x);
      }
    }
  }

  // Names end with their limit or with the bytes; when something is left, it was the limit.
  lemma NamesSame(s: seq<byte>, count: nat, length: u64, x: seq<byte>)
    requires GetNames(s, count, length).Ok? && GetNames(s, count, length).rest != []
    ensures Same(GetNames(s, count, length), GetNames(s + x, count, length), x)
  {
    hide GetExternal, Split, Units;
    ExternalSame(s, (), x);
    var t := GetExternal(s, ()).rest;
    var n := Limit(length);
    assert n <= |t|;
    DropThenAdd(t, n, x);
  }

  lemma PropertySame(id: byte, length: u64, s: seq<byte>, files: Files, empty: nat, x: seq<byte>)
    requires GetProperty(id, length, s, files, empty).Ok? && GetProperty(id, length, s, files, empty).rest != []
    ensures Same(GetProperty(id, length, s, files, empty), GetProperty(id, length, s + x, files, empty), x)
  {
    hide GetNames, GetBools, GetExternalValues, SetEmptyStreams, SetEmptyFiles, SetTimes, SetNames, SetAttributes, Fit,
      CountEmpty, CountTrue, Filled;
    if id == ID_EMPTY_STREAM {
      BoolsSame(s, |files|, x);
    } else if id == ID_EMPTY_FILE {
      BoolsSame(s, empty, x);
    } else if id == ID_CTIME || id == ID_ATIME || id == ID_MTIME {
      ExternalValuesSame(s, |files|, 8, x);
    } else if id == ID_NAME {
      NamesSame(s, |files|, length, x);
    } else if id == ID_WIN_ATTRIBUTES {
      ExternalValuesSame(s, |files|, 4, x);
    } else if length < 0x8000_0000_0000_0000 && length <= |s| {
      DropThenAdd(s, length, x);
    }
  }

  lemma {:induction false} FilePropertiesSame(s: seq<byte>, files: Files, empty: nat, x: seq<byte>)
    ensures Same(GetFileProperties(s, files, empty), GetFileProperties(s + x, files, empty), x)
    decreases |s|
  {
    hide GetProperty, GetUint64;
    ByteSame(s, x);
    var b := GetByte(s);
    if GetFileProperties(s, files, empty).Ok? && b.value != ID_END {
      Uint64Same(b.rest, x);
      var n := GetUint64(b.rest);
      var p := GetProperty(b.value, n.value, n.rest, files, empty);
      assert GetFileProperties(p.rest, p.value.0, p.value.1).Ok?;
      PropertySame(b.value, n.value, n.rest, files, empty, x);
      FilePropertiesSame(p.rest, p.value.0, p.value.1, x);
    }
  }

  lemma FilesInfoSame(s: seq<byte>, x: seq<byte>)
    ensures Same(GetFilesInfo(s), GetFilesInfo(s + x), x)
  {
    hide GetBounded, GetFileProperties;
    BoundedSame(s, true, x);
    var n := GetBounded(s, true);
    if n.Ok? {
      FilePropertiesSame(n.rest, seq(n.value, _ => BLANK), 0, x);
    }
  }

  // --- the header ---

  lemma MainStreamsSame(id: byte, s: seq<byte>, x: seq<byte>)
    ensures Same(GetMainStreams(id, s), GetMainStreams(id, s + x), x)
  {
    hide GetStreamsInfo, GetByte;
    StreamsInfoSame(s, x);
    if GetStreamsInfo(s).Ok? {
      ByteSame(GetStreamsInfo(s).rest, x);
    }
  }

  lemma FilesSectionSame(id: byte, s: seq<byte>, x: seq<byte>)
    ensures Same(GetFilesSection(id, s), GetFilesSection(id, s + x), x)
  {
    hide GetFilesInfo, GetByte;
    FilesInfoSame(s, x);
    if GetFilesInfo(s).Ok? {
      ByteSame(GetFilesInfo(s).rest, x);
    }
  }

  // Whatever bytes follow a header that can be read, it is the same header, and they are left over.
  lemma HeaderSame(s: seq<byte>, x: seq<byte>)
    requires GetHeader(s).Ok?
    ensures GetHeader(s + x) == Ok(GetHeader(s).value, GetHeader(s).rest + x)
  {
    hide GetByte, GetMainStreams, GetFilesSection, Fill;
    ByteSame(s, x);
    var b := GetByte(s);
    MainStreamsSame(b.value, b.rest, x);
    var i := GetMainStreams(b.value, b.rest);
    FilesSectionSame(i.value.1, i.rest, x);
  }

  // Of a header of which nothing is left over, no smaller part can be read, wherever it is cut.
  lemma CutRefused(s: seq<byte>, n: nat)
    requires GetHeader(s).Ok? && GetHeader(s).rest == [] && n < |s|
    ensures GetHeader(s[..n]).Err?
  {
    hide GetHeader;
    assert s[..n] + s[n..] == s;
    if GetHeader(s[..n]).Ok? {
      HeaderSame(s[..n], s[n..]);
    }
  }

  lemma PrintedCutRefused(h: Header, n: nat)
    requires GoodHeader(h) && PrintableHeader(h) && n < |PutHeader(h)|
    ensures GetHeader(PutHeader(h)[..n]).Err?
  {
    hide GetHeader, PutHeader, GoodHeader, NormalHeader, PrintableHeader;
    HeaderRoundTrip.HeaderRoundTrip(h, []);
    assert PutHeader(h) + [] == PutHeader(h);
    CutRefused(PutHeader(h), n);
  }
}
