/** What is known of a streams section that parses, and when its sizes add up. */
module ParsedStreams {
  import opened HeaderData
  import opened HeaderNumbers
  import opened HeaderStreams

  // --- folders ---

  lemma ParsedBounded(s: seq<byte>, nonZero: bool)
    ensures var p := GetBounded(s, nonZero); p.Ok? ==> p.value <= MAX_UINT32 && (nonZero ==> p.value > 0)
  {
    hide GetUint64;
  }

  lemma ParsedBytes(s: seq<byte>, n: nat)
    ensures GetBytes(s, n).Ok? ==> |GetBytes(s, n).value| == n
  {
  }

  lemma ParsedCoder(s: seq<byte>)
    requires GetCoder(s).Ok?
    ensures GoodCoder(GetCoder(s).value)
  {
    hide GetBytes, GetBounded;
    var v, s1 := GetByte(s).value, GetByte(s).rest;
    ParsedBytes(s1, v % 0x10);
    var s2 := GetBytes(s1, v % 0x10).rest;
    ParsedCounts(v, s2);
    ParsedProperties(v, GetStreamCounts(v, s2).rest);
  }

  lemma ParsedCounts(v: byte, s: seq<byte>)
    requires GetStreamCounts(v, s).Ok?
    ensures var c := GetStreamCounts(v, s).value; 0 < c.0 <= MAX_UINT32 && 0 < c.1 <= MAX_UINT32
  {
    hide GetBounded;
    if v / 0x10 % 2 == 1 {
      ParsedBounded(s, true);
      ParsedBounded(GetBounded(s, true).rest, true);
    }
  }

  lemma ParsedProperties(v: byte, s: seq<byte>)
    requires GetProperties(v, s).Ok?
    ensures |GetProperties(v, s).value| <= MAX_UINT32
  {
    hide GetBounded, GetBytes;
    if v / 0x20 % 2 == 1 {
      ParsedBounded(s, true);
      ParsedBytes(GetBounded(s, true).rest, GetBounded(s, true).value);
    }
  }

  lemma {:induction false} ParsedCoders(s: seq<byte>, count: nat)
    requires GetCoders(s, count).Ok?
    ensures |GetCoders(s, count).value| == count && GoodCoders(GetCoders(s, count).value)
    decreases count
  {
    hide GetCoder, GoodCoder;
    if count > 0 {
      ParsedCoder(s);
      ParsedCoders(GetCoder(s).rest, count - 1);
    }
  }

  lemma ParsedPair(s: seq<byte>)
    requires GetPair(s).Ok?
    ensures GoodPair(GetPair(s).value)
  {
    hide GetBounded;
    ParsedBounded(s, false);
    ParsedBounded(GetBounded(s, false).rest, false);
  }

  lemma {:induction false} ParsedPairs(s: seq<byte>, count: nat)
    requires GetPairs(s, count).Ok?
    ensures |GetPairs(s, count).value| == count && GoodPairs(GetPairs(s, count).value)
    decreases count
  {
    hide GetPair, GoodPair;
    if count > 0 {
      ParsedPair(s);
      ParsedPairs(GetPair(s).rest, count - 1);
    }
  }

  lemma ParsedPacked(s: seq<byte>, pairs: seq<BindPair>, ins: nat, packedStreams: nat)
    requires ins <= MAX_UINT32 && GetPacked(s, pairs, ins, packedStreams).Ok?
    ensures var packed := GetPacked(s, pairs, ins, packedStreams).value;
            if packedStreams == 1 then packed == UnboundIns(pairs, 0, ins) else |packed| == packedStreams
  {
    hide UnboundIns;
  }

  // A folder that is well formed as soon as it has a size for each output.
  ghost predicate Sizeable(f: Folder) {
    SumOuts(f.coder) == f.outs && forall size: seq<u64> :: |size| == f.outs ==> GoodFolder(f.(size := size))
  }

  lemma ParsedFolder(s: seq<byte>)
    requires GetFolder(s).Ok?
    ensures Sizeable(GetFolder(s).value)
  {
    hide GetBounded, GetCoders, GetPairs, GetPacked, SumIns, SumOuts, GoodCoders, GoodPairs, UnboundIns;
    var count, s1 := GetBounded(s, true).value, GetBounded(s, true).rest;
    ParsedBounded(s, true);
    ParsedCoders(s1, count);
    var coders, s2 := GetCoders(s1, count).value, GetCoders(s1, count).rest;
    var ins, outs := SumIns(coders), SumOuts(coders);
    ParsedPairs(s2, outs - 1);
    var pairs, s3 := GetPairs(s2, outs - 1).value, GetPairs(s2, outs - 1).rest;
    ParsedPacked(s3, pairs, ins, ins - (outs - 1));
  }

  lemma {:induction false} ParsedFolders(s: seq<byte>, count: nat)
    requires GetFolders(s, count).Ok?
    ensures var folders := GetFolders(s, count).value;
            |folders| == count && forall r :: 0 <= r < count ==> Sizeable(folders[r])
    decreases count
  {
    hide GetFolder, Sizeable;
    if count > 0 {
      ParsedFolder(s);
      ParsedFolders(GetFolder(s).rest, count - 1);
    }
  }

  lemma {:induction false} ParsedFolderSizes(s: seq<byte>, folders: seq<Folder>)
    requires GetFolderSizes(s, folders).Ok? && forall r :: 0 <= r < |folders| ==> Sizeable(folders[r])
    ensures |GetFolderSizes(s, folders).value| == |folders| && GoodFolders(GetFolderSizes(s, folders).value)
    decreases |folders|
  {
    hide GetSizeList, SumOuts, Sizeable, GoodFolder;
    if folders != [] {
      var total := SumOuts(folders[0].coder);
      var p := GetSizeList(s, total);
      SizeableIs(folders[0], p.value);
      forall r | 0 <= r < |folders[1..]| ensures Sizeable(folders[1..][r]) {
        assert folders[1..][r] == folders[r + 1];
      }
      ParsedFolderSizes(p.rest, folders[1..]);
    }
  }

  lemma SizeableIs(f: Folder, size: seq<u64>)
    requires Sizeable(f) && |size| == SumOuts(f.coder)
    ensures GoodFolder(f.(size := size))
  {
    hide GoodFolder, SumOuts;
  }

  lemma ParsedDigests(id: byte, s: seq<byte>, count: nat)
    requires GetDigestSection(id, s, count).Ok?
    ensures Covers(GetDigestSection(id, s, count).value.0, count)
  {
    hide GetOptionalBools, GetValues;
  }

  lemma ParsedSizeSection(id: byte, s: seq<byte>, count: nat)
    requires GetSizeSection(id, s, count).Ok?
    ensures Covers(GetSizeSection(id, s, count).value.0, count)
  {
    hide GetSizeList;
  }

  // What the parser takes for pack info can be printed.
  lemma ParsedPackInfo(s: seq<byte>)
    requires GetPackInfo(s).Ok?
    ensures GoodPackInfo(GetPackInfo(s).value)
  {
    hide GetUint64, GetBounded, GetSizeSection, GetDigestSection;
    var s1 := GetUint64(s).rest;
    ParsedBounded(s1, true);
    var streams, s2 := GetBounded(s1, true).value, GetBounded(s1, true).rest;
    var id, s3 := GetByte(s2).value, GetByte(s2).rest;
    ParsedSizeSection(id, s3, streams);
    var z := GetSizeSection(id, s3, streams);
    ParsedDigests(z.value.1, z.rest, streams);
  }

  // And so can what it takes for folders.
  lemma ParsedUnpackInfo(s: seq<byte>)
    requires GetUnpackInfo(s).Ok?
    ensures GoodUnpackInfo(GetUnpackInfo(s).value)
  {
    hide GetId, GetBounded, GetFolders, GetFolderSizes, GetDigestSection, GoodFolder, Sizeable;
    var s1 := GetId(s, ID_FOLDER).rest;
    ParsedBounded(s1, true);
    var count, s2 := GetBounded(s1, true).value, GetByte(GetBounded(s1, true).rest).rest;
    ParsedFolders(s2, count);
    var f := GetFolders(s2, count);
    var s3 := GetId(f.rest, ID_CODERS_UNPACK_SIZE).rest;
    ParsedFolderSizes(s3, f.value);
    var z := GetFolderSizes(s3, f.value);
    var id, s4 := GetByte(z.rest).value, GetByte(z.rest).rest;
    ParsedDigests(id, s4, count);
  }

  // --- sizes of a folder's files ---

  // The sizes that were written leave something, or nothing, of the folder for the last file.
  predicate Fronts(streams: seq<u64>, size: seq<u64>, folders: seq<Folder>)
    requires |streams| == |folders| && |size| == Sum(streams)
    decreases |streams|
  {
    if streams == [] then true
    else
      && (streams[0] > 0 ==> Sum(size[..streams[0] - 1]) <= UnpackSize(folders[0]))
      && Fronts(streams[1..], size[streams[0]..], folders[1..])
  }

  // A last size taken modulo 2^64 makes up the total if and only if the others fit.
  lemma LastShare(front: seq<u64>, total: u64)
    ensures Sum(front + [(total - Sum(front)) % TWO64]) == total <==> Sum(front) <= total
  {
    hide Sum;
    var last: u64 := (total - Sum(front)) % TWO64;
    SumAppend(front, [last]);
    SumOne(last);
    Difference(Sum(front), total);
  }

  lemma Difference(front: nat, total: u64)
    ensures front + (total - front) % TWO64 == total <==> front <= total
  {
  }

  lemma ShareTotals(share: seq<u64>, unpackSize: u64)
    requires share != [] && LastFollows(share, unpackSize)
    ensures Sum(share) == unpackSize <==> Sum(share[..|share| - 1]) <= unpackSize
  {
    hide Sum;
    var front := share[..|share| - 1];
    LastShare(front, unpackSize);
    assert share == front + [share[|share| - 1]];
  }

  lemma ParsedShare(s: seq<byte>, count: u64, unpackSize: u64, room: nat)
    requires GetShare(s, count, unpackSize, room).Ok? && count > 0
    ensures var share := GetShare(s, count, unpackSize, room).value;
            |share| == count <= room && LastFollows(share, unpackSize)
  {
    hide GetSizeList, Sum;
    var n := if count - 1 < room then count - 1 else room;
    var front := GetSizeList(s, n).value;
    var share := front + [(unpackSize - Sum(front)) % TWO64];
    assert share[..count - 1] == front;
  }

  // The parser makes every last size follow from the others.
  lemma {:induction false} SharesFollow(s: seq<byte>, streams: seq<u64>, folders: seq<Folder>, room: nat)
    requires |streams| == |folders| && GetShares(s, streams, folders, room).Ok?
    ensures var size := GetShares(s, streams, folders, room).value;
            |size| == Sum(streams) <= room && LastsFollow(streams, size, folders)
    decreases |streams|
  {
    hide GetShare, UnpackSize, Sum, LastFollows;
    SumParts(streams);
    if streams != [] {
      var n := streams[0];
      var p := GetShare(s, n, UnpackSize(folders[0]), room);
      if n == 0 {
        NoShare(s, UnpackSize(folders[0]), room);
      } else {
        ParsedShare(s, n, UnpackSize(folders[0]), room);
      }
      SharesFollow(p.rest, streams[1..], folders[1..], room - |p.value|);
      var size := GetShares(s, streams, folders, room).value;
      assert size[..n] == p.value && size[n..] == GetShares(p.rest, streams[1..], folders[1..], room - n).value;
    }
  }

  // Sizes that are made like that add up for every folder if and only if those that were written
  // for it fit.
  lemma {:induction false} FollowAddUp(streams: seq<u64>, size: seq<u64>, folders: seq<Folder>)
    requires |streams| == |folders| && |size| == Sum(streams) && LastsFollow(streams, size, folders)
    ensures AddUp(streams, size, folders) <==> Fronts(streams, size, folders)
    decreases |streams|
  {
    hide UnpackSize, Sum, LastFollows;
    SumParts(streams);
    if streams != [] {
      FollowAddUp(streams[1..], size[streams[0]..], folders[1..]);
      if streams[0] > 0 {
        FirstFollows(streams, size, folders);
      }
    }
  }

  lemma FirstFollows(streams: seq<u64>, size: seq<u64>, folders: seq<Folder>)
    requires 0 < |streams| == |folders| && |size| == Sum(streams) && LastsFollow(streams, size, folders)
    requires streams[0] > 0
    ensures streams[0] <= |size|
    ensures Sum(size[..streams[0]]) == UnpackSize(folders[0]) <==> Sum(size[..streams[0] - 1]) <= UnpackSize(folders[0])
  {
    hide UnpackSize, Sum, LastFollows;
    SumParts(streams);
    ShareTotals(size[..streams[0]], UnpackSize(folders[0]));
    assert size[..streams[0]][..streams[0] - 1] == size[..streams[0] - 1];
  }

  // The same of the parser's sizes: its subtraction makes them add up if and only if the sizes that
  // were written fit.
  lemma SharesAddUp(s: seq<byte>, streams: seq<u64>, folders: seq<Folder>, room: nat)
    requires |streams| == |folders| && GetShares(s, streams, folders, room).Ok?
    ensures var size := GetShares(s, streams, folders, room).value;
            |size| == Sum(streams) && (AddUp(streams, size, folders) <==> Fronts(streams, size, folders))
  {
    hide GetShares, LastsFollow, AddUp, Fronts, Sum;
    SharesFollow(s, streams, folders, room);
    FollowAddUp(streams, GetShares(s, streams, folders, room).value, folders);
  }

  lemma SumParts(counts: seq<u64>)
    ensures Sum(counts) == if counts == [] then 0 else counts[0] + Sum(counts[1..])
  {
  }

  // The same, folder by folder.
  ghost predicate FrontAt(streams: seq<u64>, size: seq<u64>, folders: seq<Folder>, r: nat)
    requires r < |streams| == |folders|
  {
    var a, n := Sum(streams[..r]), streams[r];
    n > 0 ==> a + n <= |size| && Sum(size[a..a + n - 1]) <= UnpackSize(folders[r])
  }

  lemma {:induction false} FollowAddsUp(streams: seq<u64>, size: seq<u64>, folders: seq<Folder>, r: nat)
    requires r < |streams| == |folders| && |size| == Sum(streams) && LastsFollow(streams, size, folders)
    ensures PartAddsUp(streams, size, folders, r) <==> FrontAt(streams, size, folders, r)
    decreases r
  {
    hide UnpackSize, LastFollows;
    var n := streams[0];
    if r == 0 {
      assert streams[..0] == [];
      if n > 0 {
        FirstFollows(streams, size, folders);
        assert size[0..n] == size[..n] && size[0..n - 1] == size[..n - 1];
      }
    } else {
      hide PartAddsUp, FrontAt;
      FollowAddsUp(streams[1..], size[n..], folders[1..], r - 1);
      PartShifted(streams, size, folders, r - 1);
      FrontShifted(streams, size, folders, r - 1);
    }
  }

  lemma ShareAddsUp(s: seq<byte>, streams: seq<u64>, folders: seq<Folder>, room: nat, r: nat)
    requires r < |streams| == |folders| && GetShares(s, streams, folders, room).Ok?
    ensures var size := GetShares(s, streams, folders, room).value;
            PartAddsUp(streams, size, folders, r) <==> FrontAt(streams, size, folders, r)
  {
    hide GetShares, LastsFollow, PartAddsUp, FrontAt, Sum;
    SharesFollow(s, streams, folders, room);
    FollowAddsUp(streams, GetShares(s, streams, folders, room).value, folders, r);
  }

  lemma FrontShifted(streams: seq<u64>, size: seq<u64>, folders: seq<Folder>, r: nat)
    requires r + 1 < |streams| == |folders| && streams[0] <= |size|
    ensures FrontAt(streams, size, folders, r + 1) <==> FrontAt(streams[1..], size[streams[0]..], folders[1..], r)
  {
    hide UnpackSize;
    assert streams[..r + 1][1..] == streams[1..][..r];
    var n, a, m := streams[0], Sum(streams[1..][..r]), streams[r + 1];
    assert Sum(streams[..r + 1]) == n + a;
    if m > 0 && n + a + m <= |size| {
      assert size[n..][a..a + m - 1] == size[n + a..n + a + m - 1];
    }
  }

  // --- the streams section ---

  // The sizes of a parsed section come from the subtraction, or there are none.
  lemma ParsedSubStreams(s: seq<byte>, folders: seq<Folder>) returns (t: seq<byte>)
    requires GetSubStreamsInfo(s, folders).Ok?
    ensures var i := GetSubStreamsInfo(s, folders).value;
            && |i.streams| == |folders|
            && (i.size == [] || (GetShares(t, i.streams, folders, Sum(i.streams) % TWO64).Ok?
                                 && GetShares(t, i.streams, folders, Sum(i.streams) % TWO64).value == i.size))
            && Covers(i.digest, Sum(i.streams) % TWO64)
            && Sum(i.streams) % TWO64 <= MAX_UINT32
  {
    hide GetStreams, GetShares, GetDigestSection, Sum;
    var id, s1 := GetByte(s).value, GetByte(s).rest;
    ParsedStreamCounts(id, s1, |folders|);
    var c := GetStreams(id, s1, |folders|);
    t := c.rest;
    var files := Sum(c.value.0) % TWO64;
    var z := GetShareSection(c.value.1, t, c.value.0, folders, files);
    ParsedDigests(z.value.1, z.rest, files);
  }

  lemma ParsedStreamCounts(id: byte, s: seq<byte>, folders: nat)
    ensures GetStreams(id, s, folders).Ok? ==> |GetStreams(id, s, folders).value.0| == folders
  {
  }

  // The parts of a parsed streams section, each as its own parser gave it.
  lemma ParsedParts(s: seq<byte>) returns (pack: seq<byte>, unpack: seq<byte>, sub: seq<byte>)
    requires GetStreamsInfo(s).Ok?
    ensures var i := GetStreamsInfo(s).value;
            && (i.packInfo.Some? ==> GetPackInfo(pack).Ok? && GetPackInfo(pack).value == i.packInfo.value)
            && (i.unpackInfo.Some? ==> GetUnpackInfo(unpack).Ok? && GetUnpackInfo(unpack).value == i.unpackInfo.value)
            && (i.subStreamsInfo.Some? ==>
                  && i.unpackInfo.Some?
                  && GetSubStreamsInfo(sub, i.unpackInfo.value.folder).Ok?
                  && GetSubStreamsInfo(sub, i.unpackInfo.value.folder).value == i.subStreamsInfo.value)
  {
    hide GetPackInfo, GetUnpackInfo, GetSubStreamsInfo;
    var id, s1 := GetByte(s).value, GetByte(s).rest;
    pack := s1;
    var p := GetPackSection(id, s1);
    unpack := p.rest;
    var u := GetUnpackSection(p.value.1, p.rest);
    sub := u.rest;
  }

  // Every streams section that parses is well formed.
  lemma ParsedGood(s: seq<byte>)
    requires GetStreamsInfo(s).Ok?
    ensures GoodStreamsInfo(GetStreamsInfo(s).value)
  {
    hide GetStreamsInfo, GetPackInfo, GetUnpackInfo, GetSubStreamsInfo, GoodPackInfo, GoodUnpackInfo,
      GoodSubStreamsInfo;
    var i := GetStreamsInfo(s).value;
    var pack, unpack, sub := ParsedParts(s);
    if i.packInfo.Some? {
      ParsedPackInfo(pack);
    }
    if i.unpackInfo.Some? {
      ParsedUnpackInfo(unpack);
    }
    if i.subStreamsInfo.Some? {
      GoodParsedSubStreams(sub, i.unpackInfo.value.folder);
    }
  }

  lemma GoodParsedSubStreams(s: seq<byte>, folders: seq<Folder>)
    requires GetSubStreamsInfo(s, folders).Ok?
    ensures GoodSubStreamsInfo(GetSubStreamsInfo(s, folders).value, folders)
  {
    hide GetSubStreamsInfo, GetShares, LastsFollow, Sum;
    var b := GetSubStreamsInfo(s, folders).value;
    var t := ParsedSubStreams(s, folders);
    if b.size != [] {
      var room := Sum(b.streams) % TWO64;
      SharesFollow(t, b.streams, folders, room);
    }
  }

  // So whatever parses can be printed, and parses again, to its normal form.
  lemma ParsedPrints(s: seq<byte>, rest: seq<byte>)
    requires GetStreamsInfo(s).Ok?
    ensures var i := GetStreamsInfo(s).value;
            Printable(i) && GetStreamsInfo(PutStreamsInfo(i) + rest) == Ok(NormalStreams(i), rest)
  {
    hide GetStreamsInfo, PutStreamsInfo, GoodStreamsInfo, Printable, NormalStreams;
    ParsedGood(s);
    GoodIsPrintable(GetStreamsInfo(s).value);
    StreamsInfoRoundTrip(GetStreamsInfo(s).value, rest);
  }
}
