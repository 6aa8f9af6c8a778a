/** Pack info, coders, folders and substreams: their bytes and their reading. */
module HeaderStreams {
  import opened Basics
  import opened HeaderData
  import opened HeaderNumbers

  // r.Read of n bytes
  function GetBytes(s: seq<byte>, n: nat): Parse<seq<byte>> {
    if n == 0 then Ok([], s)
    else if s == [] then Err(EOF)
    else if |s| < n then Err(IncompleteRead)
    else Ok(s[..n], s[n..])
  }

  lemma BytesRoundTrip(b: seq<byte>, rest: seq<byte>)
    ensures GetBytes(b + rest, |b|) == Ok(b, rest)
  {
    if b == [] {
      assert b + rest == rest;
    }
  }

  function GetEnd<T>(id: byte, value: T, s: seq<byte>): Parse<T> {
    if id != ID_END then Err(UnexpectedId) else Ok(value, s)
  }

  // An id byte in front of a body.
  lemma Prefixed(id: byte, body: seq<byte>, tail: seq<byte>)
    ensures var s := [id] + body + tail;
            s != [] && s[0] == id && s[1..] == body + tail
  {
    assert [id] + body + tail == [id] + (body + tail);
  }

  // Nothing in front of what follows.
  lemma NotPrefixed(next: byte, rest: seq<byte>)
    ensures var s := [] + ([next] + rest);
            s != [] && s[0] == next && s[1..] == rest && s == [next] + rest
  {
  }

  lemma NextByteIs(next: byte, rest: seq<byte>)
    ensures GetByte([next] + rest) == Ok(next, rest)
  {
    assert ([next] + rest)[1..] == rest;
  }

  // --- optional lists behind an id byte; reading leaves the id that follows ---

  function PutSizeSection(sizes: seq<u64>): seq<byte> {
    if |sizes| > 0 then [ID_SIZE] + PutSizes(sizes) else []
  }

  function GetSizeSection(id: byte, s: seq<byte>, count: nat): Parse<(seq<u64>, byte)> {
    if id == ID_SIZE then
      var (sizes, s) :- GetSizes(s, count);
      var (id, s) :- GetByte(s);
      Ok((sizes, id), s)
    else Ok(([], id), s)
  }

  function PutDigestSection(digest: seq<u32>): seq<byte> {
    if |digest| > 0 then [ID_CRC] + PutCRC(Somes(digest)) else []
  }

  function GetDigestSection(id: byte, s: seq<byte>, count: nat): Parse<(seq<u32>, byte)> {
    if id == ID_CRC then
      var (digest, s) :- GetCRC(s, count);
      var (id, s) :- GetByte(s);
      Ok((digest, id), s)
    else Ok(([], id), s)
  }

  // A section read after its first byte has been taken, in front of another id.
  lemma SizeSectionRoundTrip(sizes: seq<u64>, next: byte, rest: seq<byte>)
    requires |sizes| <= MAX_UINT32 && next != ID_SIZE
    ensures var s := PutSizeSection(sizes) + [next] + rest;
            s != [] && forall n :: n == |sizes| || sizes == [] ==>
              GetSizeSection(s[0], s[1..], n) == Ok((sizes, next), rest)
  {
    hide GetUint64, PutSizes, GetSizeList;
    var s := PutSizeSection(sizes) + [next] + rest;
    if |sizes| > 0 {
      var tail := [next] + rest;
      assert s[1..] == PutSizes(sizes) + tail;
      SizeListRoundTrip(sizes, tail);
      assert tail[1..] == rest;
    } else {
      assert s[1..] == rest;
    }
  }

  lemma DigestSectionRoundTrip(digest: seq<u32>, next: byte, rest: seq<byte>)
    requires |digest| <= MAX_UINT32 && next != ID_CRC
    ensures var s := PutDigestSection(digest) + [next] + rest;
            s != [] && forall n :: n == |digest| || digest == [] ==>
              GetDigestSection(s[0], s[1..], n) == Ok((digest, next), rest)
  {
    hide GetCRC, PutCRC;
    var s := PutDigestSection(digest) + [next] + rest;
    if |digest| > 0 {
      var tail := [next] + rest;
      assert s[1..] == PutCRC(Somes(digest)) + tail;
      CRCRoundTrip(Somes(digest), tail);
      assert Filled(Somes(digest)) == digest;
      assert tail[1..] == rest;
    } else {
      assert s[1..] == rest;
    }
  }

  // --- pack info ---

  function PutPackInfo(p: PackInfo): seq<byte> {
    PutUint64(p.position) + PutUint64(p.streams) + PutSizeSection(p.size) + PutDigestSection(p.digest) + [ID_END]
  }

  function GetPackInfo(s: seq<byte>): Parse<PackInfo> {
    var (position, s) :- GetUint64(s);
    var (streams, s) :- GetBounded(s, true);
    var (id, s) :- GetByte(s);
    var ((size, id), s) :- GetSizeSection(id, s, streams);
    var ((digest, id), s) :- GetDigestSection(id, s, streams);
    GetEnd(id, PackInfo(position, streams, size, digest), s)
  }

  // A list that is left out, or has one entry for each of n things.
  predicate Covers<T>(list: seq<T>, n: int) {
    |list| == 0 || |list| == n
  }

  predicate GoodPackInfo(p: PackInfo) {
    0 < p.streams <= MAX_UINT32 && Covers(p.size, p.streams) && Covers(p.digest, p.streams)
  }

  lemma PackInfoRoundTrip(p: PackInfo, rest: seq<byte>)
    requires GoodPackInfo(p)
    ensures GetPackInfo(PutPackInfo(p) + rest) == Ok(p, rest)
  {
    hide GetUint64, PutUint64, GetSizeSection, PutSizeSection, GetDigestSection, PutDigestSection;
    var d := PutDigestSection(p.digest) + [ID_END] + rest;
    DigestSectionRoundTrip(p.digest, ID_END, rest);
    var z := PutSizeSection(p.size) + [d[0]] + d[1..];
    DigestFirst(p.digest, rest);
    SizeSectionRoundTrip(p.size, d[0], d[1..]);
    Uint64RoundTrip(p.streams, z);
    Uint64RoundTrip(p.position, PutUint64(p.streams) + z);
    assert PutPackInfo(p) + rest == PutUint64(p.position) + (PutUint64(p.streams) + z);
  }

  lemma DigestFirst(digest: seq<u32>, rest: seq<byte>)
    ensures (PutDigestSection(digest) + [ID_END] + rest)[0] == (if digest == [] then ID_END else ID_CRC)
  {
  }

  // --- coders ---

  predicate Complex(c: Coder) {
    c.ins != 1 || c.outs != 1
  }

  // The id length in four bits, 0x10 for stream counts, 0x20 for properties.
  function Flags(c: Coder): byte {
    |c.id| % 0x10 + (if Complex(c) then 0x10 else 0) + (if |c.properties| > 0 then 0x20 else 0)
  }

  function PutCoder(c: Coder): seq<byte>
    requires GoodCoder(c)
  {
    [Flags(c)] + c.id + PutStreamCounts(c) + PutProperties(c)
  }

  function PutStreamCounts(c: Coder): seq<byte>
    requires GoodCoder(c)
  {
    if Complex(c) then PutUint64(c.ins) + PutUint64(c.outs) else []
  }

  function PutProperties(c: Coder): seq<byte>
    requires GoodCoder(c)
  {
    if |c.properties| > 0 then PutUint64(|c.properties|) + c.properties else []
  }

  function GetStreamCounts(v: byte, s: seq<byte>): Parse<(nat, nat)> {
    if v / 0x10 % 2 == 1 then
      var (ins, s) :- GetBounded(s, true);
      var (outs, s) :- GetBounded(s, true);
      Ok((ins, outs), s)
    else Ok((1, 1), s)
  }

  function GetProperties(v: byte, s: seq<byte>): Parse<seq<byte>> {
    if v / 0x20 % 2 == 1 then
      var (size, s) :- GetBounded(s, true);
      GetBytes(s, size)
    else Ok([], s)
  }

  function GetCoder(s: seq<byte>): Parse<Coder> {
    var (v, s) :- GetByte(s);
    var (id, s) :- GetBytes(s, v % 0x10);
    var (counts, s) :- GetStreamCounts(v, s);
    var (properties, s) :- GetProperties(v, s);
    Ok(Coder(id, counts.0, counts.1, properties), s)
  }

  predicate GoodCoder(c: Coder) {
    |c.id| < 0x10 && 0 < c.ins <= MAX_UINT32 && 0 < c.outs <= MAX_UINT32 && |c.properties| <= MAX_UINT32
  }

  lemma FlagBits(c: Coder)
    requires GoodCoder(c)
    ensures Flags(c) % 0x10 == |c.id|
    ensures Flags(c) / 0x10 % 2 == (if Complex(c) then 1 else 0)
    ensures Flags(c) / 0x20 % 2 == (if |c.properties| > 0 then 1 else 0)
  {
  }

  lemma CoderRoundTrip(c: Coder, rest: seq<byte>)
    requires GoodCoder(c)
    ensures GetCoder(PutCoder(c) + rest) == Ok(c, rest)
  {
    hide Flags, PutStreamCounts, PutProperties, GetStreamCounts, GetProperties;
    FlagBits(c);
    var p := PutProperties(c) + rest;
    var n := PutStreamCounts(c) + p;
    assert PutCoder(c) + rest == [Flags(c)] + (c.id + n);
    BytesRoundTrip(c.id, n);
    CountsRoundTrip(c, p);
    PropertiesRoundTrip(c, rest);
  }

  lemma CountsRoundTrip(c: Coder, p: seq<byte>)
    requires GoodCoder(c)
    ensures GetStreamCounts(Flags(c), PutStreamCounts(c) + p) == Ok((c.ins, c.outs), p)
  {
    hide GetUint64, PutUint64, Flags;
    FlagBits(c);
    if Complex(c) {
      Uint64RoundTrip(c.ins, PutUint64(c.outs) + p);
      Uint64RoundTrip(c.outs, p);
      assert PutUint64(c.ins) + PutUint64(c.outs) + p == PutUint64(c.ins) + (PutUint64(c.outs) + p);
    } else {
      assert [] + p == p;
    }
  }

  lemma PropertiesRoundTrip(c: Coder, rest: seq<byte>)
    requires GoodCoder(c)
    ensures GetProperties(Flags(c), PutProperties(c) + rest) == Ok(c.properties, rest)
  {
    hide GetUint64, PutUint64, Flags;
    FlagBits(c);
    if |c.properties| > 0 {
      Uint64RoundTrip(|c.properties|, c.properties + rest);
      BytesRoundTrip(c.properties, rest);
      assert PutUint64(|c.properties|) + c.properties + rest == PutUint64(|c.properties|) + (c.properties + rest);
    } else {
      assert [] + rest == rest;
    }
  }

  // --- folders ---

  function SumIns(coders: seq<Coder>): nat {
    if coders == [] then 0 else coders[0].ins + SumIns(coders[1..])
  }

  function SumOuts(coders: seq<Coder>): nat {
    if coders == [] then 0 else coders[0].outs + SumOuts(coders[1..])
  }

  // The first bind pair with that input, or that output.
  function FindIn(pairs: seq<BindPair>, i: nat): (r: Option<BindPair>)
    ensures r.Some? ==> r.value in pairs && r.value.ins == i
    ensures r.None? ==> forall p :: p in pairs ==> p.ins != i
  {
    if pairs == [] then None else if pairs[0].ins == i then Some(pairs[0]) else FindIn(pairs[1..], i)
  }

  function FindOut(pairs: seq<BindPair>, i: nat): (r: Option<BindPair>)
    ensures r.Some? ==> r.value in pairs && r.value.outs == i
    ensures r.None? ==> forall p :: p in pairs ==> p.outs != i
  {
    if pairs == [] then None else if pairs[0].outs == i then Some(pairs[0]) else FindOut(pairs[1..], i)
  }

  // The inputs from i up to n that no bind pair feeds.
  function UnboundIns(pairs: seq<BindPair>, i: nat, n: nat): (r: seq<u64>)
    requires n <= MAX_UINT32
    ensures forall x :: x in r ==> i <= x < n
    decreases n - i
  {
    if i >= n then []
    else (if FindIn(pairs, i).None? then [i] else []) + UnboundIns(pairs, i + 1, n)
  }

  lemma UnboundStep(pairs: seq<BindPair>, i: nat, n: nat)
    requires i < n <= MAX_UINT32
    ensures UnboundIns(pairs, i, n) == (if FindIn(pairs, i).None? then [i] else []) + UnboundIns(pairs, i + 1, n)
  {
  }

  function GetCoders(s: seq<byte>, count: nat): Parse<seq<Coder>>
    decreases count
  {
    if count == 0 then Ok([], s)
    else
      var (c, s) :- GetCoder(s);
      var (coders, s) :- GetCoders(s, count - 1);
      Ok([c] + coders, s)
  }

  function GetPair(s: seq<byte>): Parse<BindPair> {
    var (ins, s) :- GetBounded(s, false);
    var (outs, s) :- GetBounded(s, false);
    Ok(BindPair(ins, outs), s)
  }

  function GetPairs(s: seq<byte>, count: nat): Parse<seq<BindPair>>
    decreases count
  {
    if count == 0 then Ok([], s)
    else
      var (p, s) :- GetPair(s);
      var (pairs, s) :- GetPairs(s, count - 1);
      Ok([p] + pairs, s)
  }

  // The packed inputs are read when there are several, and worked out when there is one.
  function GetPacked(s: seq<byte>, pairs: seq<BindPair>, ins: nat, packedStreams: nat): Parse<seq<u64>>
    requires ins <= MAX_UINT32
  {
    if packedStreams == 1 then Ok(UnboundIns(pairs, 0, ins), s) else GetSizeList(s, packedStreams)
  }

  function GetFolder(s: seq<byte>): Parse<Folder> {
    var (count, s) :- GetBounded(s, true);
    var (coders, s) :- GetCoders(s, count);
    var ins, outs := SumIns(coders), SumOuts(coders);
    if Check(ins, true).Some? then Err(Check(ins, true).value)
    else if Check(outs, true).Some? then Err(Check(outs, true).value)
    else if ins < outs then Err(InvalidBindPair)
    else
      var (pairs, s) :- GetPairs(s, outs - 1);
      var packedStreams := ins - (outs - 1);
      var (packed, s) :- GetPacked(s, pairs, ins, packedStreams);
      Ok(Folder(ins, outs, packedStreams, coders, pairs, [], packed), s)
  }

  function PutCoders(coders: seq<Coder>): seq<byte>
    requires GoodCoders(coders)
  {
    if coders == [] then [] else PutCoder(coders[0]) + PutCoders(coders[1..])
  }

  function PutPair(p: BindPair): seq<byte>
    requires GoodPair(p)
  {
    PutUint64(p.ins) + PutUint64(p.outs)
  }

  function PutPairs(pairs: seq<BindPair>): seq<byte>
    requires GoodPairs(pairs)
  {
    if pairs == [] then []
    else PutPair(pairs[0]) + PutPairs(pairs[1..])
  }

  predicate GoodPair(p: BindPair) {
    p.ins <= MAX_UINT32 && p.outs <= MAX_UINT32
  }

  predicate GoodPairs(pairs: seq<BindPair>) {
    forall i :: 0 <= i < |pairs| ==> GoodPair(pairs[i])
  }

  predicate GoodCoders(coders: seq<Coder>) {
    forall i :: 0 <= i < |coders| ==> GoodCoder(coders[i])
  }

  // A folder as the format describes it, with the size of every output.
  predicate GoodFolder(f: Folder) {
    && 0 < |f.coder| <= MAX_UINT32 && GoodCoders(f.coder) && GoodPairs(f.bindPair)
    && f.ins == SumIns(f.coder) && f.outs == SumOuts(f.coder)
    && 0 < f.outs <= f.ins <= MAX_UINT32
    && |f.bindPair| == f.outs - 1
    && f.packedStreams == f.ins - (f.outs - 1)
    && (if f.packedStreams == 1 then f.packed == UnboundIns(f.bindPair, 0, f.ins) else |f.packed| == f.packedStreams)
    && |f.size| == f.outs
  }

  function PutFolder(f: Folder): seq<byte>
    requires GoodFolder(f)
  {
    PutUint64(|f.coder|) + PutCoders(f.coder) + PutPairs(f.bindPair)
    + (if f.packedStreams > 1 then PutSizes(f.packed) else [])
  }

  lemma {:induction false} CodersRoundTrip(coders: seq<Coder>, rest: seq<byte>)
    requires GoodCoders(coders)
    ensures GetCoders(PutCoders(coders) + rest, |coders|) == Ok(coders, rest)
  {
    hide GetCoder, PutCoder, GoodCoder;
    if coders == [] {
      assert [] + rest == rest;
    } else {
      var tail := PutCoders(coders[1..]) + rest;
      assert PutCoders(coders) + rest == PutCoder(coders[0]) + tail;
      CoderRoundTrip(coders[0], tail);
      CodersRoundTrip(coders[1..], rest);
      assert coders == [coders[0]] + coders[1..];
    }
  }

  lemma PairRoundTrip(p: BindPair, rest: seq<byte>)
    requires GoodPair(p)
    ensures GetPair(PutPair(p) + rest) == Ok(p, rest)
  {
    hide GetUint64, PutUint64;
    assert PutPair(p) + rest == PutUint64(p.ins) + (PutUint64(p.outs) + rest);
    Uint64RoundTrip(p.ins, PutUint64(p.outs) + rest);
    Uint64RoundTrip(p.outs, rest);
  }

  lemma {:induction false} PairsRoundTrip(pairs: seq<BindPair>, rest: seq<byte>)
    requires GoodPairs(pairs)
    ensures GetPairs(PutPairs(pairs) + rest, |pairs|) == Ok(pairs, rest)
  {
    hide GetPair, PutPair, GoodPair;
    if pairs == [] {
      assert [] + rest == rest;
    } else {
      var tail := PutPairs(pairs[1..]) + rest;
      assert PutPairs(pairs) + rest == PutPair(pairs[0]) + tail;
      PairRoundTrip(pairs[0], tail);
      PairsRoundTrip(pairs[1..], rest);
      assert pairs == [pairs[0]] + pairs[1..];
    }
  }

  // A folder comes back without its sizes, which are written elsewhere.
  lemma FolderRoundTrip(f: Folder, rest: seq<byte>)
    requires GoodFolder(f)
    ensures GetFolder(PutFolder(f) + rest) == Ok(f.(size := []), rest)
  {
    hide GetUint64, PutUint64, GetCoders, PutCoders, GetPairs, PutPairs, GetSizeList, PutSizes, UnboundIns;
    var k := (if f.packedStreams > 1 then PutSizes(f.packed) else []) + rest;
    var p := PutPairs(f.bindPair) + k;
    var c := PutCoders(f.coder) + p;
    assert PutFolder(f) + rest == PutUint64(|f.coder|) + c;
    Uint64RoundTrip(|f.coder|, c);
    CodersRoundTrip(f.coder, p);
    PairsRoundTrip(f.bindPair, k);
    if f.packedStreams > 1 {
      SizeListRoundTrip(f.packed, rest);
    } else {
      assert [] + rest == rest;
    }
  }

  // --- unpack info ---

  predicate GoodFolders(folders: seq<Folder>) {
    forall i :: 0 <= i < |folders| ==> GoodFolder(folders[i])
  }

  predicate GoodUnpackInfo(u: UnpackInfo) {
    0 < |u.folder| <= MAX_UINT32 && GoodFolders(u.folder) && Covers(u.digest, |u.folder|)
  }

  function PutFolders(folders: seq<Folder>): seq<byte>
    requires GoodFolders(folders)
  {
    if folders == [] then [] else PutFolder(folders[0]) + PutFolders(folders[1..])
  }

  function PutFolderSizes(folders: seq<Folder>): seq<byte> {
    if folders == [] then [] else PutSizes(folders[0].size) + PutFolderSizes(folders[1..])
  }

  // What printing asks for.
  predicate PrintableUnpack(u: UnpackInfo) {
    |u.folder| < TWO64 && GoodFolders(u.folder)
  }

  function PutUnpackInfo(u: UnpackInfo): seq<byte>
    requires PrintableUnpack(u)
  {
    [ID_FOLDER] + PutUint64(|u.folder|) + [0] + PutFolders(u.folder)
    + [ID_CODERS_UNPACK_SIZE] + PutFolderSizes(u.folder) + PutDigestSection(u.digest) + [ID_END]
  }

  function GetId(s: seq<byte>, id: byte): Parse<byte> {
    var (b, s) :- GetByte(s);
    if b != id then Err(UnexpectedId) else Ok(b, s)
  }

  function GetFolders(s: seq<byte>, count: nat): Parse<seq<Folder>>
    decreases count
  {
    if count == 0 then Ok([], s)
    else
      var (f, s) :- GetFolder(s);
      var (folders, s) :- GetFolders(s, count - 1);
      Ok([f] + folders, s)
  }

  function GetFolderSizes(s: seq<byte>, folders: seq<Folder>): (r: Parse<seq<Folder>>)
    ensures r.Ok? ==> |r.value| == |folders|
    decreases |folders|
  {
    if folders == [] then Ok([], s)
    else
      var total := SumOuts(folders[0].coder);
      if Check(total, true).Some? then Err(Check(total, true).value)
      else
        var (size, s) :- GetSizeList(s, total);
        var (rest, s) :- GetFolderSizes(s, folders[1..]);
        Ok([folders[0].(size := size)] + rest, s)
  }

  function GetUnpackInfo(s: seq<byte>): Parse<UnpackInfo> {
    var (_, s) :- GetId(s, ID_FOLDER);
    var (count, s) :- GetBounded(s, true);
    var (external, s) :- GetByte(s);
    if external > 0 then Err(Todo)
    else
      var (folders, s) :- GetFolders(s, count);
      var (_, s) :- GetId(s, ID_CODERS_UNPACK_SIZE);
      var (folders, s) :- GetFolderSizes(s, folders);
      var (id, s) :- GetByte(s);
      var ((digest, id), s) :- GetDigestSection(id, s, count);
      GetEnd(id, UnpackInfo(folders, digest), s)
  }

  function Bare(folders: seq<Folder>): (r: seq<Folder>)
    ensures |r| == |folders|
  {
    seq(|folders|, i requires 0 <= i < |folders| => folders[i].(size := []))
  }

  lemma {:induction false} FoldersRoundTrip(folders: seq<Folder>, rest: seq<byte>)
    requires GoodFolders(folders)
    ensures GetFolders(PutFolders(folders) + rest, |folders|) == Ok(Bare(folders), rest)
  {
    hide GetFolder, PutFolder, GoodFolder;
    if folders == [] {
      assert [] + rest == rest;
    } else {
      var tail := PutFolders(folders[1..]) + rest;
      assert PutFolders(folders) + rest == PutFolder(folders[0]) + tail;
      FolderRoundTrip(folders[0], tail);
      FoldersRoundTrip(folders[1..], rest);
      assert Bare(folders) == [folders[0].(size := [])] + Bare(folders[1..]);
    }
  }

  lemma {:induction false} FolderSizesRoundTrip(folders: seq<Folder>, rest: seq<byte>)
    requires GoodFolders(folders)
    ensures GetFolderSizes(PutFolderSizes(folders) + rest, Bare(folders)) == Ok(folders, rest)
  {
    hide GoodFolder;
    if folders == [] {
      assert [] + rest == rest;
    } else {
      hide GetFolderSizes, PutFolderSizes, GoodFolders, Bare;
      GoodTail(folders);
      FolderSizesRoundTrip(folders[1..], rest);
      FolderSizesStep(folders, rest);
    }
  }

  lemma GoodTail(folders: seq<Folder>)
    requires GoodFolders(folders) && folders != []
    ensures GoodFolder(folders[0]) && GoodFolders(folders[1..]) && folders == [folders[0]] + folders[1..]
  {
    hide GoodFolder;
  }

  lemma FolderSizesStep(folders: seq<Folder>, rest: seq<byte>)
    requires folders != [] && GoodFolder(folders[0])
    ensures var tail := GetFolderSizes(PutFolderSizes(folders[1..]) + rest, Bare(folders[1..]));
            tail.Ok? ==>
              GetFolderSizes(PutFolderSizes(folders) + rest, Bare(folders)) == Ok([folders[0]] + tail.value, tail.rest)
  {
    hide GetSizeList, PutSizes, SumOuts, GoodFolder;
    var f := folders[0];
    var tail := PutFolderSizes(folders[1..]) + rest;
    SizesOfGood(f);
    assert PutFolderSizes(folders) + rest == PutSizes(f.size) + tail;
    SizeListRoundTrip(f.size, tail);
    assert Bare(folders)[1..] == Bare(folders[1..]);
  }

  lemma SizesOfGood(f: Folder)
    requires GoodFolder(f)
    ensures 0 < |f.size| == SumOuts(f.coder) <= MAX_UINT32
  {
  }

  lemma UnpackInfoRoundTrip(u: UnpackInfo, rest: seq<byte>)
    requires GoodUnpackInfo(u)
    ensures GetUnpackInfo(PutUnpackInfo(u) + rest) == Ok(u, rest)
  {
    hide GetUint64, PutUint64, GetFolders, PutFolders, GetFolderSizes, PutFolderSizes, GetDigestSection,
      PutDigestSection, GoodFolder;
    var d := PutDigestSection(u.digest) + [ID_END] + rest;
    DigestSectionRoundTrip(u.digest, ID_END, rest);
    var z := PutFolderSizes(u.folder) + d;
    FolderSizesRoundTrip(u.folder, d);
    var f := PutFolders(u.folder) + ([ID_CODERS_UNPACK_SIZE] + z);
    FoldersRoundTrip(u.folder, [ID_CODERS_UNPACK_SIZE] + z);
    var c := PutUint64(|u.folder|) + ([0] + f);
    Uint64RoundTrip(|u.folder|, [0] + f);
    assert PutUnpackInfo(u) + rest == [ID_FOLDER] + c;
    assert ([ID_FOLDER] + c)[1..] == c && ([0] + f)[1..] == f && ([ID_CODERS_UNPACK_SIZE] + z)[1..] == z;
  }

  // --- substreams ---

  const TWO64: int := 0x1_0000_0000_0000_0000

  function Sum(counts: seq<u64>): nat {
    if counts == [] then 0 else counts[0] + Sum(counts[1..])
  }

  function AllOnes(n: nat): (r: seq<u64>)
    ensures |r| == n
  {
    seq(n, _ => 1)
  }

  // The last size, searching down, whose output no bind pair takes.
  function LastUnbound(f: Folder, i: nat): (r: Option<u64>)
    requires i <= |f.size|
  {
    if i == 0 then None
    else if FindOut(f.bindPair, i - 1).None? then Some(f.size[i - 1])
    else LastUnbound(f, i - 1)
  }

  // unpackSize
  function UnpackSize(f: Folder): u64 {
    if |f.size| == 0 then 0
    else
      match LastUnbound(f, |f.size|)
      case Some(size) => size
      case None => f.size[|f.size| - 1]
  }

  // A folder's share of the size list: all but its last size, then what is left of the
  // unpack size, as uint64. Running past the end of the list is an index error.
  function GetShare(s: seq<byte>, count: u64, unpackSize: u64, room: nat): (r: Parse<seq<u64>>)
    ensures r.Ok? ==> |r.value| == count <= room
  {
    if count == 0 then Ok([], s)
    else
      var (sizes, s) :- GetSizeList(s, if count - 1 < room then count - 1 else room);
      if count > room then Err(Panic)
      else Ok(sizes + [(unpackSize - Sum(sizes)) % TWO64], s)
  }

  function GetShares(s: seq<byte>, streams: seq<u64>, folders: seq<Folder>, room: nat): (r: Parse<seq<u64>>)
    requires |streams| == |folders|
    decreases |streams|
  {
    if streams == [] then Ok([], s)
    else
      var (share, s) :- GetShare(s, streams[0], UnpackSize(folders[0]), room);
      var (shares, s) :- GetShares(s, streams[1..], folders[1..], room - |share|);
      Ok(share + shares, s)
  }

  function GetStreams(id: byte, s: seq<byte>, folders: nat): (r: Parse<(seq<u64>, byte)>)
    ensures r.Ok? ==> |r.value.0| == folders
  {
    if id == ID_NUM_UNPACK_STREAM then
      var (streams, s) :- GetSizeList(s, folders);
      var (id, s) :- GetByte(s);
      Ok((streams, id), s)
    else Ok((AllOnes(folders), id), s)
  }

  function GetShareSection(id: byte, s: seq<byte>, streams: seq<u64>, folders: seq<Folder>, files: nat)
    : Parse<(seq<u64>, byte)>
    requires |streams| == |folders|
  {
    if id == ID_SIZE then
      var (size, s) :- GetShares(s, streams, folders, files);
      var (id, s) :- GetByte(s);
      Ok((size, id), s)
    else Ok(([], id), s)
  }

  function GetSubStreamsInfo(s: seq<byte>, folders: seq<Folder>): Parse<SubStreamsInfo> {
    var (id, s) :- GetByte(s);
    var ((streams, id), s) :- GetStreams(id, s, |folders|);
    var files := Sum(streams) % TWO64;
    if Check(files, false).Some? then Err(Check(files, false).value)
    else
      var ((size, id), s) :- GetShareSection(id, s, streams, folders, files);
      var ((digest, id), s) :- GetDigestSection(id, s, files);
      GetEnd(id, SubStreamsInfo(streams, size, digest), s)
  }

  // All but the last size of every folder.
  function PutShares(streams: seq<u64>, size: seq<u64>): seq<byte>
    requires |size| == Sum(streams)
    decreases |streams|
  {
    if streams == [] then []
    else if streams[0] == 0 then PutShares(streams[1..], size)
    else PutSizes(size[..streams[0] - 1]) + PutShares(streams[1..], size[streams[0]..])
  }

  predicate AnyShared(streams: seq<u64>) {
    exists i :: 0 <= i < |streams| && streams[i] > 1
  }

  // Every folder's sizes add up to its unpack size.
  predicate AddUp(streams: seq<u64>, size: seq<u64>, folders: seq<Folder>)
    requires |streams| == |folders| && |size| == Sum(streams)
    decreases |streams|
  {
    if streams == [] then true
    else
      && (streams[0] > 0 ==> Sum(size[..streams[0]]) == UnpackSize(folders[0]))
      && AddUp(streams[1..], size[streams[0]..], folders[1..])
  }

  // The last size of every folder is what the others leave of its unpack size, as a uint64.
  predicate LastsFollow(streams: seq<u64>, size: seq<u64>, folders: seq<Folder>)
    requires |streams| == |folders| && |size| == Sum(streams)
    decreases |streams|
  {
    if streams == [] then true
    else
      && (streams[0] > 0 ==> LastFollows(size[..streams[0]], UnpackSize(folders[0])))
      && LastsFollow(streams[1..], size[streams[0]..], folders[1..])
  }

  predicate LastFollows(share: seq<u64>, unpackSize: u64)
    requires share != []
  {
    share[|share| - 1] == (unpackSize - Sum(share[..|share| - 1])) % TWO64
  }

  // The sizes of the files of folder r add up.
  ghost predicate PartAddsUp(streams: seq<u64>, size: seq<u64>, folders: seq<Folder>, r: nat)
    requires r < |streams| == |folders|
  {
    var a, n := Sum(streams[..r]), streams[r];
    n > 0 ==> a + n <= |size| && Sum(size[a..a + n]) == UnpackSize(folders[r])
  }

  lemma PartShifted(streams: seq<u64>, size: seq<u64>, folders: seq<Folder>, r: nat)
    requires r + 1 < |streams| == |folders| && streams[0] <= |size|
    ensures PartAddsUp(streams, size, folders, r + 1) <==> PartAddsUp(streams[1..], size[streams[0]..], folders[1..], r)
  {
    hide UnpackSize;
    assert streams[..r + 1][1..] == streams[1..][..r];
    var n, a, m := streams[0], Sum(streams[1..][..r]), streams[r + 1];
    assert Sum(streams[..r + 1]) == n + a;
    if m > 0 && n + a + m <= |size| {
      assert size[n..][a..a + m] == size[n + a..n + a + m];
    }
  }

  function PutCountSection(streams: seq<u64>): seq<byte> {
    if streams == AllOnes(|streams|) then [] else [ID_NUM_UNPACK_STREAM] + PutSizes(streams)
  }

  function PutShareSection(streams: seq<u64>, size: seq<u64>): seq<byte>
    requires |size| > 0 ==> |size| == Sum(streams)
  {
    if |size| > 0 && AnyShared(streams) then [ID_SIZE] + PutShares(streams, size) else []
  }

  predicate GoodSubStreamsInfo(i: SubStreamsInfo, folders: seq<Folder>) {
    && |i.streams| == |folders|
    && Sum(i.streams) % TWO64 <= MAX_UINT32
    && (|i.size| > 0 ==>
          |i.size| == Sum(i.streams) && Sum(i.streams) < TWO64 && LastsFollow(i.streams, i.size, folders))
    && Covers(i.digest, Sum(i.streams) % TWO64)
  }

  function PutSubStreamsInfo(i: SubStreamsInfo): seq<byte>
    requires |i.size| > 0 ==> |i.size| == Sum(i.streams)
  {
    PutCountSection(i.streams) + PutShareSection(i.streams, i.size) + PutDigestSection(i.digest) + [ID_END]
  }

  // Sizes are not written when no folder holds two files.
  function Normal(i: SubStreamsInfo): SubStreamsInfo {
    if AnyShared(i.streams) then i else i.(size := [])
  }

  lemma ShareRoundTrip(size: seq<u64>, count: u64, unpackSize: u64, room: nat, rest: seq<byte>)
    requires 0 < count <= |size| && count <= room && LastFollows(size[..count], unpackSize)
    ensures GetShare(PutSizes(size[..count - 1]) + rest, count, unpackSize, room) == Ok(size[..count], rest)
  {
    hide GetSizeList, PutSizes, Sum;
    var head := size[..count - 1];
    SizeListRoundTrip(head, rest);
    assert size[..count] == head + [size[count - 1]];
    assert size[..count][..count - 1] == head;
  }

  lemma SumOne(v: u64)
    ensures Sum([v]) == v
  {
    assert [v][1..] == [];
  }

  lemma {:induction false} SumAppend(a: seq<u64>, b: seq<u64>)
    ensures Sum(a + b) == Sum(a) + Sum(b)
  {
    if a == [] {
      assert a + b == b;
    } else {
      assert (a + b)[1..] == a[1..] + b;
      SumAppend(a[1..], b);
    }
  }

  lemma {:induction false} SharesRoundTrip(streams: seq<u64>, size: seq<u64>, folders: seq<Folder>, room: nat,
      rest: seq<byte>)
    requires |streams| == |folders| && |size| == Sum(streams) && Sum(streams) <= room
    requires LastsFollow(streams, size, folders)
    ensures GetShares(PutShares(streams, size) + rest, streams, folders, room) == Ok(size, rest)
    decreases |streams|
  {
    hide GetShare, PutSizes, UnpackSize, GetShares, PutShares, Sum, LastFollows;
    if streams == [] {
      assert [] + rest == rest;
      NoShares(size, folders, room, rest);
    } else {
      var n := streams[0];
      PutSharesStep(streams, size);
      var tail := PutShares(streams[1..], size[n..]) + rest;
      SharesRoundTrip(streams[1..], size[n..], folders[1..], room - n, rest);
      if n == 0 {
        NoShare(tail, UnpackSize(folders[0]), room);
        assert [] + PutShares(streams[1..], size[n..]) + rest == tail;
        GetSharesStep(tail, streams, folders, room, [], tail, size[n..], rest);
      } else {
        var front := PutSizes(size[..n - 1]);
        assert front + PutShares(streams[1..], size[n..]) + rest == front + tail;
        ShareRoundTrip(size, n, UnpackSize(folders[0]), room, tail);
        GetSharesStep(front + tail, streams, folders, room, size[..n], tail, size[n..], rest);
      }
      assert size == size[..n] + size[n..];
    }
  }

  lemma NoShares(size: seq<u64>, folders: seq<Folder>, room: nat, rest: seq<byte>)
    requires folders == [] && |size| == Sum([])
    ensures size == [] && PutShares([], size) == [] && GetShares(rest, [], folders, room) == Ok([], rest)
  {
  }

  lemma PutSharesStep(streams: seq<u64>, size: seq<u64>)
    requires streams != [] && |size| == Sum(streams)
    ensures var n := streams[0];
            && n <= |size| && |size| - n == Sum(streams[1..])
            && PutShares(streams, size)
               == (if n == 0 then [] else PutSizes(size[..n - 1])) + PutShares(streams[1..], size[n..])
  {
    hide PutSizes;
  }

  lemma GetSharesStep(s: seq<byte>, streams: seq<u64>, folders: seq<Folder>, room: nat, share: seq<u64>, t: seq<byte>,
                      shares: seq<u64>, rest: seq<byte>)
    requires 0 < |streams| == |folders| && |share| <= room
    requires GetShare(s, streams[0], UnpackSize(folders[0]), room) == Ok(share, t)
    requires GetShares(t, streams[1..], folders[1..], room - |share|) == Ok(shares, rest)
    ensures GetShares(s, streams, folders, room) == Ok(share + shares, rest)
  {
    hide GetShare, UnpackSize;
  }

  lemma NoShare(s: seq<byte>, unpackSize: u64, room: nat)
    ensures GetShare(s, 0, unpackSize, room) == Ok([], s)
  {
  }

  lemma CountSectionRoundTrip(streams: seq<u64>, next: byte, rest: seq<byte>)
    requires next != ID_NUM_UNPACK_STREAM
    ensures var s := PutCountSection(streams) + ([next] + rest);
            s != [] && GetStreams(s[0], s[1..], |streams|) == Ok((streams, next), rest)
  {
    hide GetByte, GetSizeList, PutSizes, AllOnes;
    if streams != AllOnes(|streams|) {
      SizeListRoundTrip(streams, [next] + rest);
      Prefixed(ID_NUM_UNPACK_STREAM, PutSizes(streams), [next] + rest);
      NextByteIs(next, rest);
    } else {
      NotPrefixed(next, rest);
    }
  }

  lemma ShareSectionRoundTrip(i: SubStreamsInfo, folders: seq<Folder>, next: byte, rest: seq<byte>)
    requires GoodSubStreamsInfo(i, folders) && next != ID_SIZE
    ensures var s := PutShareSection(i.streams, i.size) + ([next] + rest);
            && s != [] && (s[0] == ID_SIZE || s[0] == next)
            && GetShareSection(s[0], s[1..], i.streams, folders, Sum(i.streams) % TWO64)
               == Ok((Normal(i).size, next), rest)
  {
    hide GetByte, GetShares, PutShares, LastsFollow, AnyShared, Sum;
    if |i.size| > 0 && AnyShared(i.streams) {
      SmallRemainder(Sum(i.streams), TWO64);
      SharesRoundTrip(i.streams, i.size, folders, Sum(i.streams), [next] + rest);
      Prefixed(ID_SIZE, PutShares(i.streams, i.size), [next] + rest);
      NextByteIs(next, rest);
    } else {
      NotPrefixed(next, rest);
    }
  }

  // Writing and reading substreams gives them back, with the sizes left out exactly when
  // no folder holds more than one file.
  lemma SubStreamsInfoRoundTrip(i: SubStreamsInfo, folders: seq<Folder>, rest: seq<byte>)
    requires GoodSubStreamsInfo(i, folders)
    ensures GetSubStreamsInfo(PutSubStreamsInfo(i) + rest, folders) == Ok(Normal(i), rest)
  {
    hide GetStreams, PutCountSection, GetShareSection, PutShareSection, GetDigestSection, PutDigestSection, LastsFollow,
      AnyShared, Sum, Normal, GoodSubStreamsInfo;
    var d := PutDigestSection(i.digest) + [ID_END] + rest;
    GoodCounts(i, folders);
    PutIs(i, folders, rest);
    DigestSectionRoundTrip(i.digest, ID_END, rest);
    DigestFirst(i.digest, rest);
    ShareSectionRoundTrip(i, folders, d[0], d[1..]);
    assert [d[0]] + d[1..] == d;
    var z := PutShareSection(i.streams, i.size) + d;
    CountSectionRoundTrip(i.streams, z[0], z[1..]);
    assert [z[0]] + z[1..] == z;
    NormalIs(i);
    var all := PutCountSection(i.streams) + z;
    assert all != [];
    SubStreamsFrom(all, folders, i.streams, z[0], z[1..], Normal(i).size, d[0], d[1..], i.digest, rest);
  }

  // Three sections read one after the other.
  lemma SubStreamsFrom(s: seq<byte>, folders: seq<Folder>, streams: seq<u64>, id1: byte, s1: seq<byte>, size: seq<u64>,
                       id2: byte, s2: seq<byte>, digest: seq<u32>, rest: seq<byte>)
    requires s != [] && |streams| == |folders| && Sum(streams) % TWO64 <= MAX_UINT32
    requires GetStreams(s[0], s[1..], |folders|) == Ok((streams, id1), s1)
    requires GetShareSection(id1, s1, streams, folders, Sum(streams) % TWO64) == Ok((size, id2), s2)
    requires GetDigestSection(id2, s2, Sum(streams) % TWO64) == Ok((digest, ID_END), rest)
    ensures GetSubStreamsInfo(s, folders) == Ok(SubStreamsInfo(streams, size, digest), rest)
  {
    hide GetStreams, GetShareSection, GetDigestSection, Sum;
  }

  lemma GoodCounts(i: SubStreamsInfo, folders: seq<Folder>)
    requires GoodSubStreamsInfo(i, folders)
    ensures |i.streams| == |folders| && Sum(i.streams) % TWO64 <= MAX_UINT32 && Covers(i.digest, Sum(i.streams) % TWO64)
    ensures |i.digest| <= MAX_UINT32
  {
  }

  lemma PutIs(i: SubStreamsInfo, folders: seq<Folder>, rest: seq<byte>)
    requires GoodSubStreamsInfo(i, folders)
    ensures |i.size| > 0 ==> |i.size| == Sum(i.streams)
    ensures PutSubStreamsInfo(i) + rest
            == PutCountSection(i.streams)
               + (PutShareSection(i.streams, i.size) + (PutDigestSection(i.digest) + [ID_END] + rest))
  {
    hide PutCountSection, PutShareSection, PutDigestSection, LastsFollow, Sum;
  }

  lemma NormalIs(i: SubStreamsInfo)
    ensures Normal(i) == SubStreamsInfo(i.streams, Normal(i).size, i.digest)
  {
  }

  // --- streams info ---

  predicate GoodStreamsInfo(i: StreamsInfo) {
    && (i.packInfo.Some? ==> GoodPackInfo(i.packInfo.value))
    && (i.unpackInfo.Some? ==> GoodUnpackInfo(i.unpackInfo.value))
    && (i.subStreamsInfo.Some? ==>
          i.unpackInfo.Some? && GoodSubStreamsInfo(i.subStreamsInfo.value, i.unpackInfo.value.folder))
  }

  // What printing asks for. Reading back takes more: a stream, a folder and numbers in their limits.
  predicate Printable(i: StreamsInfo) {
    && (i.unpackInfo.Some? ==> PrintableUnpack(i.unpackInfo.value))
    && (i.subStreamsInfo.Some? ==>
          |i.subStreamsInfo.value.size| > 0 ==> |i.subStreamsInfo.value.size| == Sum(i.subStreamsInfo.value.streams))
  }

  lemma GoodIsPrintable(i: StreamsInfo)
    requires GoodStreamsInfo(i)
    ensures Printable(i)
  {
    hide GoodFolders, Sum, LastsFollow, GoodPackInfo;
  }

  function PutPackSection(i: StreamsInfo): seq<byte> {
    if i.packInfo.Some? then [ID_PACK_INFO] + PutPackInfo(i.packInfo.value) else []
  }

  function PutUnpackSection(i: StreamsInfo): seq<byte>
    requires Printable(i)
  {
    if i.unpackInfo.Some? then [ID_UNPACK_INFO] + PutUnpackInfo(i.unpackInfo.value) else []
  }

  function PutSubStreamsSection(i: StreamsInfo): seq<byte>
    requires Printable(i)
  {
    if i.subStreamsInfo.Some? then
      [ID_SUB_STREAMS_INFO] + PutSubStreamsInfo(i.subStreamsInfo.value)
    else []
  }

  function PutStreamsInfo(i: StreamsInfo): seq<byte>
    requires Printable(i)
  {
    PutPackSection(i) + PutUnpackSection(i) + PutSubStreamsSection(i) + [ID_END]
  }

  function GetPackSection(id: byte, s: seq<byte>): Parse<(Option<PackInfo>, byte)> {
    if id == ID_PACK_INFO then
      var (p, s) :- GetPackInfo(s);
      var (id, s) :- GetByte(s);
      Ok((Some(p), id), s)
    else Ok((None, id), s)
  }

  function GetUnpackSection(id: byte, s: seq<byte>): Parse<(Option<UnpackInfo>, byte)> {
    if id == ID_UNPACK_INFO then
      var (u, s) :- GetUnpackInfo(s);
      var (id, s) :- GetByte(s);
      Ok((Some(u), id), s)
    else Ok((None, id), s)
  }

  function GetSubStreamsSection(id: byte, s: seq<byte>, unpack: Option<UnpackInfo>)
    : Parse<(Option<SubStreamsInfo>, byte)>
  {
    if id == ID_SUB_STREAMS_INFO then
      if unpack.None? then Err(MissingUnpackInfo)
      else
        var (i, s) :- GetSubStreamsInfo(s, unpack.value.folder);
        var (id, s) :- GetByte(s);
        Ok((Some(i), id), s)
    else Ok((None, id), s)
  }

  function GetStreamsInfo(s: seq<byte>): Parse<StreamsInfo> {
    var (id, s) :- GetByte(s);
    var ((pack, id), s) :- GetPackSection(id, s);
    var ((unpack, id), s) :- GetUnpackSection(id, s);
    var ((sub, id), s) :- GetSubStreamsSection(id, s, unpack);
    GetEnd(id, StreamsInfo(pack, unpack, sub), s)
  }

  function NormalStreams(i: StreamsInfo): StreamsInfo {
    if i.subStreamsInfo.Some? then i.(subStreamsInfo := Some(Normal(i.subStreamsInfo.value))) else i
  }

  lemma PackSectionRoundTrip(i: StreamsInfo, next: byte, rest: seq<byte>)
    requires GoodStreamsInfo(i) && next != ID_PACK_INFO
    ensures var s := PutPackSection(i) + ([next] + rest);
            s != [] && GetPackSection(s[0], s[1..]) == Ok((i.packInfo, next), rest)
  {
    hide GetByte, GetPackInfo, PutPackInfo, GoodPackInfo, GoodUnpackInfo, GoodSubStreamsInfo;
    var tail := [next] + rest;
    if i.packInfo.Some? {
      var p := i.packInfo.value;
      PackInfoRoundTrip(p, tail);
      Prefixed(ID_PACK_INFO, PutPackInfo(p), tail);
      NextByteIs(next, rest);
    } else {
      NotPrefixed(next, rest);
    }
  }

  lemma UnpackSectionRoundTrip(i: StreamsInfo, next: byte, rest: seq<byte>)
    requires GoodStreamsInfo(i) && next != ID_UNPACK_INFO && next != ID_PACK_INFO
    ensures var s := PutUnpackSection(i) + ([next] + rest);
            s != [] && s[0] != ID_PACK_INFO && GetUnpackSection(s[0], s[1..]) == Ok((i.unpackInfo, next), rest)
  {
    hide GetByte, GetUnpackInfo, PutUnpackInfo, GoodPackInfo, GoodUnpackInfo, GoodSubStreamsInfo;
    var tail := [next] + rest;
    if i.unpackInfo.Some? {
      var u := i.unpackInfo.value;
      GoodIsPrintable(i);
      UnpackInfoRoundTrip(u, tail);
      Prefixed(ID_UNPACK_INFO, PutUnpackInfo(u), tail);
      NextByteIs(next, rest);
    } else {
      NotPrefixed(next, rest);
    }
  }

  lemma SubStreamsSectionRoundTrip(i: StreamsInfo, next: byte, rest: seq<byte>)
    requires GoodStreamsInfo(i) && next == ID_END
    ensures var s := PutSubStreamsSection(i) + ([next] + rest);
            && s != [] && s[0] != ID_PACK_INFO && s[0] != ID_UNPACK_INFO
            && GetSubStreamsSection(s[0], s[1..], i.unpackInfo) == Ok((NormalStreams(i).subStreamsInfo, next), rest)
  {
    hide GetByte, GetSubStreamsInfo, PutSubStreamsInfo, GoodPackInfo, GoodUnpackInfo, GoodSubStreamsInfo, Normal;
    var tail := [next] + rest;
    if i.subStreamsInfo.Some? {
      var b, f := i.subStreamsInfo.value, i.unpackInfo.value.folder;
      GoodIsPrintable(i);
      SubStreamsInfoRoundTrip(b, f, tail);
      Prefixed(ID_SUB_STREAMS_INFO, PutSubStreamsInfo(b), tail);
      NextByteIs(next, rest);
    } else {
      NotPrefixed(next, rest);
    }
  }

  lemma StreamsInfoRoundTrip(i: StreamsInfo, rest: seq<byte>)
    requires GoodStreamsInfo(i)
    ensures GetStreamsInfo(PutStreamsInfo(i) + rest) == Ok(NormalStreams(i), rest)
  {
    hide GetPackSection, PutPackSection, GetUnpackSection, PutUnpackSection, GetSubStreamsSection, PutSubStreamsSection,
      GoodStreamsInfo, Printable, GetStreamsInfo, PutStreamsInfo, NormalStreams;
    GoodIsPrintable(i);
    var b := PutSubStreamsSection(i) + ([ID_END] + rest);
    SubStreamsSectionRoundTrip(i, ID_END, rest);
    HeadTail(b);
    var u := PutUnpackSection(i) + b;
    UnpackSectionRoundTrip(i, b[0], b[1..]);
    HeadTail(u);
    PackSectionRoundTrip(i, u[0], u[1..]);
    StreamsPut(i, rest);
    SectionsRead(PutPackSection(i) + u, i, u[0], u[1..], b[0], b[1..], rest);
  }

  lemma HeadTail(s: seq<byte>)
    requires s != []
    ensures [s[0]] + s[1..] == s
  {
  }

  lemma StreamsPut(i: StreamsInfo, rest: seq<byte>)
    requires Printable(i)
    ensures PutStreamsInfo(i) + rest
            == PutPackSection(i) + (PutUnpackSection(i) + (PutSubStreamsSection(i) + ([ID_END] + rest)))
  {
    hide PutPackSection, PutUnpackSection, PutSubStreamsSection, Printable;
  }

  lemma SectionsRead(s: seq<byte>, i: StreamsInfo, id1: byte, s1: seq<byte>, id2: byte, s2: seq<byte>, rest: seq<byte>)
    requires s != [] && GetPackSection(s[0], s[1..]) == Ok((i.packInfo, id1), s1)
    requires GetUnpackSection(id1, s1) == Ok((i.unpackInfo, id2), s2)
    requires GetSubStreamsSection(id2, s2, i.unpackInfo) == Ok((NormalStreams(i).subStreamsInfo, ID_END), rest)
    ensures GetStreamsInfo(s) == Ok(NormalStreams(i), rest)
  {
    hide GetPackSection, GetUnpackSection, GetSubStreamsSection, Normal;
  }
}
