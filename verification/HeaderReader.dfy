/** The header parser: methods that advance a source, each agreeing with its reading function. */
module HeaderReader {
  import opened Basics
  import opened HeaderData
  import opened HeaderNumbers
  import opened HeaderStreams

  // Bytes still to be read.
  class Source {
    var rest: seq<byte>

    constructor (bytes: seq<byte>)
      ensures rest == bytes
    {
      rest := bytes;
    }

    method ReadByte() returns (r: Result<byte>)
      modifies this
      ensures Agrees(GetByte(old(rest)), r, rest)
    {
      if |rest| == 0 {
        return Failure(EOF);
      }
      var b := rest[0];
      rest := rest[1..];
      return Success(b);
    }

    // Read, which takes what there is when the request cannot be filled.
    method Read(n: nat) returns (r: Result<seq<byte>>)
      modifies this
      ensures Agrees(GetBytes(old(rest), n), r, rest)
    {
      if n > 0 && |rest| == 0 {
        return Failure(EOF);
      }
      if |rest| < n {
        rest := [];
        return Failure(IncompleteRead);
      }
      var b := rest[..n];
      rest := rest[n..];
      return Success(b);
    }
  }

  // A method returned what a reading function gives, and left the source where it says.
  ghost predicate Agrees<T>(p: Parse<T>, r: Result<T>, rest: seq<byte>) {
    match p
    case Ok(v, t) => r == Success(v) && rest == t
    case Err(e) => r == Failure(e)
  }

  // A list that was read in part, with what reading the remainder gives.
  ghost function After<T>(done: seq<T>, p: Parse<seq<T>>): Parse<seq<T>> {
    match p
    case Ok(v, t) => Ok(done + v, t)
    case Err(e) => Err(e)
  }

  // One more element read.
  lemma AfterOne<T>(done: seq<T>, x: T, p: Parse<seq<T>>, q: Parse<seq<T>>)
    requires q == if p.Ok? then Ok([x] + p.value, p.rest) else Err(p.error)
    ensures After(done, q) == After(done + [x], p)
  {
    if p.Ok? {
      assert done + ([x] + p.value) == done + [x] + p.value;
    }
  }

  lemma {:induction false} LEAppend(b: seq<byte>, x: byte)
    requires |b| < 8
    ensures FromLE(b + [x]) == FromLE(b) + x * Pow256(|b|)
  {
    if b == [] {
      assert [] + [x] == [x];
      assert [x][1..] == [];
    } else {
      assert (b + [x])[1..] == b[1..] + [x];
      LEAppend(b[1..], x);
      PowNext(|b| - 1, x);
    }
  }

  lemma PowNext(n: nat, x: byte)
    requires n < 8
    ensures 0x100 * (x * Pow256(n)) == x * Pow256(n + 1)
  {
  }

  method ReadUint64(r: Source) returns (res: Result<u64>)
    modifies r
    ensures Agrees(GetUint64(old(r.rest)), res, r.rest)
  {
    hide FromLE, Pow256;
    var b :- r.ReadByte();
    var l := LeadingOnes(b);
    ghost var s := r.rest;
    var v: nat := 0;
    if l < 7 {
      v := (b - Lead(l)) * Pow256(l);
    }
    ghost var high := v;
    NoBytes();
    for i := 0 to l
      invariant i <= |s| && r.rest == s[i..] && v == high + FromLE(s[..i])
    {
      var b :- r.ReadByte();
      assert s[i..][1..] == s[i + 1..] && s[..i] + [b] == s[..i + 1];
      LEAppend(s[..i], b);
      v := v + b * Pow256(i);
    }
    GetUint64Is(old(r.rest), v);
    return Success(v);
  }

  lemma NoBytes()
    ensures FromLE([]) == 0
  {
  }

  lemma GetUint64Is(s: seq<byte>, v: nat)
    requires s != [] && LeadingOnes(s[0]) < |s|
    requires var l := LeadingOnes(s[0]);
             v == (if l < 7 then (s[0] - Lead(l)) * Pow256(l) else 0) + FromLE(s[1..][..l])
    ensures v < 0x1_0000_0000_0000_0000 && GetUint64(s) == Ok(v, s[1..][LeadingOnes(s[0])..])
  {
    LEBound(s[1..][..LeadingOnes(s[0])]);
  }

  method ReadUint64Bounded(r: Source, nonZero: bool) returns (res: Result<nat>)
    modifies r
    ensures Agrees(GetBounded(old(r.rest), nonZero), res, r.rest)
    ensures res.Success? ==> res.value <= MAX_UINT32
  {
    hide GetUint64;
    var v :- ReadUint64(r);
    var e := Check(v, nonZero);
    if e.Some? {
      return Failure(e.value);
    }
    return Success(v);
  }

  method ReadBool(r: Source, count: nat) returns (res: Result<seq<bool>>)
    modifies r
    ensures Agrees(GetBools(old(r.rest), count), res, r.rest)
  {
    var e := Check(count, true);
    if e.Some? {
      return Failure(e.value);
    }
    hide GetBits, Bit, After, AsBits;
    ghost var whole := GetBits(r.rest, 0, 0, count);
    var defined, b: bv8, mask: bv8 := [], 0, 0;
    AfterNone(whole);
    for i := 0 to count
      invariant |defined| == i && After(defined, GetBits(r.rest, b, mask, count - i)) == whole
    {
      if mask == 0 {
        ghost var s := r.rest;
        var next := r.ReadByte();
        if next.Failure? {
          NoByteLeft(s, b, count - i);
          AfterError(defined, EOF);
          return Failure(next.error);
        }
        NextByte(s, b, count - i);
        b := AsBits(next.value);
        mask := 0x80;
      }
      BitStep(r.rest, defined, b, mask, count - i);
      defined := defined + [Bit(b, mask)];
      mask := mask >> 1;
    }
    NoBits(r.rest, b, mask);
    AfterAll(defined, r.rest);
    return Success(defined);
  }

  lemma AfterNone<T>(p: Parse<seq<T>>)
    ensures After([], p) == p
  {
    if p.Ok? {
      assert [] + p.value == p.value;
    }
  }

  lemma AfterAll<T>(done: seq<T>, rest: seq<byte>)
    ensures After(done, Ok([], rest)) == Ok(done, rest)
  {
    assert done + [] == done;
  }

  lemma AfterError<T>(done: seq<T>, e: Error)
    ensures After(done, Err(e)) == Err(e)
  {
  }

  lemma NoByteLeft(s: seq<byte>, b: bv8, count: nat)
    requires s == [] && count > 0
    ensures GetBits(s, b, 0, count) == Err(EOF)
  {
  }

  lemma BitStep(s: seq<byte>, done: seq<bool>, b: bv8, mask: bv8, count: nat)
    requires mask != 0 && count > 0
    ensures After(done, GetBits(s, b, mask, count)) == After(done + [Bit(b, mask)], GetBits(s, b, mask >> 1, count - 1))
  {
    AfterOne(done, Bit(b, mask), GetBits(s, b, mask >> 1, count - 1), GetBits(s, b, mask, count));
  }

  method ReadOptionalBool(r: Source, count: nat) returns (res: Result<seq<bool>>)
    modifies r
    ensures Agrees(GetOptionalBools(old(r.rest), count), res, r.rest)
  {
    hide GetBools;
    var e := Check(count, true);
    if e.Some? {
      return Failure(e.value);
    }
    var all :- r.ReadByte();
    if all == 0 {
      res := ReadBool(r, count);
      return;
    }
    var defined := [];
    for i := 0 to count
      invariant defined == seq(i, _ => true)
    {
      defined := defined + [true];
    }
    return Success(defined);
  }

  method ReadSizeList(r: Source, count: nat) returns (res: Result<seq<u64>>)
    modifies r
    ensures Agrees(GetSizeList(old(r.rest), count), res, r.rest)
  {
    hide GetUint64, After;
    var sizes: seq<u64> := [];
    ghost var whole := GetSizeList(r.rest, count);
    AfterNone(whole);
    for i := 0 to count
      invariant |sizes| == i && After(sizes, GetSizeList(r.rest, count - i)) == whole
    {
      ghost var s := r.rest;
      var size := ReadUint64(r);
      if size.Failure? {
        AfterError(sizes, size.error);
        return Failure(size.error);
      }
      AfterOne(sizes, size.value, GetSizeList(r.rest, count - i - 1), GetSizeList(s, count - i));
      sizes := sizes + [size.value];
    }
    AfterAll(sizes, r.rest);
    return Success(sizes);
  }

  method ReadSizes(r: Source, count: nat) returns (res: Result<seq<u64>>)
    modifies r
    ensures Agrees(GetSizes(old(r.rest), count), res, r.rest)
  {
    hide GetSizeList;
    var e := Check(count, true);
    if e.Some? {
      return Failure(e.value);
    }
    res := ReadSizeList(r, count);
  }

  // binary.Read of a little-endian value
  method ReadValue(r: Source, defined: bool, width: nat) returns (res: Result<Option<nat>>)
    requires width <= 8
    modifies r
    ensures Agrees(GetValue(old(r.rest), defined, width), res, r.rest)
  {
    hide FromLE;
    if !defined {
      return Success(None);
    }
    if |r.rest| < width {
      return Failure(EOF);
    }
    var v := FromLE(r.rest[..width]);
    r.rest := r.rest[width..];
    return Success(Some(v));
  }

  method ReadValues(r: Source, defined: seq<bool>, width: nat) returns (res: Result<seq<Option<nat>>>)
    requires width <= 8
    modifies r
    ensures Agrees(GetValues(old(r.rest), defined, width), res, r.rest)
  {
    hide GetValue, After;
    var values: seq<Option<nat>> := [];
    ghost var whole := GetValues(r.rest, defined, width);
    AfterNone(whole);
    assert defined[0..] == defined;
    for i := 0 to |defined|
      invariant |values| == i && After(values, GetValues(r.rest, defined[i..], width)) == whole
    {
      ghost var s := r.rest;
      assert defined[i..][1..] == defined[i + 1..];
      var v := ReadValue(r, defined[i], width);
      if v.Failure? {
        AfterError(values, v.error);
        return Failure(v.error);
      }
      AfterOne(values, v.value, GetValues(r.rest, defined[i + 1..], width), GetValues(s, defined[i..], width));
      values := values + [v.value];
    }
    AfterAll(values, r.rest);
    return Success(values);
  }

  method ReadCRC(r: Source, count: nat) returns (res: Result<seq<u32>>)
    modifies r
    ensures Agrees(GetCRC(old(r.rest), count), res, r.rest)
  {
    hide GetOptionalBools, GetValues, Filled;
    var e := Check(count, true);
    if e.Some? {
      return Failure(e.value);
    }
    var defined :- ReadOptionalBool(r, count);
    var values :- ReadValues(r, defined, 4);
    return Success(Filled(values));
  }

  // The list section behind an id byte, and the id after it.
  method ReadSizeSection(r: Source, id: byte, count: nat) returns (res: Result<(seq<u64>, byte)>)
    modifies r
    ensures Agrees(GetSizeSection(id, old(r.rest), count), res, r.rest)
  {
    hide GetSizes;
    if id == ID_SIZE {
      var sizes :- ReadSizes(r, count);
      var next :- r.ReadByte();
      return Success((sizes, next));
    }
    return Success(([], id));
  }

  method ReadDigestSection(r: Source, id: byte, count: nat) returns (res: Result<(seq<u32>, byte)>)
    modifies r
    ensures Agrees(GetDigestSection(id, old(r.rest), count), res, r.rest)
  {
    hide GetCRC;
    if id == ID_CRC {
      var digest :- ReadCRC(r, count);
      var next :- r.ReadByte();
      return Success((digest, next));
    }
    return Success(([], id));
  }

  method ReadPackInfo(r: Source) returns (res: Result<PackInfo>)
    modifies r
    ensures Agrees(GetPackInfo(old(r.rest)), res, r.rest)
  {
    hide GetUint64, GetBounded, GetSizeSection, GetDigestSection;
    var position :- ReadUint64(r);
    var streams :- ReadUint64Bounded(r, true);
    var id :- r.ReadByte();
    var size :- ReadSizeSection(r, id, streams);
    var digest :- ReadDigestSection(r, size.1, streams);
    if digest.1 != ID_END {
      return Failure(UnexpectedId);
    }
    return Success(PackInfo(position, streams, size.0, digest.0));
  }

  method ReadStreamCounts(r: Source, v: byte) returns (res: Result<(nat, nat)>)
    modifies r
    ensures Agrees(GetStreamCounts(v, old(r.rest)), res, r.rest)
  {
    hide GetBounded;
    if v / 0x10 % 2 == 1 {
      var ins :- ReadUint64Bounded(r, true);
      var outs :- ReadUint64Bounded(r, true);
      return Success((ins, outs));
    }
    return Success((1, 1));
  }

  method ReadProperties(r: Source, v: byte) returns (res: Result<seq<byte>>)
    modifies r
    ensures Agrees(GetProperties(v, old(r.rest)), res, r.rest)
  {
    hide GetBounded, GetBytes;
    if v / 0x20 % 2 == 1 {
      var size :- ReadUint64Bounded(r, true);
      res := r.Read(size);
      return;
    }
    return Success([]);
  }

  method ReadCoder(r: Source) returns (res: Result<Coder>)
    modifies r
    ensures Agrees(GetCoder(old(r.rest)), res, r.rest)
  {
    hide GetBytes, GetStreamCounts, GetProperties;
    var v :- r.ReadByte();
    var id :- r.Read(v % 0x10);
    var counts :- ReadStreamCounts(r, v);
    var properties :- ReadProperties(r, v);
    return Success(Coder(id, counts.0, counts.1, properties));
  }

  // The coders, with their inputs and outputs counted on the way.
  method ReadCoders(r: Source, count: nat) returns (res: Result<seq<Coder>>, ins: nat, outs: nat)
    modifies r
    ensures Agrees(GetCoders(old(r.rest), count), res, r.rest)
    ensures res.Success? ==> ins == SumIns(res.value) && outs == SumOuts(res.value)
  {
    hide GetCoder, After;
    var coders: seq<Coder> := [];
    ins, outs := 0, 0;
    ghost var whole := GetCoders(r.rest, count);
    AfterNone(whole);
    for i := 0 to count
      invariant After(coders, GetCoders(r.rest, count - i)) == whole
      invariant ins == SumIns(coders) && outs == SumOuts(coders)
    {
      ghost var s := r.rest;
      var c := ReadCoder(r);
      if c.Failure? {
        AfterError(coders, c.error);
        return Failure(c.error), ins, outs;
      }
      AfterOne(coders, c.value, GetCoders(r.rest, count - i - 1), GetCoders(s, count - i));
      SumsAppend(coders, c.value);
      coders := coders + [c.value];
      ins, outs := ins + c.value.ins, outs + c.value.outs;
    }
    AfterAll(coders, r.rest);
    return Success(coders), ins, outs;
  }

  lemma {:induction false} SumsAppend(coders: seq<Coder>, c: Coder)
    ensures SumIns(coders + [c]) == SumIns(coders) + c.ins
    ensures SumOuts(coders + [c]) == SumOuts(coders) + c.outs
  {
    if coders != [] {
      assert (coders + [c])[1..] == coders[1..] + [c];
      SumsAppend(coders[1..], c);
    } else {
      assert [] + [c] == [c];
    }
  }

  method ReadPair(r: Source) returns (res: Result<BindPair>)
    modifies r
    ensures Agrees(GetPair(old(r.rest)), res, r.rest)
  {
    hide GetBounded;
    var ins :- ReadUint64Bounded(r, false);
    var outs :- ReadUint64Bounded(r, false);
    return Success(BindPair(ins, outs));
  }

  method ReadPairs(r: Source, count: nat) returns (res: Result<seq<BindPair>>)
    modifies r
    ensures Agrees(GetPairs(old(r.rest), count), res, r.rest)
  {
    hide GetPair, After;
    var pairs: seq<BindPair> := [];
    ghost var whole := GetPairs(r.rest, count);
    AfterNone(whole);
    for i := 0 to count
      invariant After(pairs, GetPairs(r.rest, count - i)) == whole
    {
      ghost var s := r.rest;
      var p := ReadPair(r);
      if p.Failure? {
        AfterError(pairs, p.error);
        return Failure(p.error);
      }
      AfterOne(pairs, p.value, GetPairs(r.rest, count - i - 1), GetPairs(s, count - i));
      pairs := pairs + [p.value];
    }
    AfterAll(pairs, r.rest);
    return Success(pairs);
  }

  // The single packed stream is the input that no bind pair feeds.
  method InferPacked(pairs: seq<BindPair>, ins: nat) returns (packed: seq<u64>)
    requires ins <= MAX_UINT32
    ensures packed == UnboundIns(pairs, 0, ins)
  {
    packed := [];
    for i := 0 to ins
      invariant packed + UnboundIns(pairs, i, ins) == UnboundIns(pairs, 0, ins)
    {
      hide FindIn, UnboundIns;
      UnboundStep(pairs, i, ins);
      var p := FindIn(pairs, i);
      if p.None? {
        packed := packed + [i];
      }
    }
  }

  method ReadPacked(r: Source, pairs: seq<BindPair>, ins: nat, packedStreams: nat) returns (res: Result<seq<u64>>)
    requires ins <= MAX_UINT32
    modifies r
    ensures Agrees(GetPacked(old(r.rest), pairs, ins, packedStreams), res, r.rest)
  {
    hide GetSizeList, UnboundIns;
    if packedStreams == 1 {
      var packed := InferPacked(pairs, ins);
      return Success(packed);
    }
    res := ReadSizeList(r, packedStreams);
  }

  method ReadFolder(r: Source) returns (res: Result<Folder>)
    modifies r
    ensures Agrees(GetFolder(old(r.rest)), res, r.rest)
  {
    hide GetBounded, GetCoders, GetPairs, GetPacked, SumIns, SumOuts;
    var count :- ReadUint64Bounded(r, true);
    var coders, ins, outs := ReadCoders(r, count);
    if coders.Failure? {
      return Failure(coders.error);
    }
    if Check(ins, true).Some? {
      return Failure(Check(ins, true).value);
    }
    if Check(outs, true).Some? {
      return Failure(Check(outs, true).value);
    }
    if ins < outs {
      return Failure(InvalidBindPair);
    }
    var pairs :- ReadPairs(r, outs - 1);
    var packedStreams := ins - (outs - 1);
    var packed :- ReadPacked(r, pairs, ins, packedStreams);
    return Success(Folder(ins, outs, packedStreams, coders.value, pairs, [], packed));
  }

  method ReadId(r: Source, id: byte) returns (res: Result<byte>)
    modifies r
    ensures Agrees(GetId(old(r.rest), id), res, r.rest)
  {
    var b :- r.ReadByte();
    if b != id {
      return Failure(UnexpectedId);
    }
    return Success(b);
  }

  method ReadFolders(r: Source, count: nat) returns (res: Result<seq<Folder>>)
    modifies r
    ensures Agrees(GetFolders(old(r.rest), count), res, r.rest)
  {
    hide GetFolder, After;
    var folders: seq<Folder> := [];
    ghost var whole := GetFolders(r.rest, count);
    AfterNone(whole);
    for i := 0 to count
      invariant After(folders, GetFolders(r.rest, count - i)) == whole
    {
      ghost var s := r.rest;
      var f := ReadFolder(r);
      if f.Failure? {
        AfterError(folders, f.error);
        return Failure(f.error);
      }
      AfterOne(folders, f.value, GetFolders(r.rest, count - i - 1), GetFolders(s, count - i));
      folders := folders + [f.value];
    }
    AfterAll(folders, r.rest);
    return Success(folders);
  }

  method CountOuts(coders: seq<Coder>) returns (total: nat)
    ensures total == SumOuts(coders)
  {
    total := 0;
    for i := 0 to |coders|
      invariant total + SumOuts(coders[i..]) == SumOuts(coders)
    {
      assert coders[i..][1..] == coders[i + 1..];
      total := total + coders[i].outs;
    }
  }

  method ReadFolderSizes(r: Source, folders: seq<Folder>) returns (res: Result<seq<Folder>>)
    modifies r
    ensures Agrees(GetFolderSizes(old(r.rest), folders), res, r.rest)
  {
    hide GetSizeList, SumOuts, After;
    var sized: seq<Folder> := [];
    ghost var whole := GetFolderSizes(r.rest, folders);
    AfterNone(whole);
    assert folders[0..] == folders;
    for i := 0 to |folders|
      invariant After(sized, GetFolderSizes(r.rest, folders[i..])) == whole
    {
      ghost var s := r.rest;
      assert folders[i..][1..] == folders[i + 1..];
      var total := CountOuts(folders[i].coder);
      if Check(total, true).Some? {
        AfterError(sized, Check(total, true).value);
        return Failure(Check(total, true).value);
      }
      var size := ReadSizeList(r, total);
      if size.Failure? {
        AfterError(sized, size.error);
        return Failure(size.error);
      }
      var f := folders[i].(size := size.value);
      AfterOne(sized, f, GetFolderSizes(r.rest, folders[i + 1..]), GetFolderSizes(s, folders[i..]));
      sized := sized + [f];
    }
    AfterAll(sized, r.rest);
    return Success(sized);
  }

  method ReadUnpackInfo(r: Source) returns (res: Result<UnpackInfo>)
    modifies r
    ensures Agrees(GetUnpackInfo(old(r.rest)), res, r.rest)
  {
    hide GetId, GetBounded, GetFolders, GetFolderSizes, GetDigestSection;
    var _ :- ReadId(r, ID_FOLDER);
    var count :- ReadUint64Bounded(r, true);
    var external :- r.ReadByte();
    if external > 0 {
      return Failure(Todo);
    }
    var folders :- ReadFolders(r, count);
    var _ :- ReadId(r, ID_CODERS_UNPACK_SIZE);
    var sized :- ReadFolderSizes(r, folders);
    var id :- r.ReadByte();
    var digest :- ReadDigestSection(r, id, count);
    if digest.1 != ID_END {
      return Failure(UnexpectedId);
    }
    return Success(UnpackInfo(sized, digest.0));
  }

  // --- substreams ---

  lemma AfterMany<T>(done: seq<T>, more: seq<T>, p: Parse<seq<T>>, q: Parse<seq<T>>)
    requires q == if p.Ok? then Ok(more + p.value, p.rest) else Err(p.error)
    ensures After(done, q) == After(done + more, p)
  {
    if p.Ok? {
      assert done + (more + p.value) == done + more + p.value;
    }
  }

  lemma WrapMore(sum: nat, v: nat)
    ensures (sum % TWO64 + v) % TWO64 == (sum + v) % TWO64
  {
  }

  lemma WrapLess(u: nat, sum: nat)
    ensures (u - sum % TWO64) % TWO64 == (u - sum) % TWO64
  {
  }

  // The sizes of one folder's files: the last one is what the others leave of the folder.
  // Past the end of the list the assignment panics, whatever was read.
  method ReadShare(r: Source, count: u64, unpackSize: u64, room: nat) returns (res: Result<seq<u64>>)
    requires count > 0
    modifies r
    ensures Agrees(GetShare(old(r.rest), count, unpackSize, room), res, r.rest)
  {
    hide GetUint64, After, Sum;
    var sizes: seq<u64> := [];
    var total: u64 := 0;
    ghost var n := if count - 1 < room then count - 1 else room;
    ghost var whole := GetSizeList(r.rest, n);
    AfterNone(whole);
    NothingSums();
    for j := 1 to count
      invariant |sizes| == j - 1 <= n && After(sizes, GetSizeList(r.rest, n - |sizes|)) == whole
      invariant total == Sum(sizes) % TWO64
    {
      if |sizes| == room {
        AfterAll(sizes, r.rest);
        return Failure(Panic);
      }
      ghost var s := r.rest;
      var size := ReadUint64(r);
      if size.Failure? {
        AfterError(sizes, size.error);
        return Failure(size.error);
      }
      AfterOne(sizes, size.value, GetSizeList(r.rest, n - j), GetSizeList(s, n - |sizes|));
      SumMore(sizes, size.value);
      sizes := sizes + [size.value];
      total := (total + size.value) % TWO64;
    }
    AfterAll(sizes, r.rest);
    if |sizes| == room {
      return Failure(Panic);
    }
    WrapLess(unpackSize, Sum(sizes));
    return Success(sizes + [(unpackSize - total) % TWO64]);
  }

  lemma NothingSums()
    ensures Sum([]) == 0 && 0 % TWO64 == 0
  {
  }

  lemma SumMore(sizes: seq<u64>, v: u64)
    ensures Sum(sizes + [v]) == Sum(sizes) + v
    ensures (Sum(sizes) % TWO64 + v) % TWO64 == Sum(sizes + [v]) % TWO64
  {
    SumAppend(sizes, [v]);
    assert [v][1..] == [];
    WrapMore(Sum(sizes), v);
  }

  method ReadShares(r: Source, streams: seq<u64>, folders: seq<Folder>, files: nat) returns (res: Result<seq<u64>>)
    requires |streams| == |folders|
    modifies r
    ensures Agrees(GetShares(old(r.rest), streams, folders, files), res, r.rest)
  {
    hide GetShare, UnpackSize, After;
    var size: seq<u64> := [];
    ghost var whole := GetShares(r.rest, streams, folders, files);
    AfterNone(whole);
    assert streams[0..] == streams && folders[0..] == folders;
    for i := 0 to |streams|
      invariant |size| <= files
      invariant After(size, GetShares(r.rest, streams[i..], folders[i..], files - |size|)) == whole
    {
      assert streams[i..][1..] == streams[i + 1..] && folders[i..][1..] == folders[i + 1..];
      ghost var s := r.rest;
      if streams[i] == 0 {
        SharesEmpty(s, streams[i..], folders[i..], files - |size|);
        continue;
      }
      var share := ReadShare(r, streams[i], UnpackSize(folders[i]), files - |size|);
      if share.Failure? {
        AfterError(size, share.error);
        return Failure(share.error);
      }
      ShareFits(s, streams[i], UnpackSize(folders[i]), files - |size|);
      AfterMany(size, share.value,
        GetShares(r.rest, streams[i + 1..], folders[i + 1..], files - |size| - |share.value|),
                GetShares(s, streams[i..], folders[i..], files - |size|));
      size := size + share.value;
    }
    AfterAll(size, r.rest);
    return Success(size);
  }

  lemma ShareFits(s: seq<byte>, count: u64, unpackSize: u64, room: nat)
    ensures GetShare(s, count, unpackSize, room).Ok? ==> |GetShare(s, count, unpackSize, room).value| <= room
  {
  }

  lemma SharesEmpty(s: seq<byte>, streams: seq<u64>, folders: seq<Folder>, room: nat)
    requires |streams| == |folders| && streams != [] && streams[0] == 0
    ensures GetShares(s, streams, folders, room) == GetShares(s, streams[1..], folders[1..], room)
  {
    hide UnpackSize;
    NoShare(s, UnpackSize(folders[0]), room);
    AfterNone(GetShares(s, streams[1..], folders[1..], room));
  }

  method ReadStreams(r: Source, id: byte, folders: nat) returns (res: Result<(seq<u64>, byte)>)
    modifies r
    ensures Agrees(GetStreams(id, old(r.rest), folders), res, r.rest)
  {
    hide GetSizeList;
    if id == ID_NUM_UNPACK_STREAM {
      var streams :- ReadSizeList(r, folders);
      var next :- r.ReadByte();
      return Success((streams, next));
    }
    var ones: seq<u64> := [];
    for i := 0 to folders
      invariant ones == AllOnes(i)
    {
      ones := ones + [1];
    }
    return Success((ones, id));
  }

  // The number of files, counted in a uint64.
  method CountFiles(streams: seq<u64>) returns (files: u64)
    ensures files == Sum(streams) % TWO64
  {
    hide Sum;
    files := 0;
    NothingSums();
    for i := 0 to |streams|
      invariant files == Sum(streams[..i]) % TWO64
    {
      SumMore(streams[..i], streams[i]);
      assert streams[..i + 1] == streams[..i] + [streams[i]];
      files := (files + streams[i]) % TWO64;
    }
    assert streams[..|streams|] == streams;
  }

  method ReadShareSection(r: Source, id: byte, streams: seq<u64>, folders: seq<Folder>, files: nat)
    returns (res: Result<(seq<u64>, byte)>)
    requires |streams| == |folders|
    modifies r
    ensures Agrees(GetShareSection(id, old(r.rest), streams, folders, files), res, r.rest)
  {
    hide GetShares;
    if id == ID_SIZE {
      var size :- ReadShares(r, streams, folders, files);
      var next :- r.ReadByte();
      return Success((size, next));
    }
    return Success(([], id));
  }

  method ReadSubStreamsInfo(r: Source, folders: seq<Folder>) returns (res: Result<SubStreamsInfo>)
    modifies r
    ensures Agrees(GetSubStreamsInfo(old(r.rest), folders), res, r.rest)
  {
    hide GetStreams, GetShareSection, GetDigestSection, Sum;
    var id :- r.ReadByte();
    ghost var s := r.rest;
    var streams :- ReadStreams(r, id, |folders|);
    assert |streams.0| == |folders| by {
      assert GetStreams(id, s, |folders|).Ok?;
    }
    var files := CountFiles(streams.0);
    if Check(files, false).Some? {
      return Failure(Check(files, false).value);
    }
    var size :- ReadShareSection(r, streams.1, streams.0, folders, files);
    var digest :- ReadDigestSection(r, size.1, files);
    if digest.1 != ID_END {
      return Failure(UnexpectedId);
    }
    return Success(SubStreamsInfo(streams.0, size.0, digest.0));
  }

  // --- streams info ---

  method ReadPackSection(r: Source, id: byte) returns (res: Result<(Option<PackInfo>, byte)>)
    modifies r
    ensures Agrees(GetPackSection(id, old(r.rest)), res, r.rest)
  {
    hide GetPackInfo;
    if id == ID_PACK_INFO {
      var p :- ReadPackInfo(r);
      var next :- r.ReadByte();
      return Success((Some(p), next));
    }
    return Success((None, id));
  }

  method ReadUnpackSection(r: Source, id: byte) returns (res: Result<(Option<UnpackInfo>, byte)>)
    modifies r
    ensures Agrees(GetUnpackSection(id, old(r.rest)), res, r.rest)
  {
    hide GetUnpackInfo;
    if id == ID_UNPACK_INFO {
      var u :- ReadUnpackInfo(r);
      var next :- r.ReadByte();
      return Success((Some(u), next));
    }
    return Success((None, id));
  }

  method ReadSubStreamsSection(r: Source, id: byte, unpack: Option<UnpackInfo>)
    returns (res: Result<(Option<SubStreamsInfo>, byte)>)
    modifies r
    ensures Agrees(GetSubStreamsSection(id, old(r.rest), unpack), res, r.rest)
  {
    hide GetSubStreamsInfo;
    if id == ID_SUB_STREAMS_INFO {
      if unpack.None? {
        return Failure(MissingUnpackInfo);
      }
      var i :- ReadSubStreamsInfo(r, unpack.value.folder);
      var next :- r.ReadByte();
      return Success((Some(i), next));
    }
    return Success((None, id));
  }

  method ReadStreamsInfo(r: Source) returns (res: Result<StreamsInfo>)
    modifies r
    ensures Agrees(GetStreamsInfo(old(r.rest)), res, r.rest)
  {
    hide GetPackSection, GetUnpackSection, GetSubStreamsSection;
    var id :- r.ReadByte();
    var pack :- ReadPackSection(r, id);
    var unpack :- ReadUnpackSection(r, pack.1);
    var sub :- ReadSubStreamsSection(r, unpack.1, unpack.0);
    if sub.1 != ID_END {
      return Failure(UnexpectedId);
    }
    return Success(StreamsInfo(pack.0, unpack.0, sub.0));
  }
}
