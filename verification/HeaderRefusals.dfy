/** What the reader of headers refuses, and with what error; and two readings that are easy to get wrong. */
module HeaderRefusals {
  import opened Basics
  import opened HeaderData
  import opened HeaderNumbers
  import opened HeaderStreams
  import opened HeaderFiles
  import opened HeaderRoundTrip

  lemma FirstByteOf(b: byte, s: seq<byte>)
    ensures GetByte([b] + s) == Ok(b, s)
  {
    assert ([b] + s)[1..] == s;
  }

  // --- counts ---

  // A count is at most 2^32 - 1, and where there has to be something it is not zero.
  lemma CountRead(v: u64, nonZero: bool, rest: seq<byte>)
    ensures GetBounded(PutUint64(v) + rest, nonZero)
            == if nonZero && v == 0 then Err(Zero)
               else if v >= 0x1_0000_0000 then Err(TooLarge)
               else Ok(v, rest)
  {
    hide GetUint64, PutUint64;
    Uint64RoundTrip(v, rest);
  }

  // So for packed streams, folders, coders and files.
  lemma CountsRefused(position: u64, v: u64, rest: seq<byte>)
    requires v == 0 || v >= 0x1_0000_0000
    ensures var e := if v == 0 then Zero else TooLarge;
            && GetPackInfo(PutUint64(position) + (PutUint64(v) + rest)) == Err(e)
            && GetUnpackInfo([0x0b] + (PutUint64(v) + rest)) == Err(e)
            && GetFolder(PutUint64(v) + rest) == Err(e)
            && GetFilesInfo(PutUint64(v) + rest) == Err(e)
  {
    hide GetUint64, PutUint64, GetBounded, GetByte, GetFolders, GetCoders, GetFileProperties;
    Uint64RoundTrip(position, PutUint64(v) + rest);
    FirstByteOf(0x0b, PutUint64(v) + rest);
    CountRead(v, true, rest);
  }

  // Lists of nothing are refused where they are announced.
  lemma NothingListed(s: seq<byte>)
    ensures GetBools(s, 0) == Err(Zero) && GetOptionalBools(s, 0) == Err(Zero)
    ensures GetSizes(s, 0) == Err(Zero) && GetCRC(s, 0) == Err(Zero)
  {
  }

  // So a property of empty files needs one of empty streams before it, and checksums need files.
  lemma EmptyFilesFirst(length: u64, s: seq<byte>, files: Files)
    ensures GetFileProperties([0x0f] + (PutUint64(length) + s), files, 0) == Err(Zero)
  {
    hide GetUint64, PutUint64, GetBits;
    FirstByteOf(0x0f, PutUint64(length) + s);
    Uint64RoundTrip(length, s);
    NothingListed(s);
  }

  lemma NoFilesNoChecksums(folders: seq<Folder>, s: seq<byte>)
    requires folders != [] && |folders| <= MAX_UINT32
    ensures GetSubStreamsInfo([0x0d] + (PutSizes(NoneAtAll(|folders|)) + ([0x0a] + s)), folders) == Err(Zero)
  {
    hide GetByte, GetSizeList, PutSizes, Sum, GetOptionalBools;
    var n := NoneAtAll(|folders|);
    FirstByteOf(0x0d, PutSizes(n) + ([0x0a] + s));
    FirstByteOf(0x0a, s);
    SizeListRoundTrip(n, [0x0a] + s);
    NoneAddUp(|folders|);
    NothingListed(s);
  }

  // No file in any folder.
  function NoneAtAll(n: nat): (r: seq<u64>)
    ensures |r| == n
  {
    seq(n, _ => 0)
  }

  lemma {:induction false} NoneAddUp(n: nat)
    ensures Sum(NoneAtAll(n)) == 0
  {
    if n > 0 {
      assert NoneAtAll(n)[1..] == NoneAtAll(n - 1);
      NoneAddUp(n - 1);
    }
  }

  // --- ids ---

  // Where one of several ids has to stand, or the end, anything else is refused.
  lemma PackIdRefused(position: u64, v: u64, id: byte, rest: seq<byte>)
    requires 0 < v <= MAX_UINT32 && id !in {0x00, 0x09, 0x0a}
    ensures GetPackInfo(PutUint64(position) + (PutUint64(v) + ([id] + rest))) == Err(UnexpectedId)
  {
    hide GetUint64, PutUint64, GetBounded, GetByte;
    Uint64RoundTrip(position, PutUint64(v) + ([id] + rest));
    CountRead(v, true, [id] + rest);
    FirstByteOf(id, rest);
  }

  lemma StreamsIdRefused(id: byte, rest: seq<byte>)
    requires id !in {0x00, 0x06, 0x07, 0x08}
    ensures GetStreamsInfo([id] + rest) == Err(UnexpectedId)
  {
    hide GetByte;
    FirstByteOf(id, rest);
  }

  // Substreams without folders have an error of their own.
  lemma FoldersMissing(rest: seq<byte>)
    ensures GetStreamsInfo([0x08] + rest) == Err(MissingUnpackInfo)
  {
    hide GetByte, GetSubStreamsInfo;
    FirstByteOf(0x08, rest);
  }

  lemma SubStreamsIdRefused(id: byte, folders: seq<Folder>, rest: seq<byte>)
    requires id !in {0x00, 0x09, 0x0a, 0x0d} && |folders| <= MAX_UINT32
    ensures GetSubStreamsInfo([id] + rest, folders) == Err(UnexpectedId)
  {
    hide GetByte, Sum;
    FirstByteOf(id, rest);
    OnesAddUp(|folders|);
  }

  lemma {:induction false} OnesAddUp(n: nat)
    ensures Sum(AllOnes(n)) == n
  {
    if n > 0 {
      assert AllOnes(n)[1..] == AllOnes(n - 1);
      OnesAddUp(n - 1);
    }
  }

  lemma FoldersIdRefused(id: byte, rest: seq<byte>)
    requires id != 0x0b
    ensures GetUnpackInfo([id] + rest) == Err(UnexpectedId)
  {
    hide GetByte;
    FirstByteOf(id, rest);
  }

  // Behind the folders come their sizes, and behind those checksums or the end.
  lemma SizesIdRefused(folders: seq<Folder>, id: byte, rest: seq<byte>)
    requires 0 < |folders| <= MAX_UINT32 && GoodFolders(folders)
    ensures id != 0x0c ==>
              GetUnpackInfo([0x0b] + (PutUint64(|folders|) + ([0] + (PutFolders(folders) + ([id] + rest)))))
              == Err(UnexpectedId)
    ensures id !in {0x00, 0x0a} ==>
              GetUnpackInfo([0x0b] + (PutUint64(|folders|) + ([0] + (PutFolders(folders)
                            + ([0x0c] + (PutFolderSizes(folders) + ([id] + rest)))))))
              == Err(UnexpectedId)
  {
    hide GetUint64, PutUint64, GetBounded, GetByte, GetFolders, PutFolders, GoodFolders, GetFolderSizes, PutFolderSizes;
    var n := |folders|;
    var a := [id] + rest;
    var b := [0x0c] + (PutFolderSizes(folders) + a);
    FirstByteOf(id, rest);
    FirstByteOf(0x0c, PutFolderSizes(folders) + a);
    FoldersRoundTrip(folders, a);
    FoldersRoundTrip(folders, b);
    FolderSizesRoundTrip(folders, a);
    forall t | t == a || t == b
      ensures GetByte([0x0b] + (PutUint64(n) + ([0] + (PutFolders(folders) + t))))
              == Ok(0x0b, PutUint64(n) + ([0] + (PutFolders(folders) + t)))
      ensures GetBounded(PutUint64(n) + ([0] + (PutFolders(folders) + t)), true)
              == Ok(n, [0] + (PutFolders(folders) + t))
      ensures GetByte([0] + (PutFolders(folders) + t)) == Ok(0, PutFolders(folders) + t)
    {
      FirstByteOf(0x0b, PutUint64(n) + ([0] + (PutFolders(folders) + t)));
      CountRead(n, true, [0] + (PutFolders(folders) + t));
      FirstByteOf(0, PutFolders(folders) + t);
    }
  }

  // Archive properties and additional streams are not supported; whatever else is not a section is refused.
  lemma HeaderIdRefused(id: byte, rest: seq<byte>)
    requires id !in {0x00, 0x04, 0x05}
    ensures GetHeader([id] + rest) == Err(if id == 0x02 || id == 0x03 then Todo else UnexpectedId)
  {
    hide GetByte;
    FirstByteOf(id, rest);
  }

  // --- data kept elsewhere ---

  // Folders, names, times and attributes may be external in the format; the reader refuses that.
  lemma ExternalRefused(v: u64, external: byte, bits: seq<bool>, width: nat, length: u64, rest: seq<byte>)
    requires 0 < v <= MAX_UINT32 && external > 0 && 0 < |bits| <= MAX_UINT32 && width <= 8
    ensures GetUnpackInfo([0x0b] + (PutUint64(v) + ([external] + rest))) == Err(Todo)
    ensures GetNames([external] + rest, v, length) == Err(Todo)
    ensures GetExternalValues(PutOptionalBools(bits) + ([external] + rest), |bits|, width) == Err(Todo)
  {
    hide GetUint64, PutUint64, GetBounded, GetByte, GetFolders, GetOptionalBools, PutOptionalBools, GetValues, Fit;
    FirstByteOf(0x0b, PutUint64(v) + ([external] + rest));
    CountRead(v, true, [external] + rest);
    FirstByteOf(external, rest);
    OptionalBoolsRoundTrip(bits, [external] + rest);
  }

  // --- names ---

  // A names property of n bytes holds the external byte and n - 1 bytes of names; a declared length of zero, or
  // one that is negative as an int64, leaves none of them.
  lemma NamesTaken(count: nat, length: u64, s: seq<byte>)
    requires 0 < count <= MAX_UINT32
    ensures var n := if length == 0 || length - 1 >= TWO63 then 0 else if length - 1 < |s| then length - 1 else |s|;
            var names := Split(Units(s[..n]));
            GetNames([0] + s, count, length)
            == if |names| == count then Ok(names, s[n..]) else Err(WrongNumberOfFilenames)
  {
    hide GetByte, Split, Units;
    FirstByteOf(0, s);
  }

  lemma NoNames(count: nat, length: u64, s: seq<byte>)
    requires 0 < count <= MAX_UINT32 && (length <= 1 || length > TWO63)
    ensures GetNames([0] + s, count, length) == Err(WrongNumberOfFilenames)
  {
    hide GetNames;
    NamesTaken(count, length, s);
    assert Split(Units(s[..0])) == [];
  }

  // --- the unpack size of a folder ---

  // No bind pair takes output k.
  predicate Free(f: Folder, k: nat) {
    forall p :: p in f.bindPair ==> p.outs != k
  }

  // And of the first n outputs it is the last such.
  ghost predicate LastFree(f: Folder, n: nat, k: nat) {
    k < n && Free(f, k) && forall j :: k < j < n ==> !Free(f, j)
  }

  // The size of the last output that no bind pair takes; if there is none, of the last one.
  lemma UnpackSizeIs(f: Folder)
    ensures f.size == [] ==> UnpackSize(f) == 0
    ensures forall k: nat :: LastFree(f, |f.size|, k) ==> UnpackSize(f) == f.size[k]
    ensures f.size != [] && (forall j :: 0 <= j < |f.size| ==> !Free(f, j)) ==> UnpackSize(f) == f.size[|f.size| - 1]
  {
    hide LastUnbound, Free;
    if f.size != [] {
      var n := |f.size|;
      LastUnboundIs(f, n);
      forall k: nat | LastFree(f, n, k) ensures UnpackSize(f) == f.size[k] {
        if LastUnbound(f, n).Some? {
          var l: nat :| LastFree(f, n, l) && LastUnbound(f, n).value == f.size[l];
          assert l == k;
        }
      }
    }
  }

  lemma FreeIff(f: Folder, k: nat)
    ensures FindOut(f.bindPair, k).None? <==> Free(f, k)
  {
  }

  lemma {:induction false} LastUnboundIs(f: Folder, n: nat)
    requires n <= |f.size|
    ensures match LastUnbound(f, n)
            case Some(size) => exists k: nat :: LastFree(f, n, k) && size == f.size[k]
            case None => forall j :: 0 <= j < n ==> !Free(f, j)
  {
    hide FindOut, Free;
    if n > 0 {
      LastUnboundIs(f, n - 1);
      FreeIff(f, n - 1);
      if Free(f, n - 1) {
        assert LastFree(f, n, n - 1);
      } else if LastUnbound(f, n).Some? {
        var k: nat :| LastFree(f, n - 1, k) && LastUnbound(f, n - 1).value == f.size[k];
        assert LastFree(f, n, k);
      }
    }
  }
}
