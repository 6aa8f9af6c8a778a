/** Folders with a cipher: the compressor's bytes go through the block cipher, and come back from it. */
module EncryptedFolder {
  import opened Basics
  import opened HeaderData
  import opened HeaderNumbers
  import opened HeaderStreams
  import opened ArchiveState
  import opened ArchiveHeader
  import opened FolderDecoding
  import opened ArchiveWriter
  import opened EndToEnd
  import C = CbcStreams

  // What the password, the salt and the initial block come to.
  datatype Key = Key(cipher: C.Cipher, iv: C.Block)

  // --- bytes as numbers and as bits ---

  function Bits(s: seq<byte>): (r: seq<byte8>)
    ensures |r| == |s|
  {
    seq(|s|, i requires 0 <= i < |s| => ToByte(s[i]))
  }

  function Numbers(s: seq<byte8>): (r: seq<byte>)
    ensures |r| == |s|
  {
    seq(|s|, i requires 0 <= i < |s| => s[i] as int)
  }

  lemma NumbersOfBits(s: seq<byte>)
    ensures Numbers(Bits(s)) == s
  {
    hide ToByte;
    forall i | 0 <= i < |s| ensures Numbers(Bits(s))[i] == s[i] {
      ByteBack(s[i]);
    }
  }

  lemma BitsOfNumbers(s: seq<byte8>)
    ensures Bits(Numbers(s)) == s
  {
    hide ToByte;
    forall i | 0 <= i < |s| ensures Bits(Numbers(s))[i] == s[i] {
      BitsBack(s[i]);
    }
  }

  lemma Apart(a: seq<byte>, b: seq<byte>)
    ensures Bits(a + b) == Bits(a) + Bits(b)
  {
    hide ToByte;
  }

  lemma NumbersApart(a: seq<byte8>, b: seq<byte8>)
    ensures Numbers(a + b) == Numbers(a) + Numbers(b)
  {
  }

  // --- the cipher on bytes ---

  function Full(s: seq<byte>): (r: seq<byte>)
    ensures |r| % 16 == 0 && |r| <= |s| < |r| + 16 && r == s[..|r|]
  {
    s[..|s| / 16 * 16]
  }

  function Blocks(s: seq<byte>): seq<C.Block> {
    C.Blocks(Bits(s))
  }

  // All bytes, the last block filled with zeros.
  function Enciphered(k: Key, s: seq<byte>): (r: seq<byte>) {
    Numbers(C.Join(C.Seal(k.cipher, k.iv, Blocks(s))))
  }

  function Deciphered(k: Key, s: seq<byte>): seq<byte> {
    Numbers(C.Join(C.Unseal(k.cipher, k.iv, Blocks(s))))
  }

  // How many bytes an unfinished block is short of.
  function Missing(s: seq<byte>): (n: nat)
    ensures n < 16
  {
    (|s| + 15) / 16 * 16 - |s|
  }

  // Deciphering gives back the bytes and the padding.
  lemma DecipheredEnciphered(k: Key, s: seq<byte>)
    requires C.Permutes(k.cipher)
    ensures Deciphered(k, Enciphered(k, s)) == s + Numbers(Zeros(Missing(s)))
  {
    hide C.Seal, C.Unseal, C.Join, C.Blocks, C.Permutes, Bits, Numbers;
    var blocks := Blocks(s);
    var sealed := C.Seal(k.cipher, k.iv, blocks);
    BitsOfNumbers(C.Join(sealed));
    C.BlocksAfter(sealed, []);
    NoBlocks();
    assert C.Join(sealed) + [] == C.Join(sealed) && sealed + [] == sealed;
    C.UnsealSealed(k.cipher, k.iv, blocks);
    C.BlocksHold(Bits(s));
    NumbersOfBits(s);
    NumbersApart(Bits(s), Zeros(|C.Join(blocks)| - |s|));
  }

  lemma NoBlocks()
    ensures C.Blocks([]) == []
  {
  }

  // Full blocks are enciphered alike, whatever follows them.
  lemma EncipheredMore(k: Key, a: seq<byte>, b: seq<byte>)
    requires |a| % 16 == 0
    ensures |Enciphered(k, a)| == |a|
    ensures |a| <= |Enciphered(k, a + b)| && Enciphered(k, a + b)[..|a|] == Enciphered(k, a)
  {
    hide C.Seal, C.Join, C.Blocks, Bits, Numbers;
    var done, more := Blocks(a), Blocks(b);
    WholeBlocks(a);
    C.BlocksAfter(done, Bits(b));
    Apart(a, b);
    SealPrefix(k.cipher, k.iv, done, more);
    var x := C.Seal(k.cipher, k.iv, done);
    var y := C.Seal(k.cipher, k.iv, done + more)[|done|..];
    assert C.Seal(k.cipher, k.iv, done + more) == x + y;
    JoinApart(x, y);
    NumbersApart(C.Join(x), C.Join(y));
  }

  lemma WholeBlocks(a: seq<byte>)
    requires |a| % 16 == 0
    ensures C.Join(Blocks(a)) == Bits(a) && |Blocks(a)| == |a| / 16
  {
    hide C.Join, C.Blocks;
    C.BlocksHold(Bits(a));
    assert Bits(a) + Zeros(0) == Bits(a);
  }

  lemma {:induction false} SealPrefix(c: C.Cipher, iv: C.Block, a: seq<C.Block>, b: seq<C.Block>)
    ensures C.Seal(c, iv, a + b)[..|a|] == C.Seal(c, iv, a)
    decreases |a|
  {
    hide C.Xor;
    if a != [] {
      assert (a + b)[1..] == a[1..] + b;
      SealPrefix(c, c.seal(C.Xor(a[0], iv)), a[1..], b);
    }
  }

  lemma {:induction false} JoinApart(a: seq<C.Block>, b: seq<C.Block>)
    ensures C.Join(a + b) == C.Join(a) + C.Join(b)
  {
    if a == [] {
      assert a + b == b;
    } else {
      assert (a + b)[1..] == a[1..] + b;
      JoinApart(a[1..], b);
    }
  }

  // --- a compressor, alone and behind a cipher ---

  datatype Compressor = Compressor(emit: (seq<seq<byte>>, seq<byte>) -> seq<byte>, finish: seq<seq<byte>> -> seq<byte>,
                                   unpack: seq<byte> -> seq<byte>, property: byte)

  function Plain(c: Compressor): Codec {
    Codec(c.emit, c.finish, (b, n) => c.unpack(b), chunks => 0, c.property, None)
  }

  ghost predicate Inverts(c: Compressor) {
    forall chunks: seq<seq<byte>> :: c.unpack(Packed(Plain(c), chunks)) == Flat(chunks)
  }

  // Nothing but what is behind the first n bytes.
  function From(s: seq<byte>, n: nat): seq<byte> {
    if n <= |s| then s[n..] else []
  }

  // The folder's codec: full blocks are passed on as they fill, the last one at the end. The bytes
  // that enter the cipher are those of the compressor, and as many come back from it.
  function Encrypted(c: Compressor, k: Key, properties: seq<byte>): Codec {
    Codec((before, p) => From(Enciphered(k, Full(Emitted(Plain(c), before + [p]))), |Full(Emitted(Plain(c), before))|),
          chunks => From(Enciphered(k, Packed(Plain(c), chunks)), |Full(Emitted(Plain(c), chunks))|),
          (b, n) => c.unpack(Limited(Deciphered(k, b), n)),
          chunks => |Packed(Plain(c), chunks)| % TWO64,
          c.property, Some(properties))
  }

  lemma {:induction false} EncryptedEmitted(c: Compressor, k: Key, properties: seq<byte>, chunks: seq<seq<byte>>)
    ensures Emitted(Encrypted(c, k, properties), chunks) == Enciphered(k, Full(Emitted(Plain(c), chunks)))
    decreases |chunks|
  {
    hide Enciphered, Full;
    if chunks == [] {
      NothingEnciphered(k);
    } else {
      var before, p := chunks[..|chunks| - 1], chunks[|chunks| - 1];
      assert before + [p] == chunks;
      EncryptedEmitted(c, k, properties, before);
      Grows(k, Emitted(Plain(c), before), c.emit(before, p));
    }
  }

  lemma NothingEnciphered(k: Key)
    ensures Enciphered(k, Full([])) == []
  {
  }

  // The full blocks of more bytes begin with those of fewer.
  lemma Grows(k: Key, a: seq<byte>, b: seq<byte>)
    ensures Enciphered(k, Full(a)) + From(Enciphered(k, Full(a + b)), |Full(a)|) == Enciphered(k, Full(a + b))
  {
    hide Enciphered;
    var x, y := Full(a), Full(a + b);
    assert y == x + y[|x|..];
    EncipheredMore(k, x, y[|x|..]);
  }

  lemma EncryptedPacked(c: Compressor, k: Key, properties: seq<byte>, chunks: seq<seq<byte>>)
    ensures Packed(Encrypted(c, k, properties), chunks) == Enciphered(k, Packed(Plain(c), chunks))
  {
    hide Enciphered, Emitted;
    EncryptedEmitted(c, k, properties, chunks);
    var x, y := Full(Emitted(Plain(c), chunks)), Packed(Plain(c), chunks);
    assert y == x + y[|x|..];
    EncipheredMore(k, x, y[|x|..]);
  }

  lemma EncryptedIs(c: Compressor, k: Key, properties: seq<byte>)
    ensures var e := Encrypted(c, k, properties);
            && (forall chunks: seq<seq<byte>> :: e.inner(chunks) == |Packed(Plain(c), chunks)| % TWO64)
            && (forall b: seq<byte>, n: u64 :: e.unpack(b, n) == c.unpack(Limited(Deciphered(k, b), n)))
            && e.cipher == Some(properties)
  {
    hide Packed, Limited, Deciphered;
  }

  lemma RemainderBelow(n: nat)
    ensures n % TWO64 <= n && (n < TWO64 ==> n % TWO64 == n)
  {
  }

  // The compressor's coder is given what the compressor made, up to the limit of an int64: the padding
  // is cut off by the size that is listed for the cipher.
  lemma EncryptedGives(c: Compressor, k: Key, properties: seq<byte>, chunks: seq<seq<byte>>)
    requires C.Permutes(k.cipher)
    ensures var e, s := Encrypted(c, k, properties), Packed(Plain(c), chunks);
            && |s| <= |Packed(e, chunks)|
            && Limited(Deciphered(k, Packed(e, chunks)), e.inner(chunks)) == Limited(s, |s| % TWO64)
            && (0 < |s| < TWO64 ==> (Limited(s, |s| % TWO64) == s <==> |s| < TWO63))
  {
    hide Enciphered, Deciphered, Packed, Numbers, Encrypted, Limited, C.Permutes;
    var s := Packed(Plain(c), chunks);
    EncryptedIs(c, k, properties);
    EncryptedPacked(c, k, properties, chunks);
    EncipheredLonger(k, s);
    DecipheredEnciphered(k, s);
    RemainderBelow(|s|);
    LimitedFront(s, Numbers(Zeros(Missing(s))), |s| % TWO64);
    if 0 < |s| < TWO64 {
      LimitedWhole(s);
    }
  }

  lemma EncipheredLonger(k: Key, s: seq<byte>)
    ensures |s| <= |Enciphered(k, s)| && |Enciphered(k, s)| % 16 == 0
  {
    hide C.Seal, C.Blocks;
    C.BlocksHold(Bits(s));
  }

  lemma LimitedFront(s: seq<byte>, tail: seq<byte>, n: u64)
    requires n <= |s|
    ensures Limited(s + tail, n) == Limited(s, n)
  {
    assert (s + tail)[..n] == s[..n];
  }

  // A compressor that can be inverted loses nothing behind a cipher.
  lemma EncryptedLossless(c: Compressor, k: Key, properties: seq<byte>)
    requires Inverts(c) && C.Permutes(k.cipher) && |properties| <= MAX_UINT32
    ensures Lossless(Encrypted(c, k, properties))
  {
    hide Enciphered, Deciphered, Packed, Flat, Limited, Encrypted, C.Permutes;
    var e := Encrypted(c, k, properties);
    EncryptedIs(c, k, properties);
    forall chunks: seq<seq<byte>> | |Packed(e, chunks)| < TWO63
      ensures e.unpack(Packed(e, chunks), e.inner(chunks)) == Flat(chunks)
    {
      var s := Packed(Plain(c), chunks);
      EncryptedGives(c, k, properties, chunks);
      RemainderBelow(|s|);
      LimitedShort(s, |s|);
    }
  }

  // What the encryptor has passed on at any time are the full blocks of what it was given.
  lemma SentSoFar(k: Key, e: seq<byte>, done: seq<C.Block>, buf: seq<byte8>)
    requires |buf| < 16 && Bits(e) == C.Join(done) + buf
    ensures Numbers(C.Join(C.Seal(k.cipher, k.iv, done))) == Enciphered(k, Full(e))
  {
    hide C.Join, C.Seal, C.Blocks, Bits, Numbers;
    assert |Full(e)| == |C.Join(done)|;
    Apart(Full(e), e[|Full(e)|..]);
    assert Full(e) + e[|Full(e)|..] == e;
    assert Bits(Full(e)) == Bits(e)[..|Full(e)|] == C.Join(done);
    C.BlocksAfter(done, []);
    NoBlocks();
    assert C.Join(done) + [] == C.Join(done) && done + [] == done;
  }

  // The folder writer: chunks go through the compressor, what it gives through the encryptor. At any
  // time the output is what the codec has passed on.
  method EncipherAll(c: Compressor, k: Key, properties: seq<byte>, chunks: seq<seq<byte>>)
    returns (out: seq<byte>, inner: nat)
    ensures var e := Encrypted(c, k, properties); out == Packed(e, chunks) && inner % TWO64 == e.inner(chunks)
  {
    hide C.AesWriter.Chained, Enciphered, Emitted, Bits, Numbers, Full;
    var w := new C.AesWriter(k.cipher, k.iv);
    inner := 0;
    StartsEmpty(c);
    Sent(w, k, []);
    EncryptedEmitted(c, k, properties, []);
    assert chunks[..0] == [];
    for i := 0 to |chunks|
      invariant w.Valid() && w.cipher == k.cipher && w.iv == k.iv && fresh(w)
      invariant w.written == Bits(Emitted(Plain(c), chunks[..i])) && inner == |Emitted(Plain(c), chunks[..i])|
      invariant Numbers(w.out) == Emitted(Encrypted(c, k, properties), chunks[..i])
    {
      var p := c.emit(chunks[..i], chunks[i]);
      EmittedNext(c, chunks, i);
      Apart(Emitted(Plain(c), chunks[..i]), p);
      w.Write(Bits(p));
      inner := inner + |p|;
      Sent(w, k, Emitted(Plain(c), chunks[..i + 1]));
      EncryptedEmitted(c, k, properties, chunks[..i + 1]);
    }
    assert chunks[..|chunks|] == chunks;
    Apart(Emitted(Plain(c), chunks), c.finish(chunks));
    w.Write(Bits(c.finish(chunks)));
    inner := inner + |c.finish(chunks)|;
    w.Close();
    EncryptedPacked(c, k, properties, chunks);
    AllEnciphered(k, Packed(Plain(c), chunks));
    return Numbers(w.out), inner;
  }

  lemma AllEnciphered(k: Key, s: seq<byte>)
    ensures Enciphered(k, s) == Numbers(C.Join(C.Seal(k.cipher, k.iv, C.Blocks(Bits(s)))))
  {
  }

  lemma StartsEmpty(c: Compressor)
    ensures Emitted(Plain(c), []) == [] && Bits([]) == []
  {
  }

  lemma EmittedNext(c: Compressor, chunks: seq<seq<byte>>, i: nat)
    requires i < |chunks|
    ensures Emitted(Plain(c), chunks[..i + 1]) == Emitted(Plain(c), chunks[..i]) + c.emit(chunks[..i], chunks[i])
  {
    assert chunks[..i + 1] == chunks[..i] + [chunks[i]];
    EmittedMore(Plain(c), chunks[..i], chunks[i]);
  }

  lemma Sent(w: C.AesWriter, k: Key, e: seq<byte>)
    requires w.Valid() && w.cipher == k.cipher && w.iv == k.iv && w.written == Bits(e)
    ensures Numbers(w.out) == Enciphered(k, Full(e))
  {
    hide C.Join, C.Seal, Enciphered, Bits, Numbers, Full;
    SentSoFar(k, e, w.done, w.buf);
  }

  // The decryptor over whole blocks gives the deciphered bytes, in any pieces.
  method DecipherAll(k: Key, b: seq<byte>, lens: seq<nat>) returns (got: seq<byte>)
    requires |b| % 16 == 0
    ensures |got| == Min(C.Total(lens), |Deciphered(k, b)|) && got == Deciphered(k, b)[..|got|]
  {
    hide C.Unseal, C.Join, C.Blocks, C.AesReader.Valid, Bits, Numbers, Blocks;
    WholeBlocks(b);
    assert Bits(b) == C.Join(Blocks(b)) + [];
    var r := new C.AesReader(k.cipher, k.iv, Bits(b), Blocks(b), []);
    ghost var whole := r.plain;
    got := [];
    for i := 0 to |lens|
      invariant r.Valid() && r.plain == whole && r.tail == [] && fresh(r)
      invariant |got| <= |whole| && |r.given| == |got| && got == Numbers(whole)[..|got|]
      invariant |got| == Min(C.Total(lens[..i]), |whole|)
    {
      C.TotalMore(lens, i);
      ghost var n := |got|;
      var p, err := r.Read(lens[i]);
      got := got + Numbers(p);
      NumbersSlice(whole, n, p);
    }
    assert lens[..|lens|] == lens;
  }

  lemma NumbersSlice(whole: seq<byte8>, n: nat, p: seq<byte8>)
    requires n + |p| <= |whole| && whole[..n + |p|] == whole[..n] + p
    ensures Numbers(whole)[..n + |p|] == Numbers(whole)[..n] + Numbers(p)
  {
    assert whole[..n + |p|][n..] == p;
  }

  // --- coders that undo it ---

  // How a folder was made.
  datatype Making =
    | Open(compressor: Compressor)
    | Secret(compressor: Compressor, key: Key, properties: seq<byte>)

  function MadeCodec(m: Making): Codec {
    if m.Open? then Plain(m.compressor) else Encrypted(m.compressor, m.key, m.properties)
  }

  // What a folder holds in the end, and how it is described: open, what the compressor made; secret, that
  // enciphered, with the cipher's properties and its size.
  lemma MadeHolds(m: Making, chunks: seq<seq<byte>>)
    ensures var c, plain := MadeCodec(m), Packed(Plain(m.compressor), chunks);
            && c.property == m.compressor.property
            && (m.Open? ==> c.cipher == None && Packed(c, chunks) == plain)
            && (m.Secret? ==> c.cipher == Some(m.properties) && Packed(c, chunks) == Enciphered(m.key, plain)
                              && c.inner(chunks) == |plain| % TWO64)
  {
    hide Packed, Enciphered;
    if m.Secret? {
      EncryptedPacked(m.compressor, m.key, m.properties, chunks);
    }
  }

  // A compressor that can be inverted makes folders that lose nothing, alone or behind a cipher.
  lemma MadeLossless(m: Making)
    requires Inverts(m.compressor)
    requires m.Secret? ==> C.Permutes(m.key.cipher) && |m.properties| <= MAX_UINT32
    ensures Lossless(MadeCodec(m))
  {
    hide Packed, Flat, Encrypted, C.Permutes;
    if m.Secret? {
      EncryptedLossless(m.compressor, m.key, m.properties);
    }
  }

  // The cipher's coder deciphers whole blocks, and the compressor's undoes the compressor alone.
  ghost predicate Reverses(run: CoderRun, m: Making) {
    && (m.Secret? ==>
          forall b: seq<byte> :: |b| % 16 == 0 ==> run(Coder(AES, 1, 1, m.properties), [b]) == Deciphered(m.key, b))
    && (forall b: seq<byte> :: run(Coder(LZMA2, 1, 1, [m.compressor.property]), [b]) == m.compressor.unpack(b))
  }

  lemma MadeUndone(run: CoderRun, d: Fold, m: Making)
    requires d.codec == MadeCodec(m) && d.emitted == Packed(d.codec, d.chunks) && Reverses(run, m)
    requires Unpacked(d) == Flat(d.chunks) && |Flat(d.chunks)| < TWO63
    ensures Undone(run, d)
  {
    hide Enciphered, Deciphered, Packed, Flat, Limited;
    if m.Secret? {
      EncryptedPacked(m.compressor, m.key, m.properties, d.chunks);
      EncipheredLonger(m.key, Packed(Plain(m.compressor), d.chunks));
    }
    SmallRemainder(|Flat(d.chunks)|, TWO64);
    LimitedShort(Flat(d.chunks), |Flat(d.chunks)|);
  }

  lemma AllUndone(solid: bool, files: Entries, folders: Folds, run: CoderRun, makings: seq<Making>)
    requires Finished(solid, files, folders) && |makings| == |folders|
    requires forall r :: 0 <= r < |folders| ==> folders[r].codec == MadeCodec(makings[r]) && Reverses(run, makings[r])
    requires forall r :: 0 <= r < |folders| ==> |folders[r].emitted| < TWO63 && |Flat(folders[r].chunks)| < TWO63
    ensures Undoes(run, folders)
  {
    hide Fits, Flat, FlatWritten, Lossless, Emitted, Listed, DataFiles, Packed, Reverses, MadeCodec, Undone, Unpacked,
      UnpackSize, Sum, GoodFolder, FolderOf;
    FinishedParts(solid, files, folders);
    forall r | 0 <= r < |folders| ensures Undone(run, folders[r]) {
      assert FoldOk(files, folders, r);
      FolderFacts(solid, files, folders, r);
      MadeUndone(run, folders[r], makings[r]);
    }
  }

  // Folders are made by a compressor, alone or in front of the block cipher. With coders that undo the
  // compressor alone and decipher whole blocks, every file is read back as it was written.
  method ReadBackMade(w: Writer, crc: Checksum, run: CoderRun, ghost makings: seq<Making>, k: nat)
    returns (data: seq<byte>, digest: u32)
    requires w.Valid() && w.closed && Fits(w.files, w.folders) && |w.folders| > 0 && |w.out| < TWO63
    requires forall i :: 0 <= i < |w.files| ==> !w.files[i].open
    requires forall r :: 0 <= r < |w.folders| ==> |Flat(w.folders[r].chunks)| < TWO63
    requires |makings| == |w.folders|
    requires forall r :: 0 <= r < |w.folders| ==>
               w.folders[r].codec == MadeCodec(makings[r]) && Reverses(run, makings[r])
    requires k < |w.files| && w.files[k].fold.Some?
    ensures data == w.files[k].written && digest == crc(w.files[k].written)
  {
    hide *;
    ClosedIsFinished(w);
    FoldersShort(w);
    AllUndone(w.solid, w.files, w.folders, run, makings);
    data, digest := ReadBack(w, crc, run, k);
  }

  lemma FoldersShort(w: Writer)
    requires w.Valid() && w.closed && Finished(w.solid, w.files, w.folders) && |w.out| < TWO63
    ensures forall r :: 0 <= r < |w.folders| ==> |w.folders[r].emitted| < TWO63
  {
    hide Consistent, Joined, Pending;
    WrittenAll(w);
    forall r | 0 <= r < |w.folders| ensures |w.folders[r].emitted| < TWO63 {
      JoinedSlice(w.folders, r);
    }
  }
}
