/** The cipher streams: blocks of 16 bytes chained on writing, unchained on reading. */
module CbcStreams {
  import opened Basics

  const NONE: seq<byte8> := [0, 0, 0, 0, 0, 0, 0, 0, 0, 0, 0, 0, 0, 0, 0, 0]

  type Block = b: seq<byte8> | |b| == 16 witness NONE

  // A block cipher under one key.
  datatype Cipher = Cipher(seal: Block -> Block, open: Block -> Block)

  ghost predicate Permutes(c: Cipher) {
    forall b: Block :: c.open(c.seal(b)) == b
  }

  function Xor(a: Block, b: Block): Block {
    seq(16, i requires 0 <= i < 16 => a[i] ^ b[i])
  }

  lemma XorTwice(a: Block, b: Block)
    ensures Xor(Xor(a, b), b) == a
  {
    forall i | 0 <= i < 16 ensures Xor(Xor(a, b), b)[i] == a[i] {
      XorByte(a[i], b[i]);
    }
  }

  lemma XorByte(x: byte8, y: byte8)
    ensures (x ^ y) ^ y == x
  {
  }

  // CBC encryption: each block is mixed with the one sealed before it.
  function Seal(c: Cipher, iv: Block, s: seq<Block>): (r: seq<Block>)
    ensures |r| == |s|
    decreases |s|
  {
    if s == [] then []
    else
      var x := c.seal(Xor(s[0], iv));
      [x] + Seal(c, x, s[1..])
  }

  function Unseal(c: Cipher, iv: Block, s: seq<Block>): (r: seq<Block>)
    ensures |r| == |s|
    decreases |s|
  {
    if s == [] then [] else [Xor(c.open(s[0]), iv)] + Unseal(c, s[0], s[1..])
  }

  // Unsealing what was sealed gives it back.
  lemma {:induction false} UnsealSealed(c: Cipher, iv: Block, s: seq<Block>)
    requires Permutes(c)
    ensures Unseal(c, iv, Seal(c, iv, s)) == s
    decreases |s|
  {
    hide Xor;
    if s != [] {
      var x := c.seal(Xor(s[0], iv));
      UnsealSealed(c, x, s[1..]);
      XorTwice(s[0], iv);
      var t := Seal(c, iv, s);
      assert t[0] == x && t[1..] == Seal(c, x, s[1..]);
    }
  }

  // Block by block: what is encrypted is the mix with the encrypted block before, or with the initial vector.
  lemma {:induction false} SealAt(c: Cipher, iv: Block, s: seq<Block>, i: nat)
    requires i < |s|
    ensures var t := Seal(c, iv, s);
            var before := if i == 0 then iv else t[i - 1];
            exists x: Block :: t[i] == c.seal(x) && forall k :: 0 <= k < 16 ==> x[k] == s[i][k] ^ before[k]
    decreases |s|
  {
    var x := c.seal(Xor(s[0], iv));
    if i == 0 {
      assert Xor(s[0], iv)[0] == s[0][0] ^ iv[0];
    } else {
      SealAt(c, x, s[1..], i - 1);
    }
  }

  lemma {:induction false} UnsealAt(c: Cipher, iv: Block, s: seq<Block>, i: nat, k: nat)
    requires i < |s| && k < 16
    ensures Unseal(c, iv, s)[i][k] == c.open(s[i])[k] ^ (if i == 0 then iv else s[i - 1])[k]
    decreases |s|
  {
    if i > 0 {
      UnsealAt(c, s[0], s[1..], i - 1, k);
    }
  }

  // The block that the next one is mixed with.
  function Chain(iv: Block, sealed: seq<Block>): Block {
    if sealed == [] then iv else sealed[|sealed| - 1]
  }

  // One more block at the end.
  lemma {:induction false} SealMore(c: Cipher, iv: Block, s: seq<Block>, b: Block)
    ensures Seal(c, iv, s + [b]) == Seal(c, iv, s) + [c.seal(Xor(b, Chain(iv, Seal(c, iv, s))))]
    decreases |s|
  {
    hide Xor;
    if s == [] {
      assert s + [b] == [b];
    } else {
      assert (s + [b])[1..] == s[1..] + [b];
      SealMore(c, c.seal(Xor(s[0], iv)), s[1..], b);
    }
  }

  // --- blocks and bytes ---

  function Join(s: seq<Block>): (r: seq<byte8>)
    ensures |r| == 16 * |s|
  {
    if s == [] then [] else s[0] + Join(s[1..])
  }

  lemma {:induction false} JoinMore(s: seq<Block>, b: Block)
    ensures Join(s + [b]) == Join(s) + b
  {
    if s == [] {
      assert s + [b] == [b];
    } else {
      assert (s + [b])[1..] == s[1..] + [b];
      JoinMore(s[1..], b);
    }
  }

  // Bytes as blocks, the last one filled with zeros.
  function Blocks(s: seq<byte8>): seq<Block> {
    if s == [] then [] else if |s| <= 16 then [s + Zeros(16 - |s|)] else [s[..16]] + Blocks(s[16..])
  }

  // The blocks of a byte string hold it and fewer than 16 zeros.
  lemma {:induction false} BlocksHold(s: seq<byte8>)
    ensures |s| <= |Join(Blocks(s))| < |s| + 16 && |Blocks(s)| == (|s| + 15) / 16
    ensures Join(Blocks(s)) == s + Zeros(|Join(Blocks(s))| - |s|)
    decreases |s|
  {
    if s == [] {
    } else if |s| <= 16 {
      assert Blocks(s)[1..] == [];
    } else {
      BlocksHold(s[16..]);
      assert s == s[..16] + s[16..];
    }
  }

  lemma BlocksLong(s: seq<byte8>)
    requires |s| >= 16
    ensures Blocks(s) == [s[..16]] + Blocks(s[16..])
  {
    if |s| == 16 {
      assert s + Zeros(0) == s && s[..16] == s;
    }
  }

  lemma JoinFirst(done: seq<Block>)
    requires done != []
    ensures Join(done) == done[0] + Join(done[1..])
  {
  }

  // Full blocks in front do not depend on what follows.
  lemma {:induction false} BlocksAfter(done: seq<Block>, s: seq<byte8>)
    ensures Blocks(Join(done) + s) == done + Blocks(s)
  {
    hide Blocks, Join;
    if done == [] {
      assert Join(done) + s == s;
    } else {
      var t := Join(done) + s;
      JoinFirst(done);
      assert t == done[0] + (Join(done[1..]) + s);
      BlocksLong(t);
      BlocksAfter(done[1..], s);
      assert done == [done[0]] + done[1..];
    }
  }

  // The encryptor of a folder or a header.
  class AesWriter {
    const cipher: Cipher
    const iv: Block

    // the cipher's chaining block, bytes that wait for the end of their block, and the output
    var chain: Block
    var buf: seq<byte8>
    var out: seq<byte8>
    var count: nat

    // everything written so far, and its full blocks
    ghost var written: seq<byte8>
    ghost var done: seq<Block>

    ghost predicate Chained()
      reads this
    {
      out == Join(Seal(cipher, iv, done)) && chain == Chain(iv, Seal(cipher, iv, done)) && count == |out|
    }

    ghost predicate Valid()
      reads this
    {
      |buf| < 16 && written == Join(done) + buf && Chained()
    }

    // What is needed to close; after that the buffer may hold a whole block.
    ghost predicate Ready()
      reads this
    {
      |buf| <= 16 && Chained()
    }

    constructor (cipher: Cipher, iv: Block)
      ensures Valid() && written == [] && this.cipher == cipher && this.iv == iv
    {
      this.cipher, this.iv := cipher, iv;
      chain, buf, out, count, written, done := iv, [], [], 0, [], [];
    }

    // One block goes through the cipher to the output.
    method CryptBlock(b: Block)
      requires Chained()
      modifies this`chain, this`out, this`count, this`done
      ensures Chained() && done == old(done) + [b]
    {
      hide Seal, Xor, Join;
      SealMore(cipher, iv, done, b);
      JoinMore(Seal(cipher, iv, done), cipher.seal(Xor(b, chain)));
      chain := cipher.seal(Xor(b, chain));
      out := out + chain;
      count := count + 16;
      done := done + [b];
    }

    // Bytes are encrypted as soon as their block is full.
    method Write(p: seq<byte8>)
      requires Valid()
      modifies this
      ensures Valid() && written == old(written) + p
    {
      hide Join, Seal, Chain;
      buf := buf + p;
      written := written + p;
      while |buf| >= 16
        invariant written == old(written) + p == Join(done) + buf && Chained()
        decreases |buf|
      {
        JoinMore(done, buf[..16]);
        CryptBlock(buf[..16]);
        buf := buf[16..];
      }
    }

    // The last block is filled with zeros and encrypted where it stands, so that the buffer still
    // holds it, now encrypted.
    method Close()
      requires Ready()
      modifies this
      ensures Ready() && written == old(written)
      ensures old(buf) == [] ==> buf == [] && out == old(out) && done == old(done)
      ensures old(buf) != [] ==> buf == chain && done == old(done) + [old(buf) + Zeros(16 - |old(buf)|)]
      ensures old(Valid()) ==>
        && out == Join(Seal(cipher, iv, Blocks(written))) && count == |out| == 16 * ((|written| + 15) / 16)
        && (buf == [] <==> |written| % 16 == 0)
    {
      hide Join, Seal, Chain, Blocks, Xor;
      if Valid() {
        LastBlock(done, buf);
        assert done + [] == done;
      }
      if |buf| > 0 {
        CryptBlock(buf + Zeros(16 - |buf|));
        buf := chain;
      }
    }
  }

  // Full blocks and what is behind them are the blocks of everything.
  lemma LastBlock(done: seq<Block>, buf: seq<byte8>)
    requires |buf| < 16
    ensures var written := Join(done) + buf;
            && Blocks(written) == done + (if buf == [] then [] else [buf + Zeros(16 - |buf|)])
            && |Blocks(written)| == (|written| + 15) / 16
            && (buf == [] <==> |written| % 16 == 0)
  {
    hide Join;
    BlocksAfter(done, buf);
    BlocksHold(Join(done) + buf);
  }

  lemma XorSelf(b: Block)
    ensures Xor(b, b) == NONE
  {
    forall i | 0 <= i < 16 ensures b[i] ^ b[i] == 0 {
      XorByte(0, b[i]);
    }
  }

  // A second Close writes one more block, whatever the key, if and only if the first one had to
  // fill one: the encryption of a block of zeros.
  method CloseTwice(w: AesWriter)
    requires w.Valid()
    modifies w
    ensures var first := Join(Seal(w.cipher, w.iv, Blocks(w.written)));
            w.out == if |w.written| % 16 == 0 then first else first + w.cipher.seal(NONE)
    ensures w.out == Join(Seal(w.cipher, w.iv, Blocks(w.written))) <==> |w.written| % 16 == 0
  {
    hide Seal, Join, Xor, Blocks;
    w.Close();
    ghost var done, c := w.done, w.chain;
    w.Close();
    if |w.written| % 16 != 0 {
      assert c + Zeros(0) == c;
      SealMore(w.cipher, w.iv, done, c);
      XorSelf(c);
      JoinMore(Seal(w.cipher, w.iv, done), w.cipher.seal(NONE));
    }
  }

  datatype Outcome = Fine | EOF | UnexpectedEOF

  // The decryptor, over the encrypted bytes.
  class AesReader {
    const cipher: Cipher
    ghost const plain: seq<byte8>

    // encrypted bytes to come, the block before them, and decrypted bytes not yet given out
    var rest: seq<byte8>
    var chain: Block
    var buf: seq<byte8>

    // the blocks to come and bytes of an unfinished one, and everything given out so far
    ghost var blocks: seq<Block>
    ghost var tail: seq<byte8>
    ghost var given: seq<byte8>

    ghost predicate Valid()
      reads this
    {
      rest == Join(blocks) + tail && |tail| < 16 && given + buf + Join(Unseal(cipher, chain, blocks)) == plain
    }

    constructor (cipher: Cipher, iv: Block, bytes: seq<byte8>, ghost blocks: seq<Block>, ghost tail: seq<byte8>)
      requires bytes == Join(blocks) + tail && |tail| < 16
      ensures Valid() && plain == Join(Unseal(cipher, iv, blocks)) && given == [] && this.tail == tail
    {
      this.cipher, plain := cipher, Join(Unseal(cipher, iv, blocks));
      rest, chain, buf, given, this.blocks, this.tail := bytes, iv, [], [], blocks, tail;
    }

    // The next block is decrypted into the buffer.
    method OpenBlock()
      requires Valid() && |rest| >= 16
      modifies this`rest, this`chain, this`buf, this`blocks
      ensures Valid() && |rest| < |old(rest)| && given == old(given)
    {
      hide Xor;
      var block: Block := rest[..16];
      assert block == blocks[0] && rest[16..] == Join(blocks[1..]) + tail;
      buf := buf + Xor(cipher.open(block), chain);
      chain := block;
      rest := rest[16..];
      blocks := blocks[1..];
    }

    // Blocks are decrypted until there is enough. However the reads are cut, they give the plain
    // bytes one after another, as many as asked for while there are any. An unfinished block at
    // the end is an error, once, for the first read that gets to it.
    method Read(len: nat) returns (p: seq<byte8>, err: Outcome)
      requires Valid()
      modifies this
      ensures Valid() && given == old(given) + p && |given| <= |plain| && given == plain[..|given|]
      ensures err == UnexpectedEOF <==> |old(tail)| > 0 && len > |plain| - |old(given)|
      ensures err == UnexpectedEOF ==> p == [] && tail == []
      ensures err != UnexpectedEOF ==>
                && |p| == Min(len, |plain| - |old(given)|) && tail == old(tail)
                && err == if len > 0 && p == [] then EOF else Fine
    {
      hide Unseal;
      while |buf| < len && |rest| > 0
        invariant Valid() && given == old(given) && tail == old(tail)
        decreases |rest|
      {
        if |rest| < 16 {
          assert plain[..|given|] == given && blocks == [];
          rest, tail := [], [];
          return [], UnexpectedEOF;
        }
        OpenBlock();
      }
      p, err := Give(len);
    }

    // What the buffer has, up to len bytes.
    method Give(len: nat) returns (p: seq<byte8>, err: Outcome)
      requires Valid() && (|buf| >= len || rest == [])
      modifies this`buf, this`given
      ensures Valid() && given == old(given) + p && |given| <= |plain| && given == plain[..|given|]
      ensures |p| == Min(len, |plain| - |old(given)|) && err == if len > 0 && p == [] then EOF else Fine
    {
      hide Unseal;
      var n := Min(len, |buf|);
      p := buf[..n];
      assert given + buf == (given + p) + buf[n..];
      given := given + p;
      buf := buf[n..];
      err := if len > 0 && |p| == 0 then EOF else Fine;
    }
  }

  // What goes through a writer, in any pieces, comes back from a reader, in any pieces, followed
  // by the zeros of the last block.
  method SealThenOpen(cipher: Cipher, iv: Block, pieces: seq<seq<byte8>>, lens: seq<nat>) returns (got: seq<byte8>)
    requires Permutes(cipher)
    ensures var whole := Join(Blocks(Flat(pieces)));
            |got| == Min(Total(lens), |whole|) && got == whole[..|got|]
  {
    hide Seal, Unseal, Join, Blocks;
    var w := SealAll(cipher, iv, pieces);
    ghost var blocks := Blocks(Flat(pieces));
    UnsealSealed(cipher, iv, blocks);
    assert w + [] == w;
    var r := new AesReader(cipher, iv, w, Seal(cipher, iv, blocks), []);
    got := [];
    for i := 0 to |lens|
      invariant r.Valid() && r.given == got && r.plain == Join(blocks) && r.tail == [] && fresh(r)
      invariant |got| <= |r.plain| && got == r.plain[..|got|]
      invariant |got| == Min(Total(lens[..i]), |r.plain|)
    {
      TotalMore(lens, i);
      var p, err := r.Read(lens[i]);
      got := got + p;
    }
    assert lens[..|lens|] == lens;
  }

  method SealAll(cipher: Cipher, iv: Block, pieces: seq<seq<byte8>>) returns (out: seq<byte8>)
    ensures out == Join(Seal(cipher, iv, Blocks(Flat(pieces))))
  {
    hide Seal, Join, Blocks, AesWriter.Chained;
    var w := new AesWriter(cipher, iv);
    for i := 0 to |pieces|
      invariant w.Valid() && w.cipher == cipher && w.iv == iv && fresh(w)
      invariant w.written == Flat(pieces[..i])
    {
      FlatNext(pieces, i);
      w.Write(pieces[i]);
    }
    assert pieces[..|pieces|] == pieces;
    w.Close();
    return w.out;
  }

  function Total(lens: seq<nat>): nat {
    if lens == [] then 0 else Total(lens[..|lens| - 1]) + lens[|lens| - 1]
  }

  lemma TotalMore(lens: seq<nat>, i: nat)
    requires i < |lens|
    ensures Total(lens[..i + 1]) == Total(lens[..i]) + lens[i]
  {
    assert lens[..i + 1][..i] == lens[..i];
  }
}
