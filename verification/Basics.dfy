/** Types and functions that several modules share. */
module Basics {
  datatype Option<+T> = None | Some(value: T)

  type u32 = x: int | 0 <= x < 0x1_0000_0000

  type byte8 = bv8

  function Min(a: int, b: int): int {
    if a < b then a else b
  }

  function Max(a: int, b: int): int {
    if a > b then a else b
  }

  function Zeros(n: nat): (r: seq<byte8>)
    ensures |r| == n
  {
    seq(n, _ => 0)
  }

  // Pieces end to end.
  function Flat<T>(pieces: seq<seq<T>>): seq<T> {
    if pieces == [] then [] else Flat(pieces[..|pieces| - 1]) + pieces[|pieces| - 1]
  }

  lemma FlatMore<T>(pieces: seq<seq<T>>, p: seq<T>)
    ensures Flat(pieces + [p]) == Flat(pieces) + p
  {
    assert (pieces + [p])[..|pieces|] == pieces;
  }

  // One more of the first pieces.
  lemma FlatNext<T>(pieces: seq<seq<T>>, i: nat)
    requires i < |pieces|
    ensures Flat(pieces[..i + 1]) == Flat(pieces[..i]) + pieces[i]
  {
    assert pieces[..i + 1][..i] == pieces[..i];
  }

  // Neighbouring parts of a sequence.
  lemma PartsJoin<T>(s: seq<T>, a: nat, b: nat, c: nat)
    requires a <= b <= c <= |s|
    ensures s[a..b] + s[b..c] == s[a..c]
  {
  }

  // A part of the front.
  lemma PartOfFront<T>(front: seq<T>, back: seq<T>, a: nat, b: nat)
    requires a <= b <= |front|
    ensures (front + back)[a..b] == front[a..b]
  {
  }

  // --- bytes as numbers ---

  // A byte as a number, under a name so that proofs can hide the conversion.
  function Num(b: byte8): (n: nat)
    ensures n < 0x100
  {
    b as int
  }

  // A number as a byte, by counting up to it.
  function ToByte(n: nat): byte8
    requires n < 0x100
  {
    if n == 0 then 0 else Up(ToByte(n - 1))
  }

  function Up(b: byte8): byte8 { b + 1 }

  lemma CountOn(b: byte8)
    ensures Num(Up(b)) == if Num(b) == 0xff then 0 else Num(b) + 1
  {
  }

  lemma ZeroByte()
    ensures Num(0) == 0
  {
  }

  lemma SameNum(b: byte8, c: byte8)
    requires Num(b) == Num(c)
    ensures b == c
  {
    ConvertBack(b);
    ConvertBack(c);
  }

  lemma ConvertBack(b: byte8)
    ensures (b as int) as byte8 == b
  {
  }

  lemma {:induction false} ByteBack(n: nat)
    requires n < 0x100
    ensures Num(ToByte(n)) == n
  {
    hide Num, Up;
    ZeroByte();
    if n > 0 {
      ByteBack(n - 1);
      CountOn(ToByte(n - 1));
    }
  }

  lemma BitsBack(b: byte8)
    ensures ToByte(Num(b)) == b
  {
    hide *;
    ByteBack(Num(b));
    SameNum(ToByte(Num(b)), b);
  }

  lemma ByteLess(b: byte8, c: byte8)
    ensures b < c <==> Num(b) < Num(c)
  {
  }

  // --- adding bytes is adding numbers modulo 256 ---

  function Add(x: byte8, y: byte8): byte8 { x + y }

  lemma AddNext(x: byte8, y: byte8)
    ensures Add(x, Up(y)) == Up(Add(x, y)) && Add(x, 0) == x
  {
  }

  lemma {:induction false} AddByte(x: byte8, n: nat)
    requires n < 0x100
    ensures Num(Add(x, ToByte(n))) == (Num(x) + n) % 0x100
  {
    hide Num, Up, Add;
    AddNext(x, 0);
    if n > 0 {
      AddByte(x, n - 1);
      AddNext(x, ToByte(n - 1));
      CountOn(Add(x, ToByte(n - 1)));
    }
  }

  lemma BytesAdd(x: byte8, y: byte8)
    ensures Num(Add(x, y)) == (Num(x) + Num(y)) % 0x100
  {
    hide *;
    BitsBack(y);
    AddByte(x, Num(y));
  }
}
