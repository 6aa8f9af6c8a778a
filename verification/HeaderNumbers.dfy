/** Numbers, bit vectors, size lists and checksum lists: their bytes and their reading. */
module HeaderNumbers {
  import opened Basics
  import opened HeaderData

  // --- variable-length uint64 ---

  // 256^n for the byte counts in use
  function Pow256(n: nat): (p: nat)
    requires n <= 8
    ensures p > 0
  {
    if n == 0 then 1
    else if n == 1 then 0x100
    else if n == 2 then 0x1_0000
    else if n == 3 then 0x100_0000
    else if n == 4 then 0x1_0000_0000
    else if n == 5 then 0x100_0000_0000
    else if n == 6 then 0x1_0000_0000_0000
    else if n == 7 then 0x100_0000_0000_0000
    else 0x1_0000_0000_0000_0000
  }

  // How many bytes follow the first one.
  function Extra(v: u64): (n: nat)
    ensures n <= 8
  {
    if v < 0x80 then 0
    else if v < 0x4000 then 1
    else if v < 0x20_0000 then 2
    else if v < 0x1000_0000 then 3
    else if v < 0x8_0000_0000 then 4
    else if v < 0x400_0000_0000 then 5
    else if v < 0x2_0000_0000_0000 then 6
    else if v < 0x100_0000_0000_0000 then 7
    else 8
  }

  // n leading ones
  function Lead(n: nat): byte
    requires n <= 8
  {
    if n == 0 then 0 else if n == 1 then 0x80 else if n == 2 then 0xc0 else if n == 3 then 0xe0
    else if n == 4 then 0xf0 else if n == 5 then 0xf8 else if n == 6 then 0xfc else if n == 7 then 0xfe
    else 0xff
  }

  // bits.LeadingZeros8(^b)
  function LeadingOnes(b: byte): (n: nat)
    ensures n <= 8
  {
    if b < 0x80 then 0 else if b < 0xc0 then 1 else if b < 0xe0 then 2 else if b < 0xf0 then 3
    else if b < 0xf8 then 4 else if b < 0xfc then 5 else if b < 0xfe then 6 else if b < 0xff then 7
    else 8
  }

  // The n low bytes of v, least significant first.
  function ToLE(v: nat, n: nat): (b: seq<byte>)
    ensures |b| == n
  {
    if n == 0 then [] else [v % 0x100] + ToLE(v / 0x100, n - 1)
  }

  function FromLE(b: seq<byte>): nat {
    if b == [] then 0 else b[0] + 0x100 * FromLE(b[1..])
  }

  // The bits of the first byte below its leading ones are the top of the value; the `or`
  // of disjoint bits is a sum.
  function PutUint64(v: u64): (b: seq<byte>)
    ensures |b| == Extra(v) + 1
  {
    var n := Extra(v);
    [Lead(n) + (if n < 7 then v / Pow256(n) else 0)] + ToLE(v, n)
  }

  function GetByte(s: seq<byte>): (r: Parse<byte>)
    ensures r.Ok? ==> |r.rest| < |s|
  {
    if s == [] then Err(EOF) else Ok(s[0], s[1..])
  }

  function GetUint64(s: seq<byte>): (r: Parse<u64>)
    ensures r.Ok? ==> |r.rest| < |s|
  {
    var (b, s) :- GetByte(s);
    var l := LeadingOnes(b);
    if |s| < l then Err(EOF)
    else
      LEBound(s[..l]);
      var high := if l < 7 then b - Lead(l) else 0;
      Ok(high * Pow256(l) + FromLE(s[..l]), s[l..])
  }

  lemma {:induction false} LEBound(b: seq<byte>)
    requires |b| <= 8
    ensures FromLE(b) < Pow256(|b|)
  {
    if b != [] {
      LEBound(b[1..]);
    }
  }

  lemma {:induction false} LERoundTrip(v: nat, n: nat)
    requires n <= 8
    ensures FromLE(ToLE(v, n)) == v % Pow256(n)
  {
    if n > 0 {
      LERoundTrip(v / 0x100, n - 1);
      assert ToLE(v, n)[1..] == ToLE(v / 0x100, n - 1);
      DivMod(v, n);
    }
  }

  lemma DivMod(v: nat, n: nat)
    requires 0 < n <= 8
    ensures v % 0x100 + 0x100 * (v / 0x100 % Pow256(n - 1)) == v % Pow256(n)
  {
    var q, p := v / 0x100, Pow256(n - 1);
    assert Pow256(n) == 0x100 * p;
    Nested(v, q, v % 0x100, q / p, q % p, p);
  }

  // v = 256 q + r with q = p k + m has remainder 256 m + r by 256 p.
  lemma Nested(v: nat, q: nat, r: nat, k: nat, m: nat, p: nat)
    requires p > 0 && v == 0x100 * q + r && r < 0x100 && q == p * k + m && m < p
    ensures v % (0x100 * p) == 0x100 * m + r
  {
    var d := 0x100 * p;
    assert v == d * k + (0x100 * m + r);
    assert 0x100 * m + r < d;
    Remainder(v, d, k, 0x100 * m + r);
  }

  lemma Remainder(v: nat, d: nat, k: nat, x: nat)
    requires d > 0 && v == d * k + x && x < d
    ensures v % d == x
  {
    var t := v / d - k;
    assert d * t == x - v % d;
    if t > 0 {
      AtLeast(d, t);
    } else if t < 0 {
      AtLeast(d, -t);
    }
  }

  lemma AtLeast(d: nat, t: nat)
    requires t > 0
    ensures d * t >= d
  {
  }

  lemma FirstByte(v: u64)
    ensures var n := Extra(v);
            var high := if n < 7 then v / Pow256(n) else 0;
            && 0 <= Lead(n) + high < 0x100
            && LeadingOnes(Lead(n) + high) == n
            && high * Pow256(n) + v % Pow256(n) == v
  {
  }

  // Reading what was written gives the value back and leaves what follows.
  lemma Uint64RoundTrip(v: u64, rest: seq<byte>)
    ensures GetUint64(PutUint64(v) + rest) == Ok(v, rest)
  {
    var n := Extra(v);
    FirstByte(v);
    LERoundTrip(v, n);
    var s := (PutUint64(v) + rest)[1..];
    assert s == ToLE(v, n) + rest;
    assert s[..n] == ToLE(v, n) && s[n..] == rest;
  }

  // No byte string that reads as v is shorter than the one written.
  lemma Uint64Shortest(s: seq<byte>)
    requires GetUint64(s).Ok?
    ensures |s| - |GetUint64(s).rest| >= |PutUint64(GetUint64(s).value)|
  {
    var l := LeadingOnes(s[0]);
    LEBound(s[1..][..l]);
  }

  // checkUint64
  function Check(v: int, nonZero: bool): (e: Option<Error>)
  {
    if nonZero && v == 0 then Some(Zero)
    else if v > MAX_UINT32 then Some(TooLarge)
    else None
  }

  function GetBounded(s: seq<byte>, nonZero: bool): Parse<nat> {
    var (v, s) :- GetUint64(s);
    match Check(v, nonZero)
    case Some(e) => Err(e)
    case None => Ok(v, s)
  }

  // --- packed booleans, most significant bit first ---

  // The masks 0x80, 0x40, ..., 1.
  predicate IsMask(m: bv8) {
    m != 0 && m & (m - 1) == 0
  }

  // The bits at mask and below.
  function Below(m: bv8): bv8 {
    m | (m - 1)
  }

  function Bit(b: bv8, mask: bv8): bool { b & mask != 0 }

  function With(b: bv8, mask: bv8, bit: bool): bv8 {
    if bit then b | mask else b
  }

  // The writer's loop: b holds the bits of an unfinished byte, mask the place of the next.
  function PutBits(bits: seq<bool>, b: bv8, mask: bv8): seq<byte> {
    if bits == [] then (if mask != 0x80 then [b as int] else [])
    else
      var b := With(b, mask, bits[0]);
      if mask >> 1 == 0 then [b as int] + PutBits(bits[1..], 0, 0x80) else PutBits(bits[1..], b, mask >> 1)
  }

  function PutBools(bits: seq<bool>): seq<byte> {
    PutBits(bits, 0, 0x80)
  }

  function AsBits(b: byte): bv8 {
    b as bv8
  }

  // The reader's loop: a zero mask asks for the next byte.
  function GetBits(s: seq<byte>, b: bv8, mask: bv8, count: nat): (r: Parse<seq<bool>>)
    ensures r.Ok? ==> |r.value| == count && |r.rest| <= |s|
    decreases count, mask == 0
  {
    if count == 0 then Ok([], s)
    else if mask == 0 then
      if s == [] then Err(EOF) else GetBits(s[1..], AsBits(s[0]), 0x80, count)
    else
      var (bits, s) :- GetBits(s, b, mask >> 1, count - 1);
      Ok([Bit(b, mask)] + bits, s)
  }

  function GetBools(s: seq<byte>, count: nat): (r: Parse<seq<bool>>)
    ensures r.Ok? ==> |r.value| == count && |r.rest| <= |s|
  {
    match Check(count, true)
    case Some(e) => Err(e)
    case None => GetBits(s, 0, 0, count)
  }

  // x agrees with b above mask.
  predicate SameAbove(x: bv8, b: bv8, mask: bv8) {
    x | Below(mask) == b | Below(mask)
  }

  predicate Clear(b: bv8, mask: bv8) {
    b & Below(mask) == 0
  }

  lemma ClearNext(b: bv8, mask: bv8)
    requires IsMask(mask) && Clear(b, mask) && mask >> 1 != 0
    ensures IsMask(mask >> 1) && Clear(b, mask >> 1) && Clear(b | mask, mask >> 1) && mask >> 1 != 0x80
  {
  }

  lemma BitSet(x: bv8, b: bv8, mask: bv8)
    requires IsMask(mask) && Clear(b, mask)
    ensures SameAbove(x, b | mask, mask >> 1) && mask >> 1 != 0 ==> x & mask != 0 && SameAbove(x, b, mask)
    ensures SameAbove(x, b, mask >> 1) && mask >> 1 != 0 ==> x & mask == 0 && SameAbove(x, b, mask)
    ensures (b | mask) & mask != 0 && SameAbove(b | mask, b, mask) && b & mask == 0
  {
  }

  lemma ByteBits(b: bv8)
    ensures 0 <= b as int < 0x100 && AsBits(b as int) == b
  {
  }

  // What a byte string holds, read from inside its first byte.
  ghost predicate Holds(out: seq<byte>, b: bv8, mask: bv8, bits: seq<bool>, rest: seq<byte>) {
    && out != []
    && SameAbove(AsBits(out[0]), b, mask)
    && GetBits(out[1..] + rest, AsBits(out[0]), mask, |bits|) == Ok(bits, rest)
  }

  lemma HoldsLast(b: bv8, mask: bv8, rest: seq<byte>)
    ensures Holds([b as int], b, mask, [], rest)
  {
    hide SameAbove;
    ByteBits(b);
    SameAboveSelf(b, mask);
    assert [b as int][1..] + rest == rest;
  }

  lemma HoldsMore(out: seq<byte>, b: bv8, mask: bv8, bits: seq<bool>, rest: seq<byte>)
    requires IsMask(mask) && Clear(b, mask) && mask >> 1 != 0 && bits != []
    requires Holds(out, With(b, mask, bits[0]), mask >> 1, bits[1..], rest)
    ensures Holds(out, b, mask, bits, rest)
  {
    hide SameAbove, Clear, IsMask;
    BitSet(AsBits(out[0]), b, mask);
    MaskNotZero(mask);
    assert bits == [bits[0]] + bits[1..];
  }

  lemma WithBit(b: bv8, mask: bv8, bit: bool)
    requires IsMask(mask) && Clear(b, mask)
    ensures Bit(With(b, mask, bit), mask) == bit && SameAbove(With(b, mask, bit), b, mask)
  {
    hide SameAbove, Clear, IsMask;
    BitSet(b, b, mask);
    SameAboveSelf(b, mask);
  }

  // The last bit of a byte: the reader takes the next byte, if more bits follow.
  lemma HoldsFull(tail: seq<byte>, b: bv8, mask: bv8, bits: seq<bool>, rest: seq<byte>)
    requires IsMask(mask) && Clear(b, mask) && mask >> 1 == 0 && bits != []
    requires if bits[1..] == [] then tail == [] else Holds(tail, 0, 0x80, bits[1..], rest)
    ensures Holds([With(b, mask, bits[0]) as int] + tail, b, mask, bits, rest)
  {
    hide SameAbove, Clear, IsMask, GetBits, With, Bit;
    var c := With(b, mask, bits[0]);
    var n := |bits| - 1;
    WithBit(b, mask, bits[0]);
    assert GetBits(tail + rest, c, 0, n) == Ok(bits[1..], rest) by {
      if n == 0 {
        assert [] + rest == rest;
        NoBits(rest, c, 0);
      } else {
        assert (tail + rest)[1..] == tail[1..] + rest;
        NextByte(tail + rest, c, n);
      }
    }
    HoldsByte(c, b, mask, tail, bits, rest);
  }

  lemma HoldsByte(c: bv8, b: bv8, mask: bv8, tail: seq<byte>, bits: seq<bool>, rest: seq<byte>)
    requires IsMask(mask) && mask >> 1 == 0 && bits != []
    requires SameAbove(c, b, mask) && Bit(c, mask) == bits[0]
    requires GetBits(tail + rest, c, 0, |bits| - 1) == Ok(bits[1..], rest)
    ensures Holds([c as int] + tail, b, mask, bits, rest)
  {
    hide SameAbove, IsMask, GetBits, Bit;
    ByteBits(c);
    MaskNotZero(mask);
    NextBit(tail + rest, c, mask, 0, |bits|);
    assert ([c as int] + tail)[1..] == tail;
    assert bits == [bits[0]] + bits[1..];
  }

  // GetBits as equations.
  lemma NoBits(s: seq<byte>, b: bv8, mask: bv8)
    ensures GetBits(s, b, mask, 0) == Ok([], s)
  {
  }

  lemma NextBit(s: seq<byte>, b: bv8, mask: bv8, half: bv8, count: nat)
    requires mask != 0 && half == mask >> 1 && count > 0 && GetBits(s, b, half, count - 1).Ok?
    ensures var p := GetBits(s, b, half, count - 1);
            GetBits(s, b, mask, count) == Ok([Bit(b, mask)] + p.value, p.rest)
  {
  }

  lemma NextByte(s: seq<byte>, b: bv8, count: nat)
    requires s != [] && count > 0
    ensures GetBits(s, b, 0, count) == GetBits(s[1..], AsBits(s[0]), 0x80, count)
  {
  }

  lemma MaskNotZero(mask: bv8)
    requires IsMask(mask)
    ensures mask != 0
  {
  }

  lemma {:induction false} BitsRoundTrip(bits: seq<bool>, b: bv8, mask: bv8, rest: seq<byte>)
    requires IsMask(mask) && Clear(b, mask)
    requires mask != 0x80 || bits != []
    ensures Holds(PutBits(bits, b, mask), b, mask, bits, rest)
    decreases |bits|
  {
    hide Holds, Clear, IsMask;
    if bits == [] {
      HoldsLast(b, mask, rest);
    } else if mask >> 1 == 0 {
      if bits[1..] != [] {
        ClearAll();
        BitsRoundTrip(bits[1..], 0, 0x80, rest);
      }
      HoldsFull(PutBits(bits[1..], 0, 0x80), b, mask, bits, rest);
    } else {
      ClearNext(b, mask);
      BitsRoundTrip(bits[1..], With(b, mask, bits[0]), mask >> 1, rest);
      HoldsMore(PutBits(bits, b, mask), b, mask, bits, rest);
    }
  }

  lemma SameAboveSelf(b: bv8, mask: bv8)
    ensures SameAbove(b, b, mask)
  {
  }

  lemma ClearAll()
    ensures IsMask(0x80) && Clear(0, 0x80)
  {
  }

  lemma BoolsRoundTrip(bits: seq<bool>, rest: seq<byte>)
    requires 0 < |bits| <= MAX_UINT32
    ensures GetBools(PutBools(bits) + rest, |bits|) == Ok(bits, rest)
  {
    ClearAll();
    BitsRoundTrip(bits, 0, 0x80, rest);
    var out := PutBools(bits);
    assert (out + rest)[1..] == out[1..] + rest;
  }

  // --- a bit vector with a shorthand for all ones ---

  predicate AllTrue(bits: seq<bool>) {
    forall i :: 0 <= i < |bits| ==> bits[i]
  }

  function PutOptionalBools(bits: seq<bool>): seq<byte> {
    if AllTrue(bits) then [1] else [0] + PutBools(bits)
  }

  function GetOptionalBools(s: seq<byte>, count: nat): (r: Parse<seq<bool>>)
    ensures r.Ok? ==> |r.value| == count && |r.rest| <= |s|
  {
    match Check(count, true)
    case Some(e) => Err(e)
    case None =>
      var (all, s) :- GetByte(s);
      if all == 0 then GetBools(s, count) else Ok(seq(count, _ => true), s)
  }

  lemma OptionalBoolsRoundTrip(bits: seq<bool>, rest: seq<byte>)
    requires 0 < |bits| <= MAX_UINT32
    ensures GetOptionalBools(PutOptionalBools(bits) + rest, |bits|) == Ok(bits, rest)
  {
    hide GetBools, PutBools;
    if AllTrue(bits) {
      assert seq(|bits|, _ => true) == bits;
      assert ([1] + rest)[1..] == rest;
    } else {
      BoolsRoundTrip(bits, rest);
      assert (PutOptionalBools(bits) + rest)[1..] == PutBools(bits) + rest;
    }
  }

  // --- lists of sizes ---

  function PutSizes(sizes: seq<u64>): seq<byte> {
    if sizes == [] then [] else PutUint64(sizes[0]) + PutSizes(sizes[1..])
  }

  function GetSizeList(s: seq<byte>, count: nat): (r: Parse<seq<u64>>)
    ensures r.Ok? ==> |r.value| == count
    decreases count
  {
    if count == 0 then Ok([], s)
    else
      var (size, s) :- GetUint64(s);
      var (sizes, s) :- GetSizeList(s, count - 1);
      Ok([size] + sizes, s)
  }

  function GetSizes(s: seq<byte>, count: nat): Parse<seq<u64>> {
    match Check(count, true)
    case Some(e) => Err(e)
    case None => GetSizeList(s, count)
  }

  lemma {:induction false} SizeListRoundTrip(sizes: seq<u64>, rest: seq<byte>)
    ensures GetSizeList(PutSizes(sizes) + rest, |sizes|) == Ok(sizes, rest)
  {
    hide GetUint64, PutUint64;
    if sizes == [] {
      assert [] + rest == rest;
    } else {
      hide PutSizes, GetSizeList;
      SizeStep(sizes, rest);
      SizeListRoundTrip(sizes[1..], rest);
      assert sizes == [sizes[0]] + sizes[1..];
    }
  }

  lemma SizeStep(sizes: seq<u64>, rest: seq<byte>)
    requires sizes != []
    ensures var tail := GetSizeList(PutSizes(sizes[1..]) + rest, |sizes| - 1);
            tail.Ok? ==> GetSizeList(PutSizes(sizes) + rest, |sizes|) == Ok([sizes[0]] + tail.value, tail.rest)
  {
    hide GetUint64, PutUint64;
    var tail := PutSizes(sizes[1..]) + rest;
    assert PutSizes(sizes) + rest == PutUint64(sizes[0]) + tail;
    Uint64RoundTrip(sizes[0], tail);
  }

  // --- lists of optional fixed-width values: checksums, times, attributes ---

  function Defined<T>(values: seq<Option<T>>): (bits: seq<bool>)
    ensures |bits| == |values|
  {
    seq(|values|, i requires 0 <= i < |values| => values[i].Some?)
  }

  predicate FitsIn(v: Option<nat>, width: nat)
    requires width <= 8
  {
    v.Some? ==> v.value < Pow256(width)
  }

  predicate Fit(values: seq<Option<nat>>, width: nat)
    requires width <= 8
  {
    forall i :: 0 <= i < |values| ==> FitsIn(values[i], width)
  }

  function PutValue(v: Option<nat>, width: nat): seq<byte> {
    if v.Some? then ToLE(v.value, width) else []
  }

  function PutValues(values: seq<Option<nat>>, width: nat): seq<byte> {
    if values == [] then [] else PutValue(values[0], width) + PutValues(values[1..], width)
  }

  function GetValue(s: seq<byte>, defined: bool, width: nat): (r: Parse<Option<nat>>)
    requires width <= 8
    ensures r.Ok? ==> FitsIn(r.value, width) && |r.rest| <= |s|
  {
    if !defined then Ok(None, s)
    else if |s| < width then Err(EOF)
    else
      LEBound(s[..width]);
      Ok(Some(FromLE(s[..width])), s[width..])
  }

  function GetValues(s: seq<byte>, defined: seq<bool>, width: nat): (r: Parse<seq<Option<nat>>>)
    requires width <= 8
    ensures r.Ok? ==> |r.value| == |defined| && Fit(r.value, width) && |r.rest| <= |s|
    decreases |defined|
  {
    if defined == [] then Ok([], s)
    else
      var (v, s) :- GetValue(s, defined[0], width);
      var (values, s) :- GetValues(s, defined[1..], width);
      Ok([v] + values, s)
  }

  lemma ValueRoundTrip(v: Option<nat>, width: nat, rest: seq<byte>)
    requires width <= 8 && FitsIn(v, width)
    ensures GetValue(PutValue(v, width) + rest, v.Some?, width) == Ok(v, rest)
  {
    hide ToLE, FromLE, Pow256;
    if v.Some? {
      LERoundTrip(v.value, width);
      SmallRemainder(v.value, Pow256(width));
      var s := ToLE(v.value, width) + rest;
      assert s[..width] == ToLE(v.value, width) && s[width..] == rest;
    } else {
      assert [] + rest == rest;
    }
  }

  lemma SmallRemainder(v: nat, p: nat)
    requires v < p
    ensures v % p == v
  {
  }

  lemma {:induction false} ValuesRoundTrip(values: seq<Option<nat>>, width: nat, rest: seq<byte>)
    requires width <= 8 && Fit(values, width)
    ensures GetValues(PutValues(values, width) + rest, Defined(values), width) == Ok(values, rest)
  {
    hide GetValue, PutValue, FitsIn;
    if values == [] {
      assert [] + rest == rest;
    } else {
      var tail := PutValues(values[1..], width) + rest;
      assert PutValues(values, width) + rest == PutValue(values[0], width) + tail;
      ValueRoundTrip(values[0], width, tail);
      ValuesRoundTrip(values[1..], width, rest);
      assert Defined(values)[1..] == Defined(values[1..]);
      assert values == [values[0]] + values[1..];
    }
  }

  // An undefined value reads as zero.
  function Filled(values: seq<Option<nat>>): (r: seq<u32>)
    requires Fit(values, 4)
    ensures |r| == |values|
  {
    seq(|values|, i requires 0 <= i < |values| =>
      assert FitsIn(values[i], 4); if values[i].Some? then values[i].value else 0)
  }

  function Somes(values: seq<u32>): (r: seq<Option<nat>>)
    ensures |r| == |values|
  {
    seq(|values|, i requires 0 <= i < |values| => Some(values[i]))
  }

  function PutCRC(values: seq<Option<nat>>): seq<byte> {
    PutOptionalBools(Defined(values)) + PutValues(values, 4)
  }

  function GetCRC(s: seq<byte>, count: nat): Parse<seq<u32>> {
    match Check(count, true)
    case Some(e) => Err(e)
    case None =>
      var (defined, s) :- GetOptionalBools(s, count);
      var (values, s) :- GetValues(s, defined, 4);
      Ok(Filled(values), s)
  }

  lemma CRCRoundTrip(values: seq<Option<nat>>, rest: seq<byte>)
    requires 0 < |values| <= MAX_UINT32 && Fit(values, 4)
    ensures GetCRC(PutCRC(values) + rest, |values|) == Ok(Filled(values), rest)
  {
    hide GetOptionalBools, PutOptionalBools, GetValues, PutValues;
    var tail := PutValues(values, 4) + rest;
    assert PutCRC(values) + rest == PutOptionalBools(Defined(values)) + tail;
    OptionalBoolsRoundTrip(Defined(values), tail);
    ValuesRoundTrip(values, 4, rest);
  }
}
