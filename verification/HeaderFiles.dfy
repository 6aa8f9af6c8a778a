/** File properties: their bytes and their reading. */
module HeaderFiles {
  import opened Basics
  import opened HeaderData
  import opened HeaderNumbers

  type Files = seq<FileHeader>

  // --- setting one property of every file ---

  function SetEmptyStreams(files: Files, bits: seq<bool>): (r: Files)
    requires |bits| == |files|
    ensures |r| == |files|
  {
    seq(|files|, i requires 0 <= i < |files| => files[i].(isEmptyStream := bits[i]))
  }

  // The bits of the files without a stream, in order.
  function SetEmptyFiles(files: Files, bits: seq<bool>): (r: Files)
    requires CountEmpty(files) <= |bits|
    ensures |r| == |files|
    decreases |files|
  {
    if files == [] then []
    else if files[0].isEmptyStream then [files[0].(isEmptyFile := bits[0])] + SetEmptyFiles(files[1..], bits[1..])
    else [files[0]] + SetEmptyFiles(files[1..], bits)
  }

  function CountEmpty(files: Files): nat {
    if files == [] then 0 else (if files[0].isEmptyStream then 1 else 0) + CountEmpty(files[1..])
  }

  function CountTrue(bits: seq<bool>): nat {
    if bits == [] then 0 else (if bits[0] then 1 else 0) + CountTrue(bits[1..])
  }

  datatype TimeKind = Created | Accessed | Modified

  function TimeId(k: TimeKind): byte {
    match k
    case Created => ID_CTIME
    case Accessed => ID_ATIME
    case Modified => ID_MTIME
  }

  function TimeOf(f: FileHeader, k: TimeKind): Option<u64> {
    match k
    case Created => f.created
    case Accessed => f.accessed
    case Modified => f.modified
  }

  function WithTime(f: FileHeader, k: TimeKind, t: Option<u64>): FileHeader {
    match k
    case Created => f.(created := t)
    case Accessed => f.(accessed := t)
    case Modified => f.(modified := t)
  }

  function SetTimes(files: Files, k: TimeKind, times: seq<Option<nat>>): (r: Files)
    requires |times| == |files| && Fit(times, 8)
    ensures |r| == |files|
  {
    seq(|files|, i requires 0 <= i < |files| =>
      assert FitsIn(times[i], 8); WithTime(files[i], k, times[i]))
  }

  function SetNames(files: Files, names: seq<seq<u16>>): (r: Files)
    requires |names| == |files|
    ensures |r| == |files|
  {
    seq(|files|, i requires 0 <= i < |files| => files[i].(name := names[i]))
  }

  function SetAttributes(files: Files, attributes: seq<u32>): (r: Files)
    requires |attributes| == |files|
    ensures |r| == |files|
  {
    seq(|files|, i requires 0 <= i < |files| => files[i].(attributes := attributes[i]))
  }

  // --- names: 16-bit units, each name ended by a zero ---

  function PutName(name: seq<u16>): seq<byte> {
    if name == [] then [0, 0] else [name[0] % 0x100, name[0] / 0x100] + PutName(name[1..])
  }

  function PutNames(names: seq<seq<u16>>): seq<byte> {
    if names == [] then [] else PutName(names[0]) + PutNames(names[1..])
  }

  // An odd last byte decodes to the replacement character.
  function Units(b: seq<byte>): seq<u16> {
    if b == [] then []
    else if |b| == 1 then [0xfffd]
    else
      var low: int, high: int := b[0], b[1];
      [low + 0x100 * high] + Units(b[2..])
  }

  // splitNull over the whole list: what follows the last zero is a name unless empty.
  function Split(units: seq<u16>): (r: seq<seq<u16>>) {
    SplitFrom([], units)
  }

  function SplitFrom(name: seq<u16>, units: seq<u16>): seq<seq<u16>>
    decreases |units|
  {
    if units == [] then (if name == [] then [] else [name])
    else if units[0] == 0 then [name] + SplitFrom([], units[1..])
    else SplitFrom(name + [units[0]], units[1..])
  }

  // int64(length - 1) as a limit: nothing when negative
  function Limit(length: u64): nat {
    if 0 < length <= 0x8000_0000_0000_0000 then length - 1 else 0
  }

  function GetExternal<T>(s: seq<byte>, value: T): (r: Parse<T>)
    ensures r.Ok? ==> |r.rest| <= |s|
  {
    var (external, s) :- GetByte(s);
    if external > 0 then Err(Todo) else Ok(value, s)
  }

  function GetNames(s: seq<byte>, count: nat, length: u64): (r: Parse<seq<seq<u16>>>)
    ensures r.Ok? ==> |r.value| == count && |r.rest| <= |s|
  {
    if Check(count, true).Some? then Err(Check(count, true).value)
    else
      var (_, s) :- GetExternal(s, ());
      var n := Min(Limit(length), |s|);
      var names := Split(Units(s[..n]));
      if |names| != count then Err(WrongNumberOfFilenames) else Ok(names, s[n..])
  }

  // --- optional values with an external byte between the bits and the values ---

  function PutExternalValues(values: seq<Option<nat>>, width: nat): seq<byte> {
    PutOptionalBools(Defined(values)) + [0] + PutValues(values, width)
  }

  function GetExternalValues(s: seq<byte>, count: nat, width: nat): (r: Parse<seq<Option<nat>>>)
    requires width <= 8
    ensures r.Ok? ==> |r.value| == count && Fit(r.value, width) && |r.rest| <= |s|
  {
    if Check(count, true).Some? then Err(Check(count, true).value)
    else
      var (defined, s) :- GetOptionalBools(s, count);
      var (_, s) :- GetExternal(s, ());
      GetValues(s, defined, width)
  }

  // --- the property loop ---

  function GetEmptyStreams(s: seq<byte>, files: Files, empty: nat): (r: Parse<(Files, nat)>)
    ensures r.Ok? ==> |r.value.0| == |files| && |r.rest| <= |s|
  {
    var (bits, s) :- GetBools(s, |files|);
    Ok((SetEmptyStreams(files, bits), empty + CountTrue(bits)), s)
  }

  function GetEmptyFiles(s: seq<byte>, files: Files, empty: nat): (r: Parse<(Files, nat)>)
    ensures r.Ok? ==> |r.value.0| == |files| && |r.rest| <= |s|
  {
    var (bits, s) :- GetBools(s, empty);
    if CountEmpty(files) > |bits| then Err(Panic) else Ok((SetEmptyFiles(files, bits), empty), s)
  }

  function GetTimes(s: seq<byte>, files: Files, empty: nat, k: TimeKind): (r: Parse<(Files, nat)>)
    ensures r.Ok? ==> |r.value.0| == |files| && |r.rest| <= |s|
  {
    var (times, s) :- GetExternalValues(s, |files|, 8);
    Ok((SetTimes(files, k, times), empty), s)
  }

  // io.CopyN of int64(length) bytes
  function Skip(s: seq<byte>, files: Files, empty: nat, length: u64): (r: Parse<(Files, nat)>)
    ensures r.Ok? ==> |r.value.0| == |files| && |r.rest| <= |s|
  {
    if length >= 0x8000_0000_0000_0000 then Ok((files, empty), s)
    else if |s| < length then Err(EOF)
    else Ok((files, empty), s[length..])
  }

  function GetProperty(id: byte, length: u64, s: seq<byte>, files: Files, empty: nat): (r: Parse<(Files, nat)>)
    ensures r.Ok? ==> |r.value.0| == |files| && |r.rest| <= |s|
  {
    if id == ID_EMPTY_STREAM then GetEmptyStreams(s, files, empty)
    else if id == ID_EMPTY_FILE then GetEmptyFiles(s, files, empty)
    else if id == ID_CTIME then GetTimes(s, files, empty, Created)
    else if id == ID_ATIME then GetTimes(s, files, empty, Accessed)
    else if id == ID_MTIME then GetTimes(s, files, empty, Modified)
    else if id == ID_NAME then
      var (names, s) :- GetNames(s, |files|, length);
      Ok((SetNames(files, names), empty), s)
    else if id == ID_WIN_ATTRIBUTES then
      var (values, s) :- GetExternalValues(s, |files|, 4);
      Ok((SetAttributes(files, Filled(values)), empty), s)
    else if id == ID_START_POS then Err(Todo)
    else if id == ID_DUMMY then Skip(s, files, empty, length)
    else Err(UnexpectedId)
  }

  function GetFileProperties(s: seq<byte>, files: Files, empty: nat): Parse<Files>
    decreases |s|
  {
    var (id, s) :- GetByte(s);
    if id == ID_END then Ok(files, s)
    else
      var (length, s) :- GetUint64(s);
      var (next, s) :- GetProperty(id, length, s, files, empty);
      GetFileProperties(s, next.0, next.1)
  }

  function GetFilesInfo(s: seq<byte>): Parse<Files> {
    var (count, s) :- GetBounded(s, true);
    GetFileProperties(s, seq(count, _ => BLANK), 0)
  }

  // --- writing ---

  function EmptyStreams(files: Files): (r: seq<bool>)
    ensures |r| == |files|
  {
    seq(|files|, i requires 0 <= i < |files| => files[i].isEmptyStream)
  }

  function EmptyFiles(files: Files): (r: seq<bool>)
    ensures |r| == CountEmpty(files)
  {
    if files == [] then []
    else (if files[0].isEmptyStream then [files[0].isEmptyFile] else []) + EmptyFiles(files[1..])
  }

  function Widened(t: Option<u64>): Option<nat> {
    if t.Some? then Some(t.value) else None
  }

  function Times(files: Files, k: TimeKind): (r: seq<Option<nat>>)
    ensures |r| == |files|
  {
    seq(|files|, i requires 0 <= i < |files| => Widened(TimeOf(files[i], k)))
  }

  function Names(files: Files): (r: seq<seq<u16>>)
    ensures |r| == |files|
  {
    seq(|files|, i requires 0 <= i < |files| => files[i].name)
  }

  // Zero attributes are written as undefined.
  function Attributes(files: Files): (r: seq<Option<nat>>)
    ensures |r| == |files|
  {
    seq(|files|, i requires 0 <= i < |files| => if files[i].attributes != 0 then Some(files[i].attributes) else None)
  }

  // The names fit in a byte slice, whose length is an int64; then every property does.
  predicate Sized(files: Files) {
    0 < |files| <= MAX_UINT32 && |PutNames(Names(files))| + 1 < 0x8000_0000_0000_0000
  }

  lemma {:induction false} BitsLength(bits: seq<bool>, b: bv8, mask: bv8)
    ensures |PutBits(bits, b, mask)| <= |bits| + 1
    decreases |bits|
  {
    hide With;
    if bits != [] {
      if mask >> 1 == 0 {
        BitsLength(bits[1..], 0, 0x80);
      } else {
        BitsLength(bits[1..], With(b, mask, bits[0]), mask >> 1);
      }
    }
  }

  lemma {:induction false} ValuesLength(values: seq<Option<nat>>, width: nat)
    requires width <= 8
    ensures |PutValues(values, width)| <= 8 * |values|
  {
    if values != [] {
      ValuesLength(values[1..], width);
    }
  }

  lemma BoolsLength(bits: seq<bool>)
    ensures |PutBools(bits)| <= |bits| + 1
  {
    BitsLength(bits, 0, 0x80);
  }

  lemma ExternalValuesLength(values: seq<Option<nat>>, width: nat)
    requires width <= 8 && |values| <= MAX_UINT32
    ensures |PutExternalValues(values, width)| < 0x8000_0000_0000_0000
  {
    BoolsLength(Defined(values));
    ValuesLength(values, width);
  }

  lemma {:induction false} EmptyLength(files: Files)
    ensures CountEmpty(files) <= |files|
  {
    if files != [] {
      EmptyLength(files[1..]);
    }
  }

  function PutProperty(id: byte, body: seq<byte>): seq<byte>
    requires |body| < 0x8000_0000_0000_0000
  {
    [id] + PutUint64(|body|) + body
  }

  function AnyTrue(bits: seq<bool>): bool {
    exists i :: 0 <= i < |bits| && bits[i]
  }

  function AnySome(values: seq<Option<nat>>): bool {
    AnyTrue(Defined(values))
  }

  function PutEmptyStreams(files: Files): seq<byte>
    requires Sized(files)
  {
    BoolsLength(EmptyStreams(files));
    if AnyTrue(EmptyStreams(files)) then PutProperty(ID_EMPTY_STREAM, PutBools(EmptyStreams(files))) else []
  }

  function PutEmptyFiles(files: Files): seq<byte>
    requires Sized(files)
  {
    EmptyLength(files);
    BoolsLength(EmptyFiles(files));
    if AnyTrue(EmptyStreams(files)) && AnyTrue(EmptyFiles(files)) then
      PutProperty(ID_EMPTY_FILE, PutBools(EmptyFiles(files)))
    else []
  }

  function PutTimes(files: Files, k: TimeKind): seq<byte>
    requires Sized(files)
  {
    ExternalValuesLength(Times(files, k), 8);
    if AnySome(Times(files, k)) then PutProperty(TimeId(k), PutExternalValues(Times(files, k), 8)) else []
  }

  function PutFileNames(files: Files): seq<byte>
    requires Sized(files)
  {
    PutProperty(ID_NAME, [0] + PutNames(Names(files)))
  }

  function PutAttributes(files: Files): seq<byte>
    requires Sized(files)
  {
    ExternalValuesLength(Attributes(files), 4);
    if AnySome(Attributes(files)) then PutProperty(ID_WIN_ATTRIBUTES, PutExternalValues(Attributes(files), 4)) else []
  }

  function PutFilesInfo(files: Files): seq<byte>
    requires Sized(files)
  {
    PutUint64(|files|) + PutEmptyStreams(files) + PutEmptyFiles(files)
    + PutTimes(files, Created) + PutTimes(files, Accessed) + PutTimes(files, Modified)
    + PutFileNames(files) + PutAttributes(files) + [ID_END]
  }

  // --- round trip ---

  predicate GoodName(name: seq<u16>) {
    forall i :: 0 <= i < |name| ==> name[i] != 0
  }

  predicate GoodFile(f: FileHeader) {
    GoodName(f.name) && (f.isEmptyFile ==> f.isEmptyStream)
  }

  predicate GoodFiles(files: Files) {
    Sized(files) && forall i :: 0 <= i < |files| ==> GoodFile(files[i])
  }

  // A file with the first n of its properties read: empty stream, empty file, the three
  // times, the name, the attributes.
  function Partial(f: FileHeader, n: nat): FileHeader {
    FileHeader(
      if n >= 6 then f.name else [],
      if n >= 3 then f.created else None,
      if n >= 4 then f.accessed else None,
      if n >= 5 then f.modified else None,
      if n >= 7 then f.attributes else 0,
      0, 0,
      n >= 1 && f.isEmptyStream,
      n >= 2 && f.isEmptyFile)
  }

  function Partials(files: Files, n: nat): (r: Files)
    ensures |r| == |files|
  {
    seq(|files|, i requires 0 <= i < |files| => Partial(files[i], n))
  }

  // One turn of the property loop.
  lemma PropertyTurn(id: byte, body: seq<byte>, rest: seq<byte>, files: Files, empty: nat, next: Files, empty': nat)
    requires id != ID_END && |body| < 0x8000_0000_0000_0000
    requires GetProperty(id, |body|, body + rest, files, empty) == Ok((next, empty'), rest)
    ensures GetFileProperties(PutProperty(id, body) + rest, files, empty) == GetFileProperties(rest, next, empty')
  {
    hide GetProperty, GetUint64, PutUint64;
    var s := PutProperty(id, body) + rest;
    assert s[1..] == PutUint64(|body|) + (body + rest);
    Uint64RoundTrip(|body|, body + rest);
  }

  lemma {:induction false} NoneTrue(bits: seq<bool>)
    requires !AnyTrue(bits)
    ensures CountTrue(bits) == 0
  {
    if bits != [] {
      NoneTrue(bits[1..]);
    }
  }

  lemma {:induction false} CountEmptyIs(files: Files)
    ensures CountTrue(EmptyStreams(files)) == CountEmpty(files)
  {
    if files != [] {
      assert EmptyStreams(files)[1..] == EmptyStreams(files[1..]);
      CountEmptyIs(files[1..]);
    }
  }

  lemma EmptyStreamsTurn(files: Files, rest: seq<byte>)
    requires GoodFiles(files)
    ensures GetFileProperties(PutEmptyStreams(files) + rest, Partials(files, 0), 0)
            == GetFileProperties(rest, Partials(files, 1), CountEmpty(files))
  {
    hide GetFileProperties, GetBools, PutBools, PutUint64;
    var bits := EmptyStreams(files);
    CountEmptyIs(files);
    BoolsLength(bits);
    if AnyTrue(bits) {
      BoolsRoundTrip(bits, rest);
      assert SetEmptyStreams(Partials(files, 0), bits) == Partials(files, 1);
      PropertyTurn(ID_EMPTY_STREAM, PutBools(bits), rest, Partials(files, 0), 0, Partials(files, 1), CountEmpty(files));
    } else {
      NoneTrue(bits);
      forall i | 0 <= i < |files| ensures Partial(files[i], 0) == Partial(files[i], 1) {
        assert !bits[i];
      }
      assert Partials(files, 0) == Partials(files, 1) && [] + rest == rest;
    }
  }

  lemma {:induction false} EmptyFilesSet(files: Files)
    requires forall i :: 0 <= i < |files| ==> GoodFile(files[i])
    ensures CountEmpty(Partials(files, 1)) == CountEmpty(files)
    ensures SetEmptyFiles(Partials(files, 1), EmptyFiles(files)) == Partials(files, 2)
  {
    if files != [] {
      EmptyFilesSet(files[1..]);
      assert Partials(files, 1)[1..] == Partials(files[1..], 1);
      assert Partials(files, 2) == [Partial(files[0], 2)] + Partials(files[1..], 2);
      assert GoodFile(files[0]);
      if files[0].isEmptyStream {
        assert EmptyFiles(files)[1..] == EmptyFiles(files[1..]);
      } else {
        assert EmptyFiles(files) == EmptyFiles(files[1..]);
      }
    }
  }

  lemma {:induction false} NoEmptyFile(files: Files)
    requires forall i :: 0 <= i < |files| ==> GoodFile(files[i])
    requires !AnyTrue(EmptyFiles(files))
    ensures forall i :: 0 <= i < |files| ==> !files[i].isEmptyFile
  {
    if files != [] {
      var bits := EmptyFiles(files);
      assert GoodFile(files[0]);
      if files[0].isEmptyStream {
        assert bits[1..] == EmptyFiles(files[1..]) && !bits[0];
        assert forall i :: 0 <= i < |bits| - 1 ==> bits[1..][i] == bits[i + 1];
      } else {
        assert bits == EmptyFiles(files[1..]);
      }
      NoEmptyFile(files[1..]);
      forall i | 0 <= i < |files| ensures !files[i].isEmptyFile {
        if i > 0 {
          assert files[i] == files[1..][i - 1];
        }
      }
    }
  }

  lemma EmptyFilesTurn(files: Files, rest: seq<byte>)
    requires GoodFiles(files)
    ensures GetFileProperties(PutEmptyFiles(files) + rest, Partials(files, 1), CountEmpty(files))
            == GetFileProperties(rest, Partials(files, 2), CountEmpty(files))
  {
    hide GetFileProperties, GetBools, PutBools, PutUint64;
    var bits := EmptyFiles(files);
    EmptyLength(files);
    BoolsLength(bits);
    if AnyTrue(EmptyStreams(files)) && AnyTrue(bits) {
      BoolsRoundTrip(bits, rest);
      EmptyFilesSet(files);
      PropertyTurn(ID_EMPTY_FILE, PutBools(bits), rest, Partials(files, 1), CountEmpty(files), Partials(files, 2),
        CountEmpty(files));
    } else {
      if !AnyTrue(bits) {
        NoEmptyFile(files);
      } else {
        assert forall i :: 0 <= i < |files| ==> GoodFile(files[i]) && !EmptyStreams(files)[i];
      }
      assert Partials(files, 1) == Partials(files, 2) && [] + rest == rest;
    }
  }

  lemma ExternalValuesRoundTrip(values: seq<Option<nat>>, width: nat, rest: seq<byte>)
    requires 0 < |values| <= MAX_UINT32 && width <= 8 && Fit(values, width)
    ensures GetExternalValues(PutExternalValues(values, width) + rest, |values|, width) == Ok(values, rest)
  {
    hide GetOptionalBools, PutOptionalBools, GetValues, PutValues, Fit;
    var tail := PutValues(values, width) + rest;
    assert PutExternalValues(values, width) + rest == PutOptionalBools(Defined(values)) + ([0] + tail);
    OptionalBoolsRoundTrip(Defined(values), [0] + tail);
    assert ([0] + tail)[1..] == tail;
    ValuesRoundTrip(values, width, rest);
  }

  function TimeStage(k: TimeKind): nat {
    match k
    case Created => 2
    case Accessed => 3
    case Modified => 4
  }

  lemma TimesTurn(files: Files, k: TimeKind, rest: seq<byte>, empty: nat)
    requires GoodFiles(files)
    ensures GetFileProperties(PutTimes(files, k) + rest, Partials(files, TimeStage(k)), empty)
            == GetFileProperties(rest, Partials(files, TimeStage(k) + 1), empty)
  {
    hide GetFileProperties, GetExternalValues, PutExternalValues, PutUint64;
    var times, n := Times(files, k), TimeStage(k);
    ExternalValuesLength(times, 8);
    if AnySome(times) {
      ExternalValuesRoundTrip(times, 8, rest);
      assert SetTimes(Partials(files, n), k, times) == Partials(files, n + 1);
      PropertyTurn(TimeId(k), PutExternalValues(times, 8), rest, Partials(files, n), empty, Partials(files, n + 1),
        empty);
    } else {
      forall i | 0 <= i < |files| ensures Partial(files[i], n) == Partial(files[i], n + 1) {
        assert !Defined(times)[i] && times[i] == Widened(TimeOf(files[i], k));
      }
      assert Partials(files, n) == Partials(files, n + 1) && [] + rest == rest;
    }
  }

  lemma AttributesTurn(files: Files, rest: seq<byte>, empty: nat)
    requires GoodFiles(files)
    ensures GetFileProperties(PutAttributes(files) + rest, Partials(files, 6), empty)
            == GetFileProperties(rest, Partials(files, 7), empty)
  {
    hide GetFileProperties, GetExternalValues, PutExternalValues, PutUint64;
    var values := Attributes(files);
    ExternalValuesLength(values, 4);
    if AnySome(values) {
      ExternalValuesRoundTrip(values, 4, rest);
      assert SetAttributes(Partials(files, 6), Filled(values)) == Partials(files, 7);
      PropertyTurn(ID_WIN_ATTRIBUTES, PutExternalValues(values, 4), rest, Partials(files, 6), empty,
        Partials(files, 7), empty);
    } else {
      forall i | 0 <= i < |files| ensures Partial(files[i], 6) == Partial(files[i], 7) {
        assert !Defined(values)[i] && values[i].None?;
      }
      assert Partials(files, 6) == Partials(files, 7) && [] + rest == rest;
    }
  }

  // Two bytes are a unit.
  lemma FirstUnit(x: u16, s: seq<byte>)
    ensures Units([x % 0x100, x / 0x100] + s) == [x] + Units(s)
  {
    assert ([x % 0x100, x / 0x100] + s)[2..] == s;
  }

  lemma {:induction false} NameUnits(name: seq<u16>, rest: seq<byte>)
    ensures Units(PutName(name) + rest) == name + [0] + Units(rest)
  {
    hide Units;
    if name == [] {
      FirstUnit(0, rest);
    } else {
      NameUnits(name[1..], rest);
      FirstUnit(name[0], PutName(name[1..]) + rest);
      assert PutName(name) + rest == [name[0] % 0x100, name[0] / 0x100] + (PutName(name[1..]) + rest);
      assert name == [name[0]] + name[1..];
    }
  }

  lemma {:induction false} SplitName(acc: seq<u16>, name: seq<u16>, units: seq<u16>)
    requires GoodName(name)
    ensures SplitFrom(acc, name + [0] + units) == [acc + name] + SplitFrom([], units)
    decreases |name|
  {
    var all := name + [0] + units;
    if name == [] {
      assert all[1..] == units && acc + name == acc;
    } else {
      assert all[1..] == name[1..] + [0] + units;
      SplitName(acc + [name[0]], name[1..], units);
      assert acc + [name[0]] + name[1..] == acc + name;
    }
  }

  lemma {:induction false} NamesSplit(names: seq<seq<u16>>)
    requires forall i :: 0 <= i < |names| ==> GoodName(names[i])
    ensures Split(Units(PutNames(names))) == names
  {
    hide SplitFrom, Units, PutName, GoodName;
    if names == [] {
      assert Units([]) == [] && SplitFrom([], []) == [] by {
        NoUnits();
      }
    } else {
      NameUnits(names[0], PutNames(names[1..]));
      SplitName([], names[0], Units(PutNames(names[1..])));
      NamesSplit(names[1..]);
      assert [] + names[0] == names[0];
      assert names == [names[0]] + names[1..];
    }
  }

  lemma NoUnits()
    ensures Units([]) == [] && SplitFrom([], []) == []
  {
  }

  lemma NamesTurn(files: Files, rest: seq<byte>, empty: nat)
    requires GoodFiles(files)
    ensures GetFileProperties(PutFileNames(files) + rest, Partials(files, 5), empty)
            == GetFileProperties(rest, Partials(files, 6), empty)
  {
    hide GetFileProperties, PutNames, Split, Units, PutUint64;
    var names := Names(files);
    var body := [0] + PutNames(names);
    assert forall i :: 0 <= i < |files| ==> GoodFile(files[i]);
    NamesSplit(names);
    var s := body + rest;
    assert s[1..] == PutNames(names) + rest;
    assert s[1..][..|PutNames(names)|] == PutNames(names) && s[1..][|PutNames(names)|..] == rest;
    assert SetNames(Partials(files, 5), names) == Partials(files, 6);
    PropertyTurn(ID_NAME, body, rest, Partials(files, 5), empty, Partials(files, 6), empty);
  }

  // The file list comes back property by property; sizes and checksums are not part of it.
  lemma FilesInfoRoundTrip(files: Files, rest: seq<byte>)
    requires GoodFiles(files)
    ensures GetFilesInfo(PutFilesInfo(files) + rest) == Ok(Partials(files, 7), rest)
  {
    hide GetFileProperties, GetUint64, PutUint64, PutEmptyStreams, PutEmptyFiles, PutTimes, PutFileNames,
      PutAttributes, GoodFiles;
    GoodAreSized(files);
    var e := CountEmpty(files);
    var end := [ID_END] + rest;
    var a := PutAttributes(files) + end;
    var n := PutFileNames(files) + a;
    var m := PutTimes(files, Modified) + n;
    var t := PutTimes(files, Accessed) + m;
    var c := PutTimes(files, Created) + t;
    var f := PutEmptyFiles(files) + c;
    var p := PutEmptyStreams(files) + f;
    assert PutFilesInfo(files) + rest == PutUint64(|files|) + p;
    Uint64RoundTrip(|files|, p);
    assert seq(|files|, _ => BLANK) == Partials(files, 0);
    EmptyStreamsTurn(files, f);
    EmptyFilesTurn(files, c);
    TimesTurn(files, Created, t, e);
    TimesTurn(files, Accessed, m, e);
    TimesTurn(files, Modified, n, e);
    NamesTurn(files, a, e);
    AttributesTurn(files, end, e);
    EndTurn(rest, Partials(files, 7), e);
  }

  lemma GoodAreSized(files: Files)
    requires GoodFiles(files)
    ensures Sized(files)
  {
  }

  lemma EndTurn(rest: seq<byte>, files: Files, empty: nat)
    ensures GetFileProperties([ID_END] + rest, files, empty) == Ok(files, rest)
  {
    assert ([ID_END] + rest)[1..] == rest;
  }
}
