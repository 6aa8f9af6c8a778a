/** Dummy properties, with which other writers pad the file section: the reader passes over them. */
module HeaderPadding {
  import opened Basics
  import opened HeaderData
  import opened HeaderNumbers
  import opened HeaderStreams
  import opened HeaderFiles
  import opened HeaderRoundTrip

  // What the reader does with a dummy property that declares n bytes: it passes over as many, or fails if
  // there are fewer. A length that is negative as an int64 passes over none.
  lemma DummyIs(n: u64, s: seq<byte>, files: Files, empty: nat)
    ensures GetFileProperties([ID_DUMMY] + PutUint64(n) + s, files, empty)
            == if n >= TWO63 then GetFileProperties(s, files, empty)
               else if |s| < n then Err(EOF)
               else GetFileProperties(s[n..], files, empty)
  {
    hide GetUint64, PutUint64;
    var t := [ID_DUMMY] + PutUint64(n) + s;
    assert t[1..] == PutUint64(n) + s;
    Uint64RoundTrip(n, s);
  }

  lemma DummyTurn(d: seq<byte>, rest: seq<byte>, files: Files, empty: nat)
    requires |d| < TWO63
    ensures GetFileProperties([ID_DUMMY] + PutUint64(|d|) + d + rest, files, empty)
            == GetFileProperties(rest, files, empty)
  {
    hide GetFileProperties, PutUint64;
    assert [ID_DUMMY] + PutUint64(|d|) + d + rest == [ID_DUMMY] + PutUint64(|d|) + (d + rest);
    assert (d + rest)[|d|..] == rest;
    DummyIs(|d|, d + rest, files, empty);
  }

  // What is not a property of files is refused.
  lemma UnknownRefused(id: byte, n: u64, s: seq<byte>, files: Files, empty: nat)
    requires id !in {ID_END, ID_EMPTY_STREAM, ID_EMPTY_FILE, ID_NAME, ID_DUMMY}
    requires id !in {ID_CTIME, ID_ATIME, ID_MTIME, ID_WIN_ATTRIBUTES}
    ensures GetFileProperties([id] + PutUint64(n) + s, files, empty)
            == Err(if id == ID_START_POS then Todo else UnexpectedId)
  {
    hide GetUint64, PutUint64;
    var t := [id] + PutUint64(n) + s;
    assert t[1..] == PutUint64(n) + s;
    Uint64RoundTrip(n, s);
  }

  // Dummy properties one after another.
  function PutDummies(pads: seq<seq<byte>>): seq<byte>
    requires Paddable(pads)
  {
    if pads == [] then [] else [ID_DUMMY] + PutUint64(|pads[0]|) + pads[0] + PutDummies(pads[1..])
  }

  predicate Paddable(pads: seq<seq<byte>>) {
    forall i :: 0 <= i < |pads| ==> |pads[i]| < TWO63
  }

  lemma {:induction false} DummiesTurn(pads: seq<seq<byte>>, rest: seq<byte>, files: Files, empty: nat)
    requires Paddable(pads)
    ensures GetFileProperties(PutDummies(pads) + rest, files, empty) == GetFileProperties(rest, files, empty)
  {
    hide GetFileProperties, PutUint64;
    if pads == [] {
      assert [] + rest == rest;
    } else {
      var tail := PutDummies(pads[1..]) + rest;
      var first := [ID_DUMMY] + PutUint64(|pads[0]|) + pads[0];
      assert PutDummies(pads) + rest == first + tail;
      DummyTurn(pads[0], tail, files, empty);
      DummiesTurn(pads[1..], rest, files, empty);
    }
  }

  // The groups of properties in the order in which they are printed.
  function Group(files: Files, n: nat): seq<byte>
    requires Sized(files) && n < 7
  {
    if n == 0 then PutEmptyStreams(files)
    else if n == 1 then PutEmptyFiles(files)
    else if n == 2 then PutTimes(files, Created)
    else if n == 3 then PutTimes(files, Accessed)
    else if n == 4 then PutTimes(files, Modified)
    else if n == 5 then PutFileNames(files)
    else PutAttributes(files)
  }

  lemma GroupTurn(files: Files, n: nat, rest: seq<byte>)
    requires GoodFiles(files) && n < 7
    ensures Sized(files)
    ensures GetFileProperties(Group(files, n) + rest, Partials(files, n), if n == 0 then 0 else CountEmpty(files))
            == GetFileProperties(rest, Partials(files, n + 1), CountEmpty(files))
  {
    hide GetFileProperties, PutEmptyStreams, PutEmptyFiles, PutTimes, PutFileNames, PutAttributes, GoodFiles, Partials;
    GoodAreSized(files);
    if n == 0 {
      EmptyStreamsTurn(files, rest);
    } else if n == 1 {
      EmptyFilesTurn(files, rest);
    } else if n == 2 {
      TimesTurn(files, Created, rest, CountEmpty(files));
    } else if n == 3 {
      TimesTurn(files, Accessed, rest, CountEmpty(files));
    } else if n == 4 {
      TimesTurn(files, Modified, rest, CountEmpty(files));
    } else if n == 5 {
      NamesTurn(files, rest, CountEmpty(files));
    } else {
      AttributesTurn(files, rest, CountEmpty(files));
    }
  }

  // The groups from the n-th on, with dummies before each and before the end.
  function PutPadded(files: Files, pads: seq<seq<seq<byte>>>, n: nat): seq<byte>
    requires Sized(files) && AllPaddable(pads) && n <= 7
    decreases 7 - n
  {
    PutDummies(pads[n]) + if n == 7 then [ID_END] else Group(files, n) + PutPadded(files, pads, n + 1)
  }

  predicate AllPaddable(pads: seq<seq<seq<byte>>>) {
    |pads| == 8 && forall i :: 0 <= i < 8 ==> Paddable(pads[i])
  }

  lemma {:induction false} PaddedTurn(files: Files, pads: seq<seq<seq<byte>>>, n: nat, rest: seq<byte>)
    requires GoodFiles(files) && AllPaddable(pads) && n <= 7
    ensures Sized(files)
    ensures var empty := if n == 0 then 0 else CountEmpty(files);
            GetFileProperties(PutPadded(files, pads, n) + rest, Partials(files, n), empty)
            == Ok(Partials(files, 7), rest)
    decreases 7 - n
  {
    hide GetFileProperties, Group, PutDummies, GoodFiles, Partials, Paddable, Sized;
    GoodAreSized(files);
    var empty := if n == 0 then 0 else CountEmpty(files);
    if n == 7 {
      DummiesTurn(pads[n], [ID_END] + rest, Partials(files, n), empty);
      assert PutDummies(pads[n]) + [ID_END] + rest == PutDummies(pads[n]) + ([ID_END] + rest);
      EndTurn(rest, Partials(files, n), empty);
    } else {
      var tail := PutPadded(files, pads, n + 1) + rest;
      PaddedTurn(files, pads, n + 1, rest);
      GroupTurn(files, n, tail);
      DummiesTurn(pads[n], Group(files, n) + tail, Partials(files, n), empty);
      assert PutPadded(files, pads, n) + rest == PutDummies(pads[n]) + (Group(files, n) + tail);
    }
  }

  // A file section with dummies anywhere between its properties.
  function PutPaddedFiles(files: Files, pads: seq<seq<seq<byte>>>): seq<byte>
    requires Sized(files) && AllPaddable(pads)
  {
    PutUint64(|files|) + PutPadded(files, pads, 0)
  }

  lemma PaddedFilesRead(files: Files, pads: seq<seq<seq<byte>>>, rest: seq<byte>)
    requires GoodFiles(files) && AllPaddable(pads)
    ensures Sized(files) && GetFilesInfo(PutPaddedFiles(files, pads) + rest) == Ok(Partials(files, 7), rest)
  {
    hide GetFileProperties, GetUint64, PutUint64, PutPadded, GoodFiles, AllPaddable;
    GoodAreSized(files);
    Uint64RoundTrip(|files|, PutPadded(files, pads, 0) + rest);
    assert PutPaddedFiles(files, pads) + rest == PutUint64(|files|) + (PutPadded(files, pads, 0) + rest);
    assert seq(|files|, _ => BLANK) == Partials(files, 0);
    PaddedTurn(files, pads, 0, rest);
  }

  function PutPaddedHeader(h: Header, pads: seq<seq<seq<byte>>>): seq<byte>
    requires PrintableHeader(h) && h.filesInfo.Some? && AllPaddable(pads)
  {
    PutMainStreams(h) + ([ID_FILES_INFO] + PutPaddedFiles(h.filesInfo.value, pads)) + [ID_END]
  }

  // Wherever dummies are put, the header parses to what it parses to without them.
  lemma PaddedHeaderRead(h: Header, pads: seq<seq<seq<byte>>>, rest: seq<byte>)
    requires GoodHeader(h) && h.filesInfo.Some? && AllPaddable(pads)
    ensures PrintableHeader(h) && GetHeader(PutPaddedHeader(h, pads) + rest) == Ok(NormalHeader(h), rest)
  {
    hide GetMainStreams, PutMainStreams, GoodStreamsInfo, GoodFiles, Partials, NormalStreams, Fill, PrintableHeader,
      GetFilesInfo, PutPaddedFiles, AllPaddable, Sized;
    GoodHeaderIsPrintable(h);
    var files := h.filesInfo.value;
    var end := [ID_END] + rest;
    PaddedFilesRead(files, pads, end);
    var body := PutPaddedFiles(files, pads);
    MainStreamsRoundTrip(h, ID_FILES_INFO, body + end);
    FilesSectionIs(body, Partials(files, 7), rest);
    assert PutPaddedHeader(h, pads) + rest == PutMainStreams(h) + ([ID_FILES_INFO] + (body + end));
    if h.streamsInfo.Some? {
      CountEmptyPartials(files, 7);
      FillKept(Partials(files, 7), h.streamsInfo.value, 0);
    }
  }

  lemma FilesSectionIs(body: seq<byte>, files: Files, rest: seq<byte>)
    requires GetFilesInfo(body + ([ID_END] + rest)) == Ok(files, [ID_END] + rest)
    ensures GetFilesSection(ID_FILES_INFO, body + ([ID_END] + rest)) == Ok((Some(files), ID_END), rest)
  {
    hide GetFilesInfo;
    assert ([ID_END] + rest)[1..] == rest;
  }
}
