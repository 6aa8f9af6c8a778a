/** The sorted list behind the file system view: building it, looking up, listing a directory. */
module NameIndex {
  import opened Basics
  import opened PathNames

  // --- the order of names ---

  // Strings as Go compares them.
  predicate Before(a: string, b: string) {
    b != "" && (a == "" || a[0] < b[0] || (a[0] == b[0] && Before(a[1..], b[1..])))
  }

  // At the first place where they differ, the one with the smaller character or with none comes first.
  ghost predicate Differ(a: string, b: string, i: nat) {
    && i <= |a| && i < |b| && a[..i] == b[..i]
    && (i == |a| || a[i] < b[i])
  }

  lemma {:induction false} BeforeIff(a: string, b: string)
    ensures Before(a, b) <==> exists i: nat :: Differ(a, b, i)
  {
    if b != "" && a != "" && a[0] == b[0] {
      BeforeIff(a[1..], b[1..]);
      if Before(a, b) {
        var i: nat :| Differ(a[1..], b[1..], i);
        assert a[..i + 1] == [a[0]] + a[1..][..i] && b[..i + 1] == [b[0]] + b[1..][..i];
        assert Differ(a, b, i + 1);
      }
      if i: nat :| Differ(a, b, i) {
        assert i > 0;
        assert a[1..][..i - 1] == a[..i][1..] && b[1..][..i - 1] == b[..i][1..];
        assert Differ(a[1..], b[1..], i - 1);
      }
    } else {
      if Before(a, b) {
        assert Differ(a, b, 0);
      }
      if i: nat :| Differ(a, b, i) {
        assert i > 0 ==> a[..i][0] == b[..i][0];
      }
    }
  }

  lemma {:induction false} BeforeOnce(a: string, b: string)
    ensures !(Before(a, b) && Before(b, a)) && (a == b ==> !Before(a, b))
    ensures a == b || Before(a, b) || Before(b, a)
  {
    if a != "" && b != "" {
      BeforeOnce(a[1..], b[1..]);
      assert a == [a[0]] + a[1..] && b == [b[0]] + b[1..];
    }
  }

  lemma {:induction false} BeforeTransitive(a: string, b: string, c: string)
    requires Before(a, b) && Before(b, c)
    ensures Before(a, c)
  {
    if a != "" && a[0] == b[0] && b[0] == c[0] {
      BeforeTransitive(a[1..], b[1..], c[1..]);
    }
  }

  // By directory, then by element.
  predicate KeyLess(x: (string, string), y: (string, string)) {
    Before(x.0, y.0) || (x.0 == y.0 && Before(x.1, y.1))
  }

  // fileEntryLess
  predicate Less(x: string, y: string) {
    KeyLess(Split(x), Split(y))
  }

  lemma KeyOrder(x: (string, string), y: (string, string))
    ensures !(KeyLess(x, y) && KeyLess(y, x)) && (x == y ==> !KeyLess(x, y))
    ensures x == y || KeyLess(x, y) || KeyLess(y, x)
  {
    BeforeOnce(x.0, y.0);
    BeforeOnce(x.1, y.1);
  }

  lemma KeyTransitive(x: (string, string), y: (string, string), z: (string, string))
    requires KeyLess(x, y) && KeyLess(y, z)
    ensures KeyLess(x, z)
  {
    if Before(x.0, y.0) && Before(y.0, z.0) {
      BeforeTransitive(x.0, y.0, z.0);
    }
    if Before(x.1, y.1) && Before(y.1, z.1) {
      BeforeTransitive(x.1, y.1, z.1);
    }
  }

  // --- the list ---

  // A name, the first file with it, and whether it stands for a directory, or for too much.
  datatype Item = Item(name: string, file: Option<nat>, isDir: bool, isDup: bool)

  ghost predicate Has(list: seq<Item>, n: string) {
    exists i :: 0 <= i < |list| && list[i].name == n
  }

  ghost predicate Unique(list: seq<Item>) {
    forall i, j :: 0 <= i < j < |list| ==> list[i].name != list[j].name
  }

  ghost predicate AllNice(list: seq<Item>) {
    forall i :: 0 <= i < |list| ==> Nice(list[i].name)
  }

  ghost predicate Sorted(list: seq<Item>) {
    forall i, j :: 0 <= i < j < |list| ==> Less(list[i].name, list[j].name)
  }

  function Insert(e: Item, list: seq<Item>): seq<Item> {
    if list == [] || Less(e.name, list[0].name) then [e] + list else [list[0]] + Insert(e, list[1..])
  }

  function Sort(list: seq<Item>): seq<Item> {
    if list == [] then [] else Insert(list[0], Sort(list[1..]))
  }

  lemma {:induction false} InsertHas(e: Item, list: seq<Item>, x: Item)
    ensures x in Insert(e, list) <==> x == e || x in list
  {
    if list != [] && !Less(e.name, list[0].name) {
      InsertHas(e, list[1..], x);
      assert list == [list[0]] + list[1..];
    }
  }

  lemma {:induction false} InsertSorts(e: Item, list: seq<Item>)
    requires Sorted(list) && AllNice(list) && Nice(e.name) && !Has(list, e.name)
    ensures Sorted(Insert(e, list))
  {
    hide Nice, Less;
    if list == [] {
    } else if Less(e.name, list[0].name) {
      forall j | 0 <= j < |list| ensures Less(e.name, list[j].name) {
        if j > 0 {
          LessTransitive(e.name, list[0].name, list[j].name);
        }
      }
    } else {
      assert list[0].name != e.name;
      LessTotal(e.name, list[0].name);
      forall n | Has(list[1..], n) ensures Has(list, n) {
        HasTail(list, n);
      }
      InsertSorts(e, list[1..]);
      var r := Insert(e, list[1..]);
      forall j | 0 <= j < |r| ensures Less(list[0].name, r[j].name) {
        InsertHas(e, list[1..], r[j]);
      }
    }
  }

  lemma HasTail(list: seq<Item>, n: string)
    requires list != [] && Has(list[1..], n)
    ensures Has(list, n)
  {
    var i :| 0 <= i < |list[1..]| && list[1..][i].name == n;
    assert list[i + 1].name == n;
  }

  lemma LessTransitive(x: string, y: string, z: string)
    requires Less(x, y) && Less(y, z)
    ensures Less(x, z)
  {
    KeyTransitive(Split(x), Split(y), Split(z));
  }

  // No two nice names split alike, so any two are ordered.
  lemma LessTotal(x: string, y: string)
    requires Nice(x) && Nice(y) && x != y
    ensures Less(x, y) || Less(y, x)
  {
    KeyOrder(Split(x), Split(y));
    SplitNice(x);
    SplitNice(y);
  }

  // Sorting a list of different nice names keeps its items and puts them in strict order.
  lemma {:induction false} SortSorts(list: seq<Item>)
    requires AllNice(list) && Unique(list)
    ensures Sorted(Sort(list)) && AllNice(Sort(list))
    ensures forall x :: x in Sort(list) <==> x in list
  {
    hide Nice, Less;
    if list != [] {
      var rest := list[1..];
      SortSorts(rest);
      var r := Sort(rest);
      forall x ensures x in Sort(list) <==> x in list {
        InsertHas(list[0], r, x);
        assert list == [list[0]] + rest;
      }
      forall i | 0 <= i < |r| ensures r[i].name != list[0].name {
        assert r[i] in rest;
      }
      InsertSorts(list[0], r);
      forall i | 0 <= i < |Sort(list)| ensures Nice(Sort(list)[i].name) {
        assert Sort(list)[i] in list;
      }
    }
  }

  // --- what the list is to hold ---

  function V(names: seq<string>, m: nat): string
    requires m < |names|
  {
    ToValidName(names[m])
  }

  // d is a directory above the m-th file.
  ghost predicate AboveFile(names: seq<string>, m: nat, d: string)
    requires m < |names|
  {
    ValidNameNice(names[m]);
    V(names, m) != "" && Above(d, V(names, m))
  }

  ghost predicate Ancestor(names: seq<string>, k: nat, d: string)
    requires k <= |names|
  {
    exists m :: 0 <= m < k && AboveFile(names, m, d)
  }

  // The name of a file, or of a directory above one.
  ghost predicate Wanted(names: seq<string>, n: string) {
    Ancestor(names, |names|, n) || exists m :: 0 <= m < |names| && n != "" && V(names, m) == n
  }

  predicate EndsInSlash(s: string) {
    s != "" && s[|s| - 1] == '/'
  }

  lemma DirectoryIff(s: string)
    ensures EndsInSlash(s) <==> exists t :: s == t + "/"
  {
    if EndsInSlash(s) {
      assert s == s[..|s| - 1] + "/";
    }
  }

  // Another of the first k files has the name of file f.
  ghost predicate Repeated(names: seq<string>, k: nat, f: nat)
    requires f < |names| && k <= |names|
  {
    exists m :: 0 <= m < k && m != f && V(names, m) == V(names, f)
  }

  // The item of file f after k files: f is the first with its name.
  ghost predicate FileItem(names: seq<string>, k: nat, e: Item) {
    && k <= |names| && e.file.Some? && e.file.value < k && e.name != ""
    && V(names, e.file.value) == e.name && Nice(e.name)
    && (forall m :: 0 <= m < e.file.value ==> V(names, m) != e.name)
    && e.isDir == EndsInSlash(names[e.file.value])
  }

  // An item of the finished list: a file, marked if its name is not its own, or a directory that
  // only other names speak of.
  ghost predicate ItemOk(names: seq<string>, e: Item) {
    match e.file
    case Some(f) =>
      && FileItem(names, |names|, e)
      && (e.isDup <==> Repeated(names, |names|, f) || (!e.isDir && Ancestor(names, |names|, e.name)))
    case None => e.isDir && !e.isDup && Nice(e.name) && forall m :: 0 <= m < |names| ==> V(names, m) != e.name
  }

  ghost predicate Index(names: seq<string>, list: seq<Item>) {
    && Sorted(list) && AllNice(list)
    && (forall n :: Has(list, n) <==> Wanted(names, n))
    && forall i :: 0 <= i < |list| ==> ItemOk(names, list[i])
  }

  // --- building it ---

  // The maps know where the names of the list are.
  ghost predicate Mapped(list: seq<Item>, files: map<string, nat>, dirs: map<string, nat>) {
    && (forall n :: n in files ==> files[n] < |list| && list[files[n]].name == n && !list[files[n]].isDir)
    && (forall n :: n in dirs ==> dirs[n] < |list| && list[dirs[n]].name == n && list[dirs[n]].isDir)
    && (forall i :: 0 <= i < |list| ==> if list[i].isDir then list[i].name in dirs else list[i].name in files)
  }

  // After k files: one item for each name, and the directories above them.
  ghost predicate Collected(names: seq<string>, k: nat, list: seq<Item>, above: set<string>) {
    && k <= |names| && Unique(list)
    && (forall i :: 0 <= i < |list| ==>
          FileItem(names, k, list[i]) && (list[i].isDup <==> Repeated(names, k, list[i].file.value)))
    && (forall m :: 0 <= m < k && V(names, m) != "" ==> Has(list, V(names, m)))
    && (forall d :: d in above <==> Ancestor(names, k, d))
  }

  lemma MappedHas(list: seq<Item>, files: map<string, nat>, dirs: map<string, nat>, n: string)
    requires Mapped(list, files, dirs)
    ensures Has(list, n) <==> n in files || n in dirs
    ensures n in files ==> files[n] < |list| && list[files[n]].name == n
    ensures n in dirs ==> dirs[n] < |list| && list[dirs[n]].name == n
  {
    if n in files {
      assert list[files[n]].name == n;
    }
    if n in dirs {
      assert list[dirs[n]].name == n;
    }
  }

  lemma AncestorMore(names: seq<string>, k: nat, d: string)
    requires k < |names|
    ensures Ancestor(names, k + 1, d) <==> Ancestor(names, k, d) || AboveFile(names, k, d)
  {
  }

  lemma RepeatedMore(names: seq<string>, k: nat, f: nat)
    requires f <= k < |names|
    ensures Repeated(names, k + 1, f) <==> Repeated(names, k, f) || (f != k && V(names, k) == V(names, f))
  {
  }

  // A name that is empty changes nothing.
  lemma SkipEmpty(names: seq<string>, k: nat, list: seq<Item>, above: set<string>)
    requires Collected(names, k, list, above) && k < |names| && V(names, k) == ""
    ensures Collected(names, k + 1, list, above)
  {
    hide V, Nice, Above;
    forall d ensures d in above <==> Ancestor(names, k + 1, d) {
      AncestorMore(names, k, d);
      NotAbove(names, k, d);
    }
    forall i | 0 <= i < |list| ensures list[i].isDup <==> Repeated(names, k + 1, list[i].file.value) {
      assert FileItem(names, k, list[i]);
      RepeatedMore(names, k, list[i].file.value);
    }
  }

  lemma NotAbove(names: seq<string>, k: nat, d: string)
    requires k < |names| && V(names, k) == ""
    ensures !AboveFile(names, k, d)
  {
  }

  // A name that is listed already marks its item.
  lemma MarkDup(names: seq<string>, k: nat, list: seq<Item>, above: set<string>, x: nat)
    requires Collected(names, k, list, above) && k < |names| && x < |list| && list[x].name == V(names, k)
    ensures Collected(names, k + 1, list[x := list[x].(isDup := true)], above)
  {
    hide V, Nice, Above, AboveFile;
    var list' := list[x := list[x].(isDup := true)];
    assert FileItem(names, k, list[x]);
    forall d ensures d in above <==> Ancestor(names, k + 1, d) {
      AncestorMore(names, k, d);
      SameAbove(names, list[x].file.value, k, d);
    }
    forall i | 0 <= i < |list|
      ensures FileItem(names, k + 1, list'[i]) && (list'[i].isDup <==> Repeated(names, k + 1, list'[i].file.value)) {
      assert FileItem(names, k, list[i]);
      RepeatedMore(names, k, list[i].file.value);
    }
    forall n ensures Has(list, n) <==> Has(list', n) {
      HasSame(list, list', n);
    }
  }

  lemma SameAbove(names: seq<string>, f: nat, k: nat, d: string)
    requires f < |names| && k < |names| && V(names, f) == V(names, k)
    ensures AboveFile(names, f, d) <==> AboveFile(names, k, d)
  {
  }

  lemma HasSame(a: seq<Item>, b: seq<Item>, n: string)
    requires |a| == |b| && forall i :: 0 <= i < |a| ==> a[i].name == b[i].name
    ensures Has(a, n) <==> Has(b, n)
  {
    if Has(a, n) {
      var i :| 0 <= i < |a| && a[i].name == n;
      assert b[i].name == n;
    }
    if Has(b, n) {
      var i :| 0 <= i < |b| && b[i].name == n;
      assert a[i].name == n;
    }
  }

  // A new name gets an item.
  lemma AddItem(names: seq<string>, k: nat, list: seq<Item>, above: set<string>, above': set<string>)
    requires Collected(names, k, list, above) && k < |names| && V(names, k) != "" && !Has(list, V(names, k))
    requires forall d :: d in above' <==> d in above || AboveFile(names, k, d)
    ensures Collected(names, k + 1, list + [Item(V(names, k), Some(k), EndsInSlash(names[k]), false)], above')
  {
    hide V, Above, AboveFile;
    var e := Item(V(names, k), Some(k), EndsInSlash(names[k]), false);
    var list' := list + [e];
    ValidName(names, k);
    forall m | 0 <= m < k ensures V(names, m) != e.name {
      assert V(names, m) != "" ==> Has(list, V(names, m));
    }
    forall i | 0 <= i < |list'|
      ensures FileItem(names, k + 1, list'[i]) && (list'[i].isDup <==> Repeated(names, k + 1, list'[i].file.value)) {
      if i < |list| {
        assert FileItem(names, k, list[i]) && list[i].name != e.name;
        RepeatedMore(names, k, list[i].file.value);
      } else {
        RepeatedMore(names, k, k);
      }
    }
    forall m | 0 <= m < k + 1 && V(names, m) != "" ensures Has(list', V(names, m)) {
      HasMore(list, e, V(names, m));
    }
    forall d ensures d in above' <==> Ancestor(names, k + 1, d) {
      AncestorMore(names, k, d);
    }
  }

  lemma ValidName(names: seq<string>, k: nat)
    requires k < |names|
    ensures V(names, k) == "" || Nice(V(names, k))
  {
    ValidNameNice(names[k]);
  }

  lemma HasMore(list: seq<Item>, e: Item, n: string)
    ensures Has(list + [e], n) <==> Has(list, n) || e.name == n
  {
    if Has(list, n) {
      var i :| 0 <= i < |list| && list[i].name == n;
      assert (list + [e])[i].name == n;
    }
    assert (list + [e])[|list|].name == e.name;
  }

  // The directories above a name, one after the other; they get shorter.
  method AddDirs(name: string, dirs: set<string>) returns (r: set<string>)
    requires Nice(name)
    ensures forall d :: d in r <==> d in dirs || Above(d, name)
  {
    hide Nice, Dir;
    r := dirs;
    DirNice(name);
    var dir := Dir(name);
    AboveStep(name);
    while dir != "."
      invariant dir != "." ==> Nice(dir)
      invariant forall d :: d in dirs || Above(d, name) <==> d in r || (dir != "." && (d == dir || Above(d, dir)))
      decreases if dir == "." then 0 else |dir| + 1
    {
      r := r + {dir};
      DirNice(dir);
      AboveStep(dir);
      dir := Dir(dir);
    }
  }

  lemma AboveStep(n: string)
    requires Nice(n)
    ensures forall d :: Above(d, n) <==> Dir(n) != "." && Nice(Dir(n)) && (d == Dir(n) || Above(d, Dir(n)))
  {
    DirNice(n);
  }

  class Reader {
    // the names in the archive
    const names: seq<string>
    var fileList: seq<Item>

    constructor (names: seq<string>)
      ensures this.names == names && fileList == []
    {
      this.names, fileList := names, [];
    }

    // initFileList, run once.
    method InitFileList()
      requires fileList == []
      modifies this
      ensures Index(names, fileList)
    {
      var files, knownDirs, dirs := CollectFiles();
      AddMissing(files, knownDirs, dirs);
      SortKeeps(names, fileList);
      fileList := Sort(fileList);
    }

    // The loop over the files.
    method CollectFiles() returns (files: map<string, nat>, knownDirs: map<string, nat>, dirs: set<string>)
      requires fileList == []
      modifies this
      ensures Collected(names, |names|, fileList, dirs) && Mapped(fileList, files, knownDirs)
    {
      hide Collected, Mapped, ToValidName, Nice;
      files, knownDirs, dirs := map[], map[], {};
      NothingCollected(names);
      for k := 0 to |names|
        invariant Collected(names, k, fileList, dirs) && Mapped(fileList, files, knownDirs)
      {
        files, knownDirs, dirs := CollectFile(k, files, knownDirs, dirs);
      }
    }

    // One file.
    method CollectFile(k: nat, files: map<string, nat>, knownDirs: map<string, nat>, dirs: set<string>)
      returns (files': map<string, nat>, knownDirs': map<string, nat>, dirs': set<string>)
      requires k < |names| && Collected(names, k, fileList, dirs) && Mapped(fileList, files, knownDirs)
      modifies this
      ensures Collected(names, k + 1, fileList, dirs') && Mapped(fileList, files', knownDirs')
    {
      hide Collected, Mapped, ToValidName, Nice;
      files', knownDirs', dirs' := files, knownDirs, dirs;
      var name := ToValidName(names[k]);
      assert name == V(names, k);
      if name == "" {
        SkipEmpty(names, k, fileList, dirs);
        return;
      }
      MappedHas(fileList, files, knownDirs, name);
      if name in files {
        MarkItem(k, files[name], files, knownDirs, dirs);
        return;
      }
      if name in knownDirs {
        MarkItem(k, knownDirs[name], files, knownDirs, dirs);
        return;
      }
      ValidName(names, k);
      dirs' := AddDirs(name, dirs);
      AboveIs(names, k);
      AddItem(names, k, fileList, dirs, dirs');
      var idx, e := |fileList|, Item(name, Some(k), EndsInSlash(names[k]), false);
      MappedMore(fileList, files, knownDirs, e);
      fileList := fileList + [e];
      if e.isDir {
        knownDirs' := knownDirs[name := idx];
      } else {
        files' := files[name := idx];
      }
    }

    method MarkItem(k: nat, x: nat, files: map<string, nat>, knownDirs: map<string, nat>, dirs: set<string>)
      requires k < |names| && Collected(names, k, fileList, dirs) && Mapped(fileList, files, knownDirs)
      requires x < |fileList| && fileList[x].name == V(names, k)
      modifies this
      ensures Collected(names, k + 1, fileList, dirs) && Mapped(fileList, files, knownDirs)
    {
      hide Collected, Mapped, V;
      MarkDup(names, k, fileList, dirs, x);
      MappedSame(fileList, files, knownDirs, x);
      fileList := fileList[x := fileList[x].(isDup := true)];
    }

    // The loop over the directories that were seen, in any order: one that is not listed is
    // added, and one that is listed as a file marks that item.
    method AddMissing(files: map<string, nat>, knownDirs: map<string, nat>, dirs: set<string>)
      requires Collected(names, |names|, fileList, dirs) && Mapped(fileList, files, knownDirs)
      modifies this
      ensures Unique(fileList)
      ensures forall n :: Has(fileList, n) <==> Wanted(names, n)
      ensures forall i :: 0 <= i < |fileList| ==> ItemOk(names, fileList[i])
    {
      hide Collected, Mapped, ItemOk, Ancestor, Partly;
      ghost var first := fileList;
      ghost var done: set<string> := {};
      var rest := dirs;
      PartlyStart(names, first, dirs);
      UniqueFirst(names, first, dirs);
      while rest != {}
        invariant rest <= dirs && done == dirs - rest
        invariant Partly(first, fileList, done)
        decreases |rest|
      {
        var dir :| dir in rest;
        MappedHas(first, files, knownDirs, dir);
        MappedAt(first, files, knownDirs, dir);
        PartlyFirst(first, fileList, done);
        if dir in knownDirs {
          PartlyListed(first, fileList, done, knownDirs[dir]);
        } else if dir in files {
          PartlyListed(first, fileList, done, files[dir]);
          fileList := fileList[files[dir] := fileList[files[dir]].(isDup := true)];
        } else {
          PartlyAdded(first, fileList, done, dir);
          fileList := fileList + [Item(dir, None, true, false)];
        }
        rest := rest - {dir};
        done := done + {dir};
      }
      assert done == dirs;
      PartlyEnd(names, first, fileList, dirs);
    }
  }

  lemma AboveIs(names: seq<string>, k: nat)
    requires k < |names| && V(names, k) != "" && Nice(V(names, k))
    ensures forall d :: AboveFile(names, k, d) <==> Above(d, V(names, k))
  {
  }

  lemma MappedSame(list: seq<Item>, files: map<string, nat>, dirs: map<string, nat>, x: nat)
    requires Mapped(list, files, dirs) && x < |list|
    ensures Mapped(list[x := list[x].(isDup := true)], files, dirs)
  {
  }

  lemma MappedMore(list: seq<Item>, files: map<string, nat>, dirs: map<string, nat>, e: Item)
    requires Mapped(list, files, dirs) && e.name !in files && e.name !in dirs
    ensures if e.isDir then Mapped(list + [e], files, dirs[e.name := |list|])
            else Mapped(list + [e], files[e.name := |list|], dirs)
  {
  }

  lemma NothingCollected(names: seq<string>)
    ensures Collected(names, 0, [], {}) && Mapped([], map[], map[])
  {
  }

  // --- the missing directories ---

  // The list from the files, with the marks and the items for the directories in done.
  ghost predicate Partly(first: seq<Item>, list: seq<Item>, done: set<string>) {
    && Unique(list) && |first| <= |list|
    && (forall i :: 0 <= i < |first| ==>
          list[i] == first[i].(isDup := first[i].isDup || (!first[i].isDir && first[i].name in done)))
    && (forall i :: |first| <= i < |list| ==>
          list[i] == Item(list[i].name, None, true, false) && list[i].name in done && !Has(first, list[i].name))
    && (forall d :: d in done ==> Has(list, d))
  }

  lemma PartlyStart(names: seq<string>, first: seq<Item>, dirs: set<string>)
    requires Collected(names, |names|, first, dirs)
    ensures Partly(first, first, {})
  {
  }

  // A directory that is listed: only an item for a file is marked.
  lemma PartlyListed(first: seq<Item>, list: seq<Item>, done: set<string>, x: nat)
    requires Partly(first, list, done) && Unique(first) && x < |first|
    ensures var list' := if first[x].isDir then list else list[x := list[x].(isDup := true)];
            Partly(first, list', done + {first[x].name})
  {
    var list' := if first[x].isDir then list else list[x := list[x].(isDup := true)];
    assert list'[x].name == first[x].name;
    forall d | d in done ensures Has(list', d) {
      HasSame(list, list', d);
    }
  }

  // A directory that is not listed is added.
  lemma PartlyAdded(first: seq<Item>, list: seq<Item>, done: set<string>, dir: string)
    requires Partly(first, list, done) && !Has(first, dir) && dir !in done
    ensures Partly(first, list + [Item(dir, None, true, false)], done + {dir})
  {
    var e := Item(dir, None, true, false);
    forall d | d in done + {dir} ensures Has(list + [e], d) {
      HasMore(list, e, d);
    }
    forall i | 0 <= i < |list| ensures list[i].name != dir {
      if i < |first| {
        assert first[i].name == list[i].name;
      }
    }
  }

  lemma MappedAt(list: seq<Item>, files: map<string, nat>, dirs: map<string, nat>, n: string)
    requires Mapped(list, files, dirs)
    ensures n in files ==> files[n] < |list| && list[files[n]].name == n && !list[files[n]].isDir
    ensures n in dirs ==> dirs[n] < |list| && list[dirs[n]].name == n && list[dirs[n]].isDir
  {
  }

  lemma PartlyFirst(first: seq<Item>, list: seq<Item>, done: set<string>)
    requires Partly(first, list, done)
    ensures |first| <= |list|
  {
  }

  lemma UniqueFirst(names: seq<string>, first: seq<Item>, dirs: set<string>)
    requires Collected(names, |names|, first, dirs)
    ensures Unique(first)
  {
  }

  lemma PartlyEnd(names: seq<string>, first: seq<Item>, list: seq<Item>, dirs: set<string>)
    requires Collected(names, |names|, first, dirs) && Partly(first, list, dirs)
    ensures Unique(list)
    ensures forall n :: Has(list, n) <==> Wanted(names, n)
    ensures forall i :: 0 <= i < |list| ==> ItemOk(names, list[i])
  {
    hide V, Nice, Ancestor, Repeated;
    forall i | 0 <= i < |list| ensures ItemOk(names, list[i]) && Wanted(names, list[i].name) {
      if i < |first| {
        assert FileItem(names, |names|, first[i]);
      } else {
        var d := list[i].name;
        AncestorNice(names, d);
        forall m | 0 <= m < |names| ensures V(names, m) != d {
          assert d != "";
        }
      }
    }
    forall n ensures Has(list, n) <==> Wanted(names, n) {
      if Wanted(names, n) && !Ancestor(names, |names|, n) {
        var m :| 0 <= m < |names| && n != "" && V(names, m) == n;
        assert Has(first, n);
        var i :| 0 <= i < |first| && first[i].name == n;
        assert list[i].name == n;
      }
    }
  }

  lemma AncestorNice(names: seq<string>, d: string)
    requires Ancestor(names, |names|, d)
    ensures Nice(d) && d != ""
  {
    var m :| 0 <= m < |names| && AboveFile(names, m, d);
    ValidNameNice(names[m]);
    AboveNice(d, V(names, m));
    SplitNice(d);
  }

  lemma SortKeeps(names: seq<string>, list: seq<Item>)
    requires Unique(list) && (forall n :: Has(list, n) <==> Wanted(names, n))
    requires forall i :: 0 <= i < |list| ==> ItemOk(names, list[i])
    ensures Index(names, Sort(list))
  {
    hide ItemOk, Wanted, Sort, Nice, Less;
    forall i | 0 <= i < |list| ensures Nice(list[i].name) {
      ItemNice(names, list[i]);
    }
    SortSorts(list);
    var r := Sort(list);
    forall i | 0 <= i < |r| ensures ItemOk(names, r[i]) {
      assert r[i] in list;
    }
    SameHas(list, r);
  }

  lemma SameHas(list: seq<Item>, r: seq<Item>)
    requires forall e :: e in r <==> e in list
    ensures forall n :: Has(r, n) <==> Has(list, n)
  {
    forall n ensures Has(r, n) <==> Has(list, n) {
      if Has(r, n) {
        var i :| 0 <= i < |r| && r[i].name == n;
        assert r[i] in list;
      }
      if Has(list, n) {
        var i :| 0 <= i < |list| && list[i].name == n;
        assert list[i] in r;
      }
    }
  }

  lemma ItemNice(names: seq<string>, e: Item)
    requires ItemOk(names, e)
    ensures Nice(e.name)
  {
  }

  // Every directory above a listed name is listed.
  lemma AncestorsListed(names: seq<string>, list: seq<Item>, i: nat, d: string)
    requires Index(names, list) && i < |list| && Nice(list[i].name) && Above(d, list[i].name)
    ensures Has(list, d)
  {
    hide ItemOk, Less;
    var n := list[i].name;
    assert Wanted(names, n);
    if Ancestor(names, |names|, n) {
      var m :| 0 <= m < |names| && AboveFile(names, m, n);
      ValidNameNice(names[m]);
      AboveAbove(d, n, V(names, m));
      assert AboveFile(names, m, d);
    } else {
      var m :| 0 <= m < |names| && n != "" && V(names, m) == n;
      assert AboveFile(names, m, d);
    }
  }

  lemma {:induction false} AboveAbove(d: string, n: string, top: string)
    requires Nice(top) && Above(n, top) && Nice(n) && Above(d, n)
    ensures Above(d, top)
    decreases |top|
  {
    DirNice(top);
    if n != Dir(top) {
      AboveAbove(d, n, Dir(top));
    }
  }

  // --- searching ---

  // sort.Search: the first index where f holds, if f stays true once it is.
  method Search(n: nat, f: nat -> bool) returns (i: nat)
    requires forall j, k :: 0 <= j < k < n && f(j) ==> f(k)
    ensures i <= n && (forall j :: 0 <= j < i ==> !f(j)) && (forall j :: i <= j < n ==> f(j))
  {
    var low: nat, high: nat := 0, n;
    while low < high
      invariant low <= high <= n && (forall j :: 0 <= j < low ==> !f(j)) && (forall j :: high <= j < n ==> f(j))
    {
      var h := (low + high) / 2;
      if !f(h) {
        low := h + 1;
      } else {
        high := h;
      }
    }
    return low;
  }

  const DOT_FILE: Item := Item("./", None, true, false)

  // openLookup: the item of a name, if there is one.
  method OpenLookup(list: seq<Item>, name: string) returns (e: Option<Item>)
    requires Sorted(list) && AllNice(list)
    ensures name == "." ==> e == Some(DOT_FILE)
    ensures name != "." ==> (e.Some? <==> Has(list, name)) && (e.Some? ==> e.value in list && e.value.name == name)
  {
    hide Nice, Less, KeyLess, Split;
    if name == "." {
      return Some(DOT_FILE);
    }
    var key := Split(name);
    var f := (i: nat) => i < |list| && !KeyLess(Split(list[i].name), key);
    forall j, k | 0 <= j < k < |list| && f(j) ensures f(k) {
      KeyStays(list[j].name, list[k].name, key);
    }
    var i := Search(|list|, f);
    forall j | 0 <= j < |list| ensures j < i <==> KeyLess(Split(list[j].name), key) {
      assert f(j) <==> j >= i;
    }
    LookupAt(list, name, i);
    if i < |list| {
      var fname := list[i].name;
      if fname == name || fname == name + "/" {
        return Some(list[i]);
      }
    }
    return None;
  }

  // Keys not below a bound stay so further on.
  lemma KeyStays(x: string, y: string, key: (string, string))
    requires Less(x, y) && !KeyLess(Split(x), key)
    ensures !KeyLess(Split(y), key)
  {
    if KeyLess(Split(y), key) {
      KeyTransitive(Split(x), Split(y), key);
    }
  }

  lemma LookupAt(list: seq<Item>, name: string, i: nat)
    requires Sorted(list) && AllNice(list) && i <= |list|
    requires forall j :: 0 <= j < i ==> KeyLess(Split(list[j].name), Split(name))
    requires forall j :: i <= j < |list| ==> !KeyLess(Split(list[j].name), Split(name))
    ensures i < |list| ==> list[i].name != name + "/"
    ensures Has(list, name) <==> i < |list| && list[i].name == name
  {
    hide Split, KeyLess;
    if i < |list| {
      assert Nice(list[i].name);
      NoTrailingSlash(list[i].name);
    }
    if Has(list, name) {
      var j :| 0 <= j < |list| && list[j].name == name;
      KeyOrder(Split(name), Split(name));
      assert j >= i;
      if j > i {
        SortedPair(list, i, j);
      }
    }
  }

  lemma SortedPair(list: seq<Item>, i: nat, j: nat)
    requires Sorted(list) && i < j < |list|
    ensures KeyLess(Split(list[i].name), Split(list[j].name))
  {
    assert Less(list[i].name, list[j].name);
  }

  lemma NoTrailingSlash(n: string)
    requires Nice(n)
    ensures n != "" && n[|n| - 1] != '/'
  {
    if n != "." && n != ".." {
      NiceEnds(n);
    }
  }

  // openReadDir: exactly the items in a directory, in order.
  method OpenReadDir(list: seq<Item>, dir: string) returns (files: seq<Item>)
    requires Sorted(list) && AllNice(list)
    ensures exists i, j :: 0 <= i <= j <= |list| && files == list[i..j]
    ensures forall e :: e in files <==> e in list && Split(e.name).0 == dir
  {
    hide Nice, Less, Split, Before;
    var atLeast := (i: nat) => i < |list| && !Before(Split(list[i].name).0, dir);
    var above := (i: nat) => i < |list| && Before(dir, Split(list[i].name).0);
    forall j, k | 0 <= j < k < |list| ensures (atLeast(j) ==> atLeast(k)) && (above(j) ==> above(k)) {
      DirStays(list[j].name, list[k].name, dir);
    }
    var i := Search(|list|, atLeast);
    var j := Search(|list|, above);
    forall k | 0 <= k < |list| ensures above(k) ==> atLeast(k) {
      BeforeOnce(dir, Split(list[k].name).0);
    }
    assert j == |list| || above(j);
    files := list[i..j];
    forall e ensures e in files <==> e in list && Split(e.name).0 == dir {
      if e in list && Split(e.name).0 == dir {
        var k :| 0 <= k < |list| && list[k] == e;
        BeforeOnce(dir, dir);
        assert atLeast(k) && !above(k);
        assert i <= k < j;
        assert files[k - i] == e;
      }
      if e in files {
        var k :| 0 <= k < |files| && files[k] == e;
        assert list[i + k] == e && atLeast(i + k) && !above(i + k);
        BeforeOnce(Split(e.name).0, dir);
      }
    }
  }

  lemma DirStays(x: string, y: string, dir: string)
    requires Less(x, y)
    ensures !Before(Split(x).0, dir) ==> !Before(Split(y).0, dir)
    ensures Before(dir, Split(x).0) ==> Before(dir, Split(y).0)
  {
    var a, b := Split(x).0, Split(y).0;
    if Before(a, b) && Before(b, dir) {
      BeforeTransitive(a, b, dir);
    }
    if Before(dir, a) && Before(a, b) {
      BeforeTransitive(dir, a, b);
    }
  }
}
