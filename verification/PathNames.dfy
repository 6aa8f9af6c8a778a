/** Slash-separated names: cleaning, splitting, and the names a file can be looked up by. */
module PathNames {
  // --- components ---

  function Comps(s: string): (r: seq<string>)
    ensures |r| > 0
  {
    if s == "" then [""]
    else
      var r := Comps(s[1..]);
      if s[0] == '/' then [""] + r else [[s[0]] + r[0]] + r[1..]
  }

  function Join(cs: seq<string>): string {
    if cs == [] then "" else if |cs| == 1 then cs[0] else cs[0] + "/" + Join(cs[1..])
  }

  predicate NoSlash(s: string) {
    forall i :: 0 <= i < |s| ==> s[i] != '/'
  }

  predicate Proper(c: string) {
    c != "" && c != "." && c != ".." && NoSlash(c)
  }

  predicate AllProper(cs: seq<string>) {
    forall i :: 0 <= i < |cs| ==> Proper(cs[i])
  }

  lemma {:induction false} JoinComps(s: string)
    ensures Join(Comps(s)) == s
  {
    if s != "" {
      JoinComps(s[1..]);
      var r := Comps(s[1..]);
      if s[0] == '/' {
        assert ([""] + r)[1..] == r;
      } else {
        assert ([[s[0]] + r[0]] + r[1..])[1..] == r[1..];
      }
    }
  }

  lemma {:induction false} CompsNoSlash(s: string)
    ensures forall i :: 0 <= i < |Comps(s)| ==> NoSlash(Comps(s)[i])
  {
    if s != "" {
      CompsNoSlash(s[1..]);
    }
  }

  lemma {:induction false} CompsPlain(b: string)
    requires NoSlash(b)
    ensures Comps(b) == [b]
  {
    if b != "" {
      CompsPlain(b[1..]);
      assert [b[0]] + b[1..] == b;
    }
  }

  // What follows the last slash is the last component.
  lemma {:induction false} CompsSplit(a: string, b: string)
    requires NoSlash(b)
    ensures Comps(a + "/" + b) == Comps(a) + [b]
  {
    var s := a + "/" + b;
    if a == "" {
      CompsPlain(b);
      assert s[1..] == b;
    } else {
      assert s[1..] == a[1..] + "/" + b;
      CompsSplit(a[1..], b);
    }
  }

  lemma {:induction false} CompsJoin(cs: seq<string>)
    requires cs != [] && forall i :: 0 <= i < |cs| ==> NoSlash(cs[i])
    ensures Comps(Join(cs)) == cs
  {
    if |cs| == 1 {
      CompsPlain(cs[0]);
    } else {
      CompsJoin(cs[1..]);
      CompsFront(cs[0], Join(cs[1..]));
    }
  }

  lemma {:induction false} CompsFront(c: string, s: string)
    requires NoSlash(c)
    ensures Comps(c + "/" + s) == [c] + Comps(s)
  {
    var t := c + "/" + s;
    if c == "" {
      assert t == "/" + s && t[1..] == s;
    } else {
      assert t[1..] == c[1..] + "/" + s;
      CompsFront(c[1..], s);
      var r := Comps(t[1..]);
      assert r[0] == c[1..] && r[1..] == Comps(s);
      assert [c[0]] + c[1..] == c;
    }
  }

  // --- path.Clean ---

  // Components one by one onto a stack: empty and dot are dropped, dot-dot takes its parent
  // with it; at the front it stays, unless the path is rooted.
  function Norm(cs: seq<string>, rooted: bool, stack: seq<string>): seq<string>
    decreases |cs|
  {
    if cs == [] then stack
    else
      var c := cs[0];
      Norm(cs[1..], rooted,
           if c == "" || c == "." then stack
           else if c != ".." then stack + [c]
           else if stack != [] && stack[|stack| - 1] != ".." then stack[..|stack| - 1]
           else if rooted then stack
           else stack + [c])
  }

  function Clean(s: string): string {
    var rooted := s != "" && s[0] == '/';
    var out := Norm(Comps(s), rooted, []);
    if rooted then "/" + Join(out) else if out == [] then "." else Join(out)
  }

  // Dot-dots in front, if any, and proper components behind.
  predicate Shape(stack: seq<string>, dots: nat) {
    && dots <= |stack|
    && (forall i :: 0 <= i < dots ==> stack[i] == "..")
    && AllProper(stack[dots..])
  }

  lemma {:induction false} NormShape(cs: seq<string>, rooted: bool, stack: seq<string>, dots: nat) returns (d: nat)
    requires Shape(stack, dots) && (rooted ==> dots == 0)
    requires forall i :: 0 <= i < |cs| ==> NoSlash(cs[i])
    ensures Shape(Norm(cs, rooted, stack), d) && (rooted ==> d == 0)
    decreases |cs|
  {
    d := dots;
    if cs != [] {
      var c := cs[0];
      if c == "" || c == "." {
        d := NormShape(cs[1..], rooted, stack, dots);
      } else if c != ".." {
        assert (stack + [c])[dots..] == stack[dots..] + [c];
        d := NormShape(cs[1..], rooted, stack + [c], dots);
      } else if stack != [] && stack[|stack| - 1] != ".." {
        var top := stack[..|stack| - 1];
        assert top[dots..] == stack[dots..][..|top| - dots];
        d := NormShape(cs[1..], rooted, top, dots);
      } else if rooted {
        d := NormShape(cs[1..], rooted, stack, dots);
      } else {
        AllDots(stack, dots);
        d := NormShape(cs[1..], rooted, stack + [c], dots + 1);
      }
    }
  }

  lemma AllDots(stack: seq<string>, dots: nat)
    requires Shape(stack, dots) && (stack == [] || stack[|stack| - 1] == "..")
    ensures dots == |stack|
  {
    assert dots < |stack| ==> Proper(stack[dots..][|stack| - dots - 1]);
  }

  // Proper components are kept.
  lemma {:induction false} NormKeeps(cs: seq<string>, rooted: bool, stack: seq<string>)
    requires AllProper(cs)
    ensures Norm(cs + [""], rooted, stack) == stack + cs
    decreases |cs|
  {
    var all := cs + [""];
    if cs == [] {
      assert all[1..] == [] && stack + cs == stack;
    } else {
      assert Proper(cs[0]);
      assert all[1..] == cs[1..] + [""];
      NormKeeps(cs[1..], rooted, stack + [cs[0]]);
      assert stack + [cs[0]] + cs[1..] == stack + cs;
    }
  }

  // --- toValidName ---

  function Slashes(s: string): (r: string)
    ensures |r| == |s|
  {
    seq(|s|, i requires 0 <= i < |s| => if s[i] == '\\' then '/' else s[i])
  }

  function StripDots(p: string): string
    decreases |p|
  {
    if |p| >= 3 && p[..3] == "../" then StripDots(p[3..]) else p
  }

  function ToValidName(name: string): string {
    var p := Clean(Slashes(name));
    StripDots(if p != "" && p[0] == '/' then p[1..] else p)
  }

  // The names files are listed under.
  predicate Nice(n: string) {
    n == "." || n == ".." || AllProper(Comps(n))
  }

  lemma StripProper(cs: seq<string>)
    requires AllProper(cs) && cs != []
    ensures StripDots(Join(cs)) == Join(cs)
  {
    var p := Join(cs);
    if |p| >= 3 && p[..3] == "../" {
      assert forall i :: 0 <= i < |cs| ==> Proper(cs[i]);
      assert Proper(cs[0]);
      CompsJoin(cs);
      assert p == ".." + "/" + p[3..];
      CompsFront("..", p[3..]);
      assert false;
    }
  }

  lemma {:induction false} StripShape(stack: seq<string>, dots: nat)
    requires Shape(stack, dots) && stack != []
    ensures StripDots(Join(stack)) == if dots == |stack| then ".." else Join(stack[dots..])
    decreases |stack|
  {
    if dots == 0 {
      assert stack[0..] == stack;
      StripProper(stack);
    } else if |stack| == 1 {
      assert StripDots("..") == "..";
    } else {
      var p := Join(stack);
      assert p == ".." + "/" + Join(stack[1..]);
      assert p[..3] == "../" && p[3..] == Join(stack[1..]);
      assert stack[1..][dots - 1..] == stack[dots..];
      StripShape(stack[1..], dots - 1);
    }
  }

  lemma JoinNice(cs: seq<string>)
    requires AllProper(cs) && cs != []
    ensures Nice(Join(cs)) && Join(cs) != "" && Join(cs)[0] != '/'
  {
    assert forall i :: 0 <= i < |cs| ==> Proper(cs[i]);
    CompsJoin(cs);
    assert Proper(cs[0]);
  }

  // Whatever the archive says, the name is empty or nice.
  lemma ValidNameNice(name: string)
    ensures ToValidName(name) == "" || Nice(ToValidName(name))
  {
    var s := Slashes(name);
    var rooted := s != "" && s[0] == '/';
    CompsNoSlash(s);
    var d := NormShape(Comps(s), rooted, [], 0);
    var out := Norm(Comps(s), rooted, []);
    if out != [] {
      StripShape(out, d);
      if d < |out| {
        JoinNice(out[d..]);
      }
      if d == 0 {
        assert out[0..] == out;
      } else {
        DotsFirst(out);
      }
    }
  }

  lemma DotsFirst(out: seq<string>)
    requires out != [] && out[0] == ".."
    ensures Join(out) != "" && Join(out)[0] == '.'
  {
  }

  // --- split ---

  // The index of the last slash below i, or -1.
  function LastSlash(s: string, i: nat): (r: int)
    requires i <= |s|
    ensures -1 <= r < i
    ensures r >= 0 ==> s[r] == '/'
    ensures forall k :: r < k < i ==> s[k] != '/'
  {
    if i == 0 then -1 else if s[i - 1] == '/' then i - 1 else LastSlash(s, i - 1)
  }

  function Trimmed(s: string): string {
    if s != "" && s[|s| - 1] == '/' then s[..|s| - 1] else s
  }

  // Directory and element; a name without a slash is in ".".
  function Split(s: string): (string, string) {
    var t := Trimmed(s);
    var i := LastSlash(t, |t|);
    if i < 0 then (".", t) else (t[..i], t[i + 1..])
  }

  // split of the source: the loop from the end.
  method SplitLoop(s: string) returns (dir: string, elem: string)
    ensures (dir, elem) == Split(s)
  {
    var t := Trimmed(s);
    var i := |t| - 1;
    while i >= 0 && t[i] != '/'
      invariant -1 <= i < |t| && LastSlash(t, |t|) == LastSlash(t, i + 1)
    {
      i := i - 1;
    }
    if i < 0 {
      return ".", t;
    }
    return t[..i], t[i + 1..];
  }

  // A nice name is its element, or directory, slash, element, with a nice directory.
  lemma SplitNice(n: string)
    requires Nice(n)
    ensures Trimmed(n) == n && n != ""
    ensures var (dir, elem) := Split(n);
            && NoSlash(elem) && elem != ""
            && (dir == "." ==> n == elem)
            && (dir != "." ==> n == dir + "/" + elem && AllProper(Comps(dir)) && |dir| < |n|)
  {
    if n != "." && n != ".." {
      hide Comps, LastSlash;
      NiceEnds(n);
      var i := LastSlash(n, |n|);
      if i >= 0 {
        DirectoryProper(n, i);
      }
    }
  }

  // What stands before a slash in a name made of proper components.
  // A slash behind a name is not looked at.
  lemma SplitSlash(n: string)
    requires Nice(n)
    ensures Split(n + "/") == Split(n)
  {
    hide LastSlash;
    SplitNice(n);
    assert (n + "/")[..|n|] == n;
  }

  lemma DirectoryProper(n: string, i: nat)
    requires i < |n| && n[i] == '/' && NoSlash(n[i + 1..]) && AllProper(Comps(n))
    ensures AllProper(Comps(n[..i])) && n[..i] != "." && n == n[..i] + "/" + n[i + 1..]
  {
    hide Comps, Proper;
    var dir, elem := n[..i], n[i + 1..];
    assert n == dir + "/" + elem;
    CompsSplit(dir, elem);
    assert forall k :: 0 <= k < |Comps(dir)| ==> Comps(dir)[k] == Comps(n)[k];
    DotNotProper(dir);
  }

  lemma DotNotProper(dir: string)
    requires AllProper(Comps(dir))
    ensures dir != "." && dir != ""
  {
    CompsPlain(".");
    CompsPlain("");
    assert Proper(Comps(dir)[0]);
  }

  lemma ProperSome(c: string)
    requires Proper(c)
    ensures c != ""
  {
  }

  lemma NiceEnds(n: string)
    requires AllProper(Comps(n))
    ensures n != "" && n[|n| - 1] != '/'
  {
    hide Comps, Proper;
    DotNotProper(n);
    if n[|n| - 1] == '/' {
      var m := n[..|n| - 1];
      CompsSplit(m, "");
      assert n == m + "/" + "";
      assert Comps(n)[|Comps(m)|] == "";
      ProperSome(Comps(n)[|Comps(m)|]);
    }
  }

  // --- path.Dir ---

  function Dir(s: string): string {
    Clean(s[..LastSlash(s, |s|) + 1])
  }

  // On nice names it is the directory of split, so it gets shorter until it is ".".
  lemma DirNice(n: string)
    requires Nice(n)
    ensures Dir(n) == Split(n).0
    ensures Dir(n) != "." ==> Nice(Dir(n)) && |Dir(n)| < |n|
  {
    SplitNice(n);
    var i := LastSlash(n, |n|);
    if i < 0 {
      assert n[..0] == "";
      assert Norm([""], false, []) == [] by {
        NormKeeps([], false, []);
      }
    } else {
      var dir := n[..i];
      assert Split(n).0 == dir;
      CleanDir(dir);
      assert n[..i + 1] == dir + "/";
    }
  }

  lemma CleanDir(dir: string)
    requires AllProper(Comps(dir))
    ensures Clean(dir + "/") == dir
  {
    var cs := Comps(dir);
    CompsSplit(dir, "");
    assert dir + "/" + "" == dir + "/";
    NormKeeps(cs, false, []);
    assert [] + cs == cs;
    JoinComps(dir);
    DotNotProper(dir);
    JoinNice(cs);
  }

  // The directories above a name, without ".".
  ghost predicate Above(d: string, n: string)
    requires Nice(n)
    decreases |n|
  {
    DirNice(n);
    Dir(n) != "." && (d == Dir(n) || Above(d, Dir(n)))
  }

  lemma {:induction false} AboveNice(d: string, n: string)
    requires Nice(n) && Above(d, n)
    ensures Nice(d) && d != "."
    ensures Dir(d) != "." ==> Above(Dir(d), n)
    decreases |n|
  {
    DirNice(n);
    if d != Dir(n) {
      AboveNice(d, Dir(n));
    }
  }

  // The name up to its i-th character, which is a slash.
  predicate UpTo(n: string, i: nat, d: string) {
    0 < i < |n| && n[i] == '/' && d == n[..i]
  }

  // A directory is above a name if and only if it is the name up to one of its slashes.
  lemma {:induction false} AboveIff(d: string, n: string)
    requires Nice(n)
    ensures Above(d, n) <==> exists i: nat :: UpTo(n, i, d)
    decreases |n|
  {
    hide Nice, Split, Dir;
    SplitNice(n);
    DirNice(n);
    var (dir, elem) := Split(n);
    if dir != "." {
      AboveIff(d, dir);
      DotNotProper(dir);
      forall i: nat ensures UpTo(n, i, d) <==> UpTo(dir, i, d) || (i == |dir| && d == dir) {
        if |dir| < i < |n| {
          assert n[i] == elem[i - |dir| - 1];
        }
        assert i <= |dir| ==> n[..i] == dir[..i];
      }
      if d == dir {
        assert UpTo(n, |dir|, d);
      }
    }
  }
}
