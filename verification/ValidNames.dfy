/** What name a file is listed under, whatever the archive calls it. */
module ValidNames {
  import opened Basics
  import opened PathNames

  // Read from the end, every dot-dot takes back the next proper component before it; `up` are those still
  // looking for one.
  function Kept(cs: seq<string>, up: nat): seq<string> {
    if cs == [] then []
    else
      var front, c := cs[..|cs| - 1], cs[|cs| - 1];
      if c == "" || c == "." then Kept(front, up)
      else if c == ".." then Kept(front, up + 1)
      else if up > 0 then Kept(front, up - 1)
      else Kept(front, 0) + [c]
  }

  // Those that find none.
  function Ups(cs: seq<string>, up: nat): nat {
    if cs == [] then up
    else
      var front, c := cs[..|cs| - 1], cs[|cs| - 1];
      if c == "" || c == "." then Ups(front, up)
      else if c == ".." then Ups(front, up + 1)
      else if up > 0 then Ups(front, up - 1)
      else Ups(front, 0)
  }

  lemma {:induction false} KeptTakes(cs: seq<string>, up: nat)
    ensures Kept(cs, up) == Kept(cs, 0)[..Max(|Kept(cs, 0)| - up, 0)]
    ensures Ups(cs, up) == Ups(cs, 0) + Max(up - |Kept(cs, 0)|, 0)
    decreases |cs|, up
  {
    if cs != [] {
      var front, c := cs[..|cs| - 1], cs[|cs| - 1];
      if c == "" || c == "." {
        KeptTakes(front, up);
      } else if c == ".." {
        KeptTakes(front, up + 1);
        KeptTakes(front, 1);
      } else if up > 0 {
        KeptTakes(front, up - 1);
        var k := Kept(front, 0);
        assert (k + [c])[..|k|] == k;
      }
    }
  }

  lemma {:induction false} KeptProper(cs: seq<string>, up: nat)
    requires forall i :: 0 <= i < |cs| ==> NoSlash(cs[i])
    ensures AllProper(Kept(cs, up))
    decreases |cs|
  {
    if cs != [] {
      var front, c := cs[..|cs| - 1], cs[|cs| - 1];
      if c == "" || c == "." {
        KeptProper(front, up);
      } else if c == ".." {
        KeptProper(front, up + 1);
      } else if up > 0 {
        KeptProper(front, up - 1);
      } else {
        KeptProper(front, 0);
      }
    }
  }

  // One component onto the stack of Clean.
  function Pushed(stack: seq<string>, c: string, rooted: bool): seq<string> {
    if c == "" || c == "." then stack
    else if c != ".." then stack + [c]
    else if stack != [] && stack[|stack| - 1] != ".." then stack[..|stack| - 1]
    else if rooted then stack
    else stack + [c]
  }

  lemma {:induction false} NormLast(cs: seq<string>, c: string, rooted: bool, stack: seq<string>)
    ensures Norm(cs + [c], rooted, stack) == Pushed(Norm(cs, rooted, stack), c, rooted)
    decreases |cs|
  {
    if cs == [] {
      assert cs + [c] == [c] && [c][1..] == [];
    } else {
      assert (cs + [c])[1..] == cs[1..] + [c];
      NormLast(cs[1..], c, rooted, Pushed(stack, cs[0], rooted));
    }
  }

  function Dots(n: nat): (r: seq<string>)
    ensures |r| == n
  {
    seq(n, _ => "..")
  }

  function Front(u: nat, rooted: bool): seq<string> {
    if rooted then [] else Dots(u)
  }

  lemma PushedIs(u: nat, k: seq<string>, c: string, rooted: bool)
    requires AllProper(k)
    ensures Pushed(Front(u, rooted) + k, c, rooted)
            == if c == "" || c == "." then Front(u, rooted) + k
               else if c != ".." then Front(u, rooted) + (k + [c])
               else if k != [] then Front(u, rooted) + k[..|k| - 1]
               else Front(u + 1, rooted)
  {
    var d := Front(u, rooted);
    if c == ".." {
      if k != [] {
        assert Proper(k[|k| - 1]) && (d + k)[|d + k| - 1] == k[|k| - 1];
        assert (d + k)[..|d + k| - 1] == d + k[..|k| - 1];
      } else {
        assert d + k == d;
        assert !rooted ==> d + [c] == Dots(u + 1);
      }
    } else if c != "" && c != "." {
      assert d + k + [c] == d + (k + [c]);
    }
  }

  // One more component at the end.
  lemma KeptStep(front: seq<string>, c: string)
    ensures Kept(front + [c], 0) == if c == "" || c == "." then Kept(front, 0)
                                    else if c == ".." then Kept(front, 1)
                                    else Kept(front, 0) + [c]
    ensures Ups(front + [c], 0) == if c == ".." then Ups(front, 1) else Ups(front, 0)
  {
    var cs := front + [c];
    assert cs[..|cs| - 1] == front;
  }

  // A dot-dot at the end takes back one component, or finds none.
  lemma KeptOne(cs: seq<string>)
    ensures var k, u := Kept(cs, 0), Ups(cs, 0);
            && Kept(cs, 1) == (if k != [] then k[..|k| - 1] else [])
            && Ups(cs, 1) == if k == [] then u + 1 else u
  {
    hide Kept, Ups;
    KeptTakes(cs, 1);
  }

  // Clean keeps just those components, behind the dot-dots that found none, unless the path is rooted.
  lemma {:induction false} NormIs(cs: seq<string>, rooted: bool)
    requires forall i :: 0 <= i < |cs| ==> NoSlash(cs[i])
    ensures Norm(cs, rooted, []) == Front(Ups(cs, 0), rooted) + Kept(cs, 0)
    decreases |cs|
  {
    if cs == [] {
      assert Dots(0) + [] == [] && [] + Kept(cs, 0) == [];
    } else {
      hide Pushed, Norm, Front, Kept, Ups;
      var front, c := cs[..|cs| - 1], cs[|cs| - 1];
      assert cs == front + [c];
      NormLast(front, c, rooted, []);
      NormIs(front, rooted);
      KeptProper(front, 0);
      PushedIs(Ups(front, 0), Kept(front, 0), c, rooted);
      KeptStep(front, c);
      KeptOne(front);
      FrontNone(Ups(front, 0) + 1, rooted);
    }
  }

  lemma FrontNone(u: nat, rooted: bool)
    ensures Front(u, rooted) + [] == Front(u, rooted)
  {
  }

  // The listed name, from the components between slashes and backslashes.
  lemma ToValidNameIs(name: string)
    ensures var s := Slashes(name);
            var k := Kept(Comps(s), 0);
            ToValidName(name) == if k != [] then Join(k)
                                 else if s != "" && s[0] == '/' then ""
                                 else if Ups(Comps(s), 0) == 0 then "."
                                 else ".."
  {
    hide Comps, Join, StripDots, Norm, Kept, Ups;
    var s := Slashes(name);
    var cs := Comps(s);
    var rooted := s != "" && s[0] == '/';
    var k, u := Kept(cs, 0), Ups(cs, 0);
    CompsNoSlash(s);
    NormIs(cs, rooted);
    KeptProper(cs, 0);
    var out := Norm(cs, rooted, []);
    if rooted {
      assert out == k;
      if k == [] {
        StripNothing();
      } else {
        StripProper(k);
        assert ("/" + Join(k))[1..] == Join(k);
      }
    } else if out == [] {
      assert u == 0 && k == [];
      StripNothing();
    } else {
      assert out[u..] == k;
      StripShape(out, u);
      FirstOf(out, u);
      assert u == |out| <==> k == [];
    }
  }

  lemma StripNothing()
    ensures Join([]) == "" && StripDots("") == "" && StripDots(".") == "."
  {
  }

  lemma FirstOf(out: seq<string>, u: nat)
    requires Shape(out, u) && out != []
    ensures Join(out) != "" && Join(out)[0] != '/'
  {
    if u > 0 {
      DotsFirst(out);
    } else {
      assert out[0..] == out;
      JoinNice(out);
    }
  }

  // --- names that are kept ---

  predicate NoBackslash(s: string) {
    forall i :: 0 <= i < |s| ==> s[i] != '\\'
  }

  lemma {:induction false} AllKept(cs: seq<string>)
    requires AllProper(cs)
    ensures Kept(cs, 0) == cs
    decreases |cs|
  {
    if cs != [] {
      assert Proper(cs[|cs| - 1]);
      AllKept(cs[..|cs| - 1]);
      assert cs == cs[..|cs| - 1] + [cs[|cs| - 1]];
    }
  }

  lemma {:induction false} CompsPure(s: string)
    requires NoBackslash(s)
    ensures forall i :: 0 <= i < |Comps(s)| ==> NoBackslash(Comps(s)[i])
  {
    if s != "" {
      CompsPure(s[1..]);
    }
  }

  lemma {:induction false} KeptPure(cs: seq<string>, up: nat)
    requires forall i :: 0 <= i < |cs| ==> NoBackslash(cs[i])
    ensures forall i :: 0 <= i < |Kept(cs, up)| ==> NoBackslash(Kept(cs, up)[i])
    decreases |cs|
  {
    if cs != [] {
      var front, c := cs[..|cs| - 1], cs[|cs| - 1];
      if c == "" || c == "." {
        KeptPure(front, up);
      } else if c == ".." {
        KeptPure(front, up + 1);
      } else if up > 0 {
        KeptPure(front, up - 1);
      } else {
        KeptPure(front, 0);
      }
    }
  }

  lemma {:induction false} JoinPure(cs: seq<string>)
    requires forall i :: 0 <= i < |cs| ==> NoBackslash(cs[i])
    ensures NoBackslash(Join(cs))
  {
    if |cs| > 1 {
      JoinPure(cs[1..]);
    }
  }

  // A nice name is listed as it is if and only if it has no backslash; no listed name has one.
  lemma ValidKept(n: string)
    ensures NoBackslash(ToValidName(n))
    ensures Nice(n) ==> (ToValidName(n) == n <==> NoBackslash(n))
  {
    hide Comps, Join, Kept, Ups, ToValidName;
    var s := Slashes(n);
    ToValidNameIs(n);
    CompsPure(s);
    KeptPure(Comps(s), 0);
    JoinPure(Kept(Comps(s), 0));
    if Nice(n) && NoBackslash(n) {
      assert s == n;
      DotNames();
      if n != "." && n != ".." {
        AllKept(Comps(n));
        JoinComps(n);
      }
    }
  }

  lemma DotNames()
    ensures Kept(Comps("."), 0) == [] && Ups(Comps("."), 0) == 0
    ensures Kept(Comps(".."), 0) == [] && Ups(Comps(".."), 0) == 1
  {
    CompsPlain(".");
    CompsPlain("..");
    assert ["."][..0] == [] && [".."][..0] == [];
  }
}
