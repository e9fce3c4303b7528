/**
  Slash-separated paths, from the characters to the components: cleaning, joining, and the
  prefix test with which the agent guards the extraction of an archive.
 */
module Paths {
  import opened Common
  import opened JsText

  /** A cleaned path: absolute or not, and its components. */
  datatype Path = Path(rooted: bool, parts: seq<string>)

  predicate Rooted(s: string) {
    s != "" && s[0] == '/'
  }

  /** One component of an uncleaned path, applied to the components so far. */
  function Enter(rooted: bool, at: seq<string>, part: string): seq<string> {
    if part == "" || part == "." then at
    else if part == ".." then
      if at != [] && at[|at| - 1] != ".." then at[..|at| - 1]
      else if rooted then at
      else at + [".."]
    else at + [part]
  }

  function Resolve(rooted: bool, at: seq<string>, parts: seq<string>): seq<string>
    decreases |parts|
  {
    if parts == [] then at else Resolve(rooted, Enter(rooted, at, parts[0]), parts[1..])
  }

  function Parse(s: string): Path {
    Path(Rooted(s), Resolve(Rooted(s), [], SplitOn(s, '/')))
  }

  function Render(p: Path): string {
    if p.parts == [] then (if p.rooted then "/" else ".")
    else (if p.rooted then "/" else "") + JoinWith(p.parts, '/')
  }

  /** filepath.Clean. */
  function Clean(s: string): string {
    Render(Parse(s))
  }

  /** filepath.Join of two elements; empty ones are left out before cleaning. */
  function Join(dir: string, name: string): string {
    if dir == "" && name == "" then ""
    else if dir == "" then Clean(name)
    else if name == "" then Clean(dir)
    else Clean(dir + "/" + name)
  }

  predicate HasPrefix(s: string, prefix: string) {
    |prefix| <= |s| && s[..|prefix|] == prefix
  }

  /** The test that untarGz makes on every entry name. */
  predicate Accepts(dest: string, name: string) {
    HasPrefix(Join(dest, name), Clean(dest) + "/")
  }

  // ---------------------------------------------------------------- components

  lemma {:induction false} ResolveConcat(rooted: bool, at: seq<string>, a: seq<string>, b: seq<string>)
    ensures Resolve(rooted, at, a + b) == Resolve(rooted, Resolve(rooted, at, a), b)
    decreases |a|
  {
    if a == [] {
      assert a + b == b;
    } else {
      assert (a + b)[1..] == a[1..] + b;
      ResolveConcat(rooted, Enter(rooted, at, a[0]), a[1..], b);
    }
  }

  lemma {:induction false} SplitConcat(a: string, c: char, b: string)
    ensures SplitOn(a + [c] + b, c) == SplitOn(a, c) + SplitOn(b, c)
    decreases |a|
  {
    if c !in a {
      SplitAtFirst(a, c, b);
    } else {
      var i := IndexOf(a, c);
      var tail := a[i + 1..] + [c] + b;
      PrefixOfJoined(a, c, b, i);
      assert SplitOn(tail, c) == SplitOn(a[i + 1..], c) + SplitOn(b, c) by {
        SplitConcat(a[i + 1..], c, b);
      }
      SplitJoined(a, a + [c] + b, c, tail, SplitOn(b, c));
    }
  }

  lemma PrefixOfJoined(a: string, c: char, b: string, i: nat)
    requires i < |a|
    ensures HasPrefix(a + [c] + b, a) && (a + [c] + b)[i + 1..] == a[i + 1..] + [c] + b
  {
    assert (a + [c] + b)[..|a|] == a;
  }

  lemma SplitFirst(s: string, c: char)
    requires c in s
    ensures SplitOn(s, c) == [s[..IndexOf(s, c)]] + SplitOn(s[IndexOf(s, c) + 1..], c)
  {
  }

  /** A text that continues another one past its first separator is split at that separator too. */
  lemma SplitJoined(a: string, s: string, c: char, tail: string, others: seq<string>)
    requires c in a && HasPrefix(s, a) && s[IndexOf(a, c) + 1..] == tail
    requires SplitOn(tail, c) == SplitOn(a[IndexOf(a, c) + 1..], c) + others
    ensures SplitOn(s, c) == SplitOn(a, c) + others
  {
    var i := IndexOf(a, c);
    var first := [a[..i]];
    IndexInPrefix(a, s, c);
    assert s[..i] == a[..i] by {
      assert s[..i] == s[..|a|][..i];
    }
    SplitFirst(s, c);
    SplitFirst(a, c);
    ConcatAssociative(first, SplitOn(a[i + 1..], c), others);
  }

  /** Joining resolves the name's components from the destination's. */
  lemma JoinResolves(dest: string, name: string)
    requires dest != ""
    ensures Join(dest, name) == Render(Path(Rooted(dest), Resolve(Rooted(dest), Parse(dest).parts, SplitOn(name, '/'))))
  {
    if name == "" {
      assert SplitOn(name, '/') == [""];
      assert Resolve(Rooted(dest), Parse(dest).parts, [""]) ==
             Resolve(Rooted(dest), Enter(Rooted(dest), Parse(dest).parts, ""), [""][1..]);
    } else {
      var s := dest + "/" + name;
      assert s == dest + ['/'] + name;
      SplitConcat(dest, '/', name);
      ResolveConcat(Rooted(dest), [], SplitOn(dest, '/'), SplitOn(name, '/'));
      assert s[0] == dest[0];
    }
  }

  /** Components hold no separator and are neither empty nor a dot. */
  predicate PartsOk(parts: seq<string>) {
    forall p | p in parts :: p != "" && p != "." && '/' !in p
  }

  lemma {:induction false} SplitPiecesPlain(s: string, c: char)
    ensures forall p | p in SplitOn(s, c) :: c !in p
    decreases |s|
  {
    if c in s {
      SplitPiecesPlain(s[IndexOf(s, c) + 1..], c);
    }
  }

  lemma EnterPartsOk(rooted: bool, at: seq<string>, part: string)
    requires PartsOk(at) && '/' !in part
    ensures PartsOk(Enter(rooted, at, part))
  {
    assert at != [] ==> forall p | p in at[..|at| - 1] :: p in at;
  }

  lemma {:induction false} ResolvePartsOk(rooted: bool, at: seq<string>, parts: seq<string>)
    requires PartsOk(at) && forall p | p in parts :: '/' !in p
    ensures PartsOk(Resolve(rooted, at, parts))
    decreases |parts|
  {
    if parts != [] {
      assert parts[0] in parts;
      EnterPartsOk(rooted, at, parts[0]);
      ResolvePartsOk(rooted, Enter(rooted, at, parts[0]), parts[1..]);
    }
  }

  // ---------------------------------------------------------------- the prefix test

  /** d is a proper prefix of r, component by component. */
  predicate StrictlyBelow(d: seq<string>, r: seq<string>) {
    |d| < |r| && r[..|d|] == d
  }

  lemma {:induction false} IndexInPrefix(s: string, t: string, c: char)
    requires HasPrefix(t, s) && c in s
    ensures c in t && IndexOf(t, c) == IndexOf(s, c)
  {
    assert s[0] == t[..|s|][0] == t[0];
    assert c in t by {
      var i := IndexOf(s, c);
      assert t[..|s|][i] == t[i];
    }
    if s[0] != c {
      assert t[1..][..|s[1..]|] == t[..|s|][1..];
      IndexInPrefix(s[1..], t[1..], c);
    }
  }

  lemma FirstPart(x: string, rest: string, y: string, more: string)
    requires '/' !in x && '/' !in y
    requires HasPrefix(y + "/" + more, x + "/" + rest)
    ensures x == y && HasPrefix(more, rest)
  {
    var s, t := x + "/" + rest, y + "/" + more;
    assert s == x + ['/'] + rest && t == y + ['/'] + more;
    IndexOfFirst(x, '/', rest);
    IndexOfFirst(y, '/', more);
    assert s[|x|] == '/';
    IndexInPrefix(s, t, '/');
    assert x == s[..|x|] == t[..|s|][..|x|] == t[..|y|] == y;
    assert t[..|s|][|x| + 1..] == more[..|rest|] && s[|x| + 1..] == rest;
  }

  lemma PrefixHoldsSeparator(x: string, rest: string, y: string)
    ensures HasPrefix(y, x + "/" + rest) ==> '/' in y
  {
    var s := x + "/" + rest;
    if HasPrefix(y, s) {
      assert y[|x|] == y[..|s|][|x|] == s[|x|];
    }
  }

  lemma DotPrefix(s: string)
    ensures HasPrefix(s, "./") ==> |s| >= 2 && s[0] == '.' && s[1] == '/'
  {
    if HasPrefix(s, "./") {
      assert s[0] == s[..2][0] && s[1] == s[..2][1];
    }
  }

  /** On joined components the string prefix with a final separator is the proper prefix of components. */
  lemma {:induction false} JoinedPrefixIff(d: seq<string>, r: seq<string>)
    requires d != [] && r != [] && PartsOk(d) && PartsOk(r)
    ensures HasPrefix(JoinWith(r, '/'), JoinWith(d, '/') + "/") <==> StrictlyBelow(d, r)
  {
    var ds, rs := JoinWith(d, '/') + "/", JoinWith(r, '/');
    var dRest := if |d| == 1 then "" else JoinWith(d[1..], '/') + "/";
    assert ds == d[0] + "/" + dRest;
    assert '/' !in d[0] && '/' !in r[0];
    assert d[0] in d && r[0] in r;
    if |r| == 1 {
      PrefixHoldsSeparator(d[0], dRest, r[0]);
    } else {
      var rRest := JoinWith(r[1..], '/');
      assert rs == r[0] + "/" + rRest;
      assert HasPrefix(rs, ds) <==> d[0] == r[0] && HasPrefix(rRest, dRest) by {
        if HasPrefix(rs, ds) {
          FirstPart(d[0], dRest, r[0], rRest);
        }
        if d[0] == r[0] && HasPrefix(rRest, dRest) {
          assert rs[..|ds|] == r[0] + "/" + rRest[..|dRest|];
        }
      }
      if |d| > 1 {
        assert PartsOk(d[1..]) && PartsOk(r[1..]) by {
          assert forall p | p in d[1..] :: p in d;
          assert forall p | p in r[1..] :: p in r;
        }
        JoinedPrefixIff(d[1..], r[1..]);
        assert |d| < |r| ==> r[..|d|] == [r[0]] + r[1..][..|d| - 1];
        assert d == [d[0]] + d[1..];
      } else {
        assert r[..1] == [r[0]];
      }
    }
  }

  lemma RenderedPrefixIff(rooted: bool, d: seq<string>, r: seq<string>)
    requires d != [] && PartsOk(d) && PartsOk(r)
    ensures HasPrefix(Render(Path(rooted, r)), Render(Path(rooted, d)) + "/") <==> StrictlyBelow(d, r)
  {
    if r == [] {
      assert |JoinWith(d, '/')| >= 1 by {
        assert d[0] in d;
      }
    } else {
      JoinedPrefixIff(d, r);
      if rooted {
        var ds, rs := JoinWith(d, '/') + "/", JoinWith(r, '/');
        assert Render(Path(true, d)) + "/" == "/" + ds;
        assert |ds| <= |rs| ==> ("/" + rs)[..|ds| + 1] == "/" + rs[..|ds|];
        assert ("/" + ds)[1..] == ds;
        assert |ds| <= |rs| ==> ("/" + rs[..|ds|])[1..] == rs[..|ds|];
      } else {
        assert Render(Path(false, d)) == JoinWith(d, '/') && Render(Path(false, r)) == JoinWith(r, '/');
      }
    }
  }

  /**
    The guard of the extraction accepts an entry exactly when resolving its name's components
    from the destination ends strictly below the destination, for every destination with at
    least one component.
   */
  lemma AcceptsIff(dest: string, name: string)
    requires Parse(dest).parts != []
    ensures Accepts(dest, name) <==>
            StrictlyBelow(Parse(dest).parts, Resolve(Rooted(dest), Parse(dest).parts, SplitOn(name, '/')))
  {
    var d := Parse(dest);
    EmptyPathHasNoParts();
    var r := Resolve(d.rooted, d.parts, SplitOn(name, '/'));
    SplitPiecesPlain(dest, '/');
    SplitPiecesPlain(name, '/');
    ResolvePartsOk(d.rooted, [], SplitOn(dest, '/'));
    ResolvePartsOk(d.rooted, d.parts, SplitOn(name, '/'));
    JoinResolves(dest, name);
    RenderedPrefixIff(d.rooted, d.parts, r);
  }

  /** A destination that is the root or the working directory itself accepts nothing at all. */
  lemma BareDestinationAcceptsNothing(dest: string, name: string)
    requires Parse(dest).parts == []
    ensures !Accepts(dest, name)
  {
    var rooted := if dest == "" then Rooted(name) else Rooted(dest);
    var r := Resolve(rooted, [], SplitOn(name, '/'));
    SplitPiecesPlain(name, '/');
    ResolvePartsOk(rooted, [], SplitOn(name, '/'));
    if dest == "" {
      assert Join(dest, name) == if name == "" then "" else Render(Path(rooted, r));
    } else {
      JoinResolves(dest, name);
    }
    BarePrefixOf(Rooted(dest), rooted, r);
  }

  /** Neither the root nor the dot, with a separator behind it, begins a cleaned path. */
  lemma BarePrefixOf(root: bool, rooted: bool, r: seq<string>)
    requires PartsOk(r) && (root ==> rooted)
    ensures !HasPrefix(Render(Path(rooted, r)), (if root then "/" else ".") + "/")
  {
    if r != [] {
      NoDotStart(r);
    }
    if root {
      assert "/" + "/" == "//";
      assert r != [] ==> Render(Path(true, r))[1] == JoinWith(r, '/')[0];
      assert forall s: string | HasPrefix(s, "//") :: s[1] == s[..2][1] == '/';
    } else {
      assert "." + "/" == "./";
      DotPrefix(Render(Path(rooted, r)));
    }
  }

  /** Joined components start with neither a separator nor a lone dot. */
  lemma NoDotStart(r: seq<string>)
    requires r != [] && PartsOk(r)
    ensures JoinWith(r, '/') != "" && JoinWith(r, '/')[0] != '/' && !HasPrefix(JoinWith(r, '/'), "./")
  {
    var s := JoinWith(r, '/');
    assert r[0] in r && r[0][0] in r[0];
    DotPrefix(s);
    if |r[0]| > 1 {
      assert s[1] == r[0][1] && r[0][1] in r[0];
    } else {
      assert r[0] == [s[0]];
    }
  }

  lemma EmptyPathHasNoParts()
    ensures Parse("").parts == []
  {
    assert SplitOn("", '/') == [""];
    assert Resolve(false, [], [""]) == Resolve(false, Enter(false, [], ""), [""][1..]) == [];
  }

  /** Components climb only at their front, and not at all from the root. */
  predicate ClimbsFirst(rooted: bool, parts: seq<string>) {
    && (rooted ==> ".." !in parts)
    && forall i, j | 0 <= i < j < |parts| && parts[j] == ".." :: parts[i] == ".."
  }

  lemma EnterClimbsFirst(rooted: bool, at: seq<string>, part: string)
    requires ClimbsFirst(rooted, at)
    ensures ClimbsFirst(rooted, Enter(rooted, at, part))
  {
    var post := Enter(rooted, at, part);
    assert forall i | 0 <= i < |at| && i < |post| :: post[i] == at[i] && at[i] in at;
  }

  lemma {:induction false} ResolveClimbsFirst(rooted: bool, at: seq<string>, parts: seq<string>)
    requires ClimbsFirst(rooted, at)
    ensures ClimbsFirst(rooted, Resolve(rooted, at, parts))
    decreases |parts|
  {
    if parts != [] {
      EnterClimbsFirst(rooted, at, parts[0]);
      ResolveClimbsFirst(rooted, Enter(rooted, at, parts[0]), parts[1..]);
    }
  }

  lemma PrefixAndRest(d: seq<string>, r: seq<string>)
    requires StrictlyBelow(d, r)
    ensures |d| <= |r| && d + r[|d|..] == r
  {
    assert r[..|d|] + r[|d|..] == r;
  }

  /** The components that an accepted name adds to the destination's when it is resolved from there. */
  function Beyond(dest: string, name: string): (more: seq<string>)
    requires Parse(dest).parts != [] && Accepts(dest, name)
    ensures Parse(dest).parts + more == Resolve(Rooted(dest), Parse(dest).parts, SplitOn(name, '/'))
  {
    AcceptsIff(dest, name);
    var d := Parse(dest).parts;
    var r := Resolve(Rooted(dest), d, SplitOn(name, '/'));
    PrefixAndRest(d, r);
    r[|d|..]
  }

  lemma BeyondStaysInside(dest: string, name: string)
    requires Parse(dest).parts != [] && Accepts(dest, name)
    requires Parse(dest).parts[|Parse(dest).parts| - 1] != ".."
    ensures ".." !in Beyond(dest, name)
  {
    var d := Parse(dest).parts;
    var r := Resolve(Rooted(dest), d, SplitOn(name, '/'));
    AcceptsIff(dest, name);
    ResolveClimbsFirst(Rooted(dest), [], SplitOn(dest, '/'));
    ResolveClimbsFirst(Rooted(dest), d, SplitOn(name, '/'));
    assert r[|d| - 1] == r[..|d|][|d| - 1] == d[|d| - 1];
    assert forall j | |d| <= j < |r| :: r[j] != "..";
  }

  lemma ClimbingAcceptsClimb(dest: string)
    requires Parse(dest).parts != [] && Parse(dest).parts[|Parse(dest).parts| - 1] == ".."
    ensures Accepts(dest, "..") && ".." in Beyond(dest, "..")
  {
    var d := Parse(dest).parts;
    ResolveClimbsFirst(Rooted(dest), [], SplitOn(dest, '/'));
    assert d[|d| - 1] in d;
    assert SplitOn("..", '/') == [".."] && [".."][1..] == [];
    assert Resolve(Rooted(dest), d, [".."]) == Enter(Rooted(dest), d, "..") == d + [".."];
    assert (d + [".."])[..|d|] == d;
    AcceptsIff(dest, "..");
    assert Beyond(dest, "..") == [".."];
  }

  /**
    The guard keeps every accepted name inside the destination, never climbing out of it again,
    if and only if the cleaned destination does not itself end in a climb.
   */
  lemma GuardKeepsInsideIff(dest: string)
    requires Parse(dest).parts != []
    ensures (forall name | Accepts(dest, name) :: ".." !in Beyond(dest, name)) <==>
            Parse(dest).parts[|Parse(dest).parts| - 1] != ".."
  {
    if Parse(dest).parts[|Parse(dest).parts| - 1] != ".." {
      forall name | Accepts(dest, name) ensures ".." !in Beyond(dest, name) {
        BeyondStaysInside(dest, name);
      }
    } else {
      ClimbingAcceptsClimb(dest);
    }
  }

  /** What a file can be called: a component that does not resolve to anything else. */
  predicate NameOk(name: string) {
    name != "" && name != "." && name != ".." && '/' !in name
  }

  predicate NamesOk(names: seq<string>) {
    forall i | 0 <= i < |names| :: NameOk(names[i])
  }

  lemma {:induction false} ResolveNames(rooted: bool, at: seq<string>, names: seq<string>)
    requires NamesOk(names)
    ensures Resolve(rooted, at, names) == at + names
    decreases |names|
  {
    if names != [] {
      assert NamesOk(names[1..]);
      assert at + [names[0]] + names[1..] == at + names;
      ResolveNames(rooted, at + [names[0]], names[1..]);
    }
  }

  /** Joining the path of an existing file below the destination resolves to that path, and is accepted. */
  lemma NamesResolveBelow(dest: string, names: seq<string>)
    requires Parse(dest).parts != [] && NamesOk(names) && names != []
    ensures Accepts(dest, JoinWith(names, '/'))
    ensures Resolve(Rooted(dest), Parse(dest).parts, SplitOn(JoinWith(names, '/'), '/')) == Parse(dest).parts + names
  {
    SplitUndoesJoin(names, '/');
    ResolveNames(Rooted(dest), Parse(dest).parts, names);
    AcceptsIff(dest, JoinWith(names, '/'));
    assert (Parse(dest).parts + names)[..|Parse(dest).parts|] == Parse(dest).parts;
  }

  // ---------------------------------------------------------------- what dots do

  lemma ResolveOne(rooted: bool, at: seq<string>, part: string)
    ensures Resolve(rooted, at, [part]) == Enter(rooted, at, part)
  {
    assert [part][1..] == [];
  }

  /** A double dot takes the name before it back; an empty component and a dot change nothing. */
  lemma DotsResolve(rooted: bool, at: seq<string>, names: seq<string>, n: string)
    requires NameOk(n)
    ensures Resolve(rooted, at, names + [n, ".."]) == Resolve(rooted, at, names)
    ensures Resolve(rooted, at, names + [n]) == Resolve(rooted, at, names) + [n]
    ensures Resolve(rooted, at, names + ["."]) == Resolve(rooted, at, names + [""]) == Resolve(rooted, at, names)
  {
    var r := Resolve(rooted, at, names);
    ResolveConcat(rooted, at, names, [n]);
    ResolveConcat(rooted, at, names + [n], [".."]);
    ResolveConcat(rooted, at, names, ["."]);
    ResolveConcat(rooted, at, names, [""]);
    ResolveOne(rooted, r, n);
    ResolveOne(rooted, r + [n], "..");
    ResolveOne(rooted, r, ".");
    ResolveOne(rooted, r, "");
    assert names + [n] + [".."] == names + [n, ".."];
    assert (r + [n])[..|r|] == r;
  }

  /** At the root a double dot stays there; from a relative path it climbs, once more for each further one. */
  lemma ClimbsAtTheTop(names: seq<string>)
    ensures Resolve(true, [], names) == [] ==> Resolve(true, [], names + [".."]) == []
    ensures Resolve(false, [], names) == [] ==> Resolve(false, [], names + [".."]) == [".."]
    ensures Resolve(false, [], names) == [".."] ==> Resolve(false, [], names + [".."]) == ["..", ".."]
  {
    ResolveConcat(true, [], names, [".."]);
    ResolveConcat(false, [], names, [".."]);
    ResolveOne(true, Resolve(true, [], names), "..");
    ResolveOne(false, Resolve(false, [], names), "..");
  }
}
