/**
  The walk that writes a backup archive: it steers itself around the backup directory and the
  ignored paths by skipping directories. The meaning of one pattern, filepath.Match, is a
  parameter; everything below holds whatever it is.
 */
module Backup {
  import opened Common
  import opened JsText
  import opened Paths
  import opened Archive

  type Matcher = (string, string) -> bool

  /** The path relative to the data directory, which itself is a dot. */
  function RelPath(path: seq<string>): string {
    if path == [] then "." else JoinWith(path, '/')
  }

  /** filepath.Base of a relative path. */
  function Base(path: seq<string>): string {
    if path == [] then "." else path[|path| - 1]
  }

  const BACKUPS := ".backups"

  predicate MatchesAny(glob: Matcher, patterns: seq<string>, path: seq<string>) {
    exists i | 0 <= i < |patterns| :: glob(patterns[i], RelPath(path)) || glob(patterns[i], Base(path))
  }

  /** What the callback skips when it comes to it. */
  predicate Ignored(glob: Matcher, patterns: seq<string>, path: seq<string>) {
    RelPath(path) == BACKUPS || HasPrefix(RelPath(path), BACKUPS + "/") || MatchesAny(glob, patterns, path)
  }

  /** The reference: no prefix of the path, the data directory and the path itself included, is ignored. */
  predicate Kept(glob: Matcher, patterns: seq<string>, path: seq<string>) {
    forall k | 0 <= k <= |path| :: !Ignored(glob, patterns, path[..k])
  }

  /** One archive entry: a directory's name ends in a slash. */
  datatype ZipEntry = ZipEntry(path: seq<string>, name: string, kind: Kind)

  function ZipOf(path: seq<string>, t: Tree): ZipEntry {
    ZipEntry(path, RelPath(path) + (if t.Dir? then "/" else ""), if t.File? then RegEntry(t.content) else DirEntry)
  }

  /** The unpruned walk: every file and directory, the data directory first. */
  function Walked(path: seq<string>, t: Tree): seq<ZipEntry>
    decreases t
  {
    [ZipOf(path, t)] + if t.Dir? then WalkedAll(path, t.kids) else []
  }

  function WalkedAll(path: seq<string>, kids: Forest): seq<ZipEntry>
    decreases kids
  {
    if kids.Nothing? then [] else Walked(path + [kids.name], kids.tree) + WalkedAll(path, kids.rest)
  }

  /** The pruned walk: an ignored directory is not entered. */
  function Pruned(glob: Matcher, patterns: seq<string>, path: seq<string>, t: Tree): seq<ZipEntry>
    decreases t
  {
    if Ignored(glob, patterns, path) then []
    else [ZipOf(path, t)] + if t.Dir? then PrunedAll(glob, patterns, path, t.kids) else []
  }

  function PrunedAll(glob: Matcher, patterns: seq<string>, path: seq<string>, kids: Forest): seq<ZipEntry>
    decreases kids
  {
    if kids.Nothing? then []
    else Pruned(glob, patterns, path + [kids.name], kids.tree) + PrunedAll(glob, patterns, path, kids.rest)
  }

  function KeptOnly(glob: Matcher, patterns: seq<string>, entries: seq<ZipEntry>): seq<ZipEntry> {
    if entries == [] then []
    else (if Kept(glob, patterns, entries[0].path) then [entries[0]] else []) + KeptOnly(glob, patterns, entries[1..])
  }

  // ---------------------------------------------------------------- the walk as it runs

  datatype Verdict = Continue | SkipDir

  class BackupJob {
    const glob: Matcher
    const patterns: seq<string>
    var zip: seq<ZipEntry>

    constructor (glob: Matcher, patterns: seq<string>)
      ensures this.glob == glob && this.patterns == patterns && zip == []
    {
      this.glob, this.patterns, zip := glob, patterns, [];
    }

    /** The callback on one file or directory. */
    method Visit(path: seq<string>, t: Tree) returns (verdict: Verdict)
      modifies this`zip
      ensures zip == old(zip) + if Ignored(glob, patterns, path) then [] else [ZipOf(path, t)]
      ensures verdict == if Ignored(glob, patterns, path) && t.Dir? then SkipDir else Continue
    {
      var relPath := RelPath(path);
      if relPath == BACKUPS || HasPrefix(relPath, BACKUPS + "/") {
        return if t.Dir? then SkipDir else Continue;
      }
      for i := 0 to |patterns|
        invariant forall j | 0 <= j < i :: !glob(patterns[j], relPath) && !glob(patterns[j], Base(path))
        invariant zip == old(zip)
      {
        if glob(patterns[i], relPath) || glob(patterns[i], Base(path)) {
          return if t.Dir? then SkipDir else Continue;
        }
      }
      assert !MatchesAny(glob, patterns, path);
      assert relPath + "" == relPath;
      var entry := relPath;
      if t.Dir? {
        entry := entry + "/";
      }
      zip := zip + [ZipEntry(path, entry, if t.File? then RegEntry(t.content) else DirEntry)];
      return Continue;
    }

    /** filepath.Walk: a directory is entered unless its visit said otherwise. */
    method Walk(path: seq<string>, t: Tree)
      modifies this`zip
      ensures zip == old(zip) + Pruned(glob, patterns, path, t)
      decreases t
    {
      var verdict := Visit(path, t);
      if t.Dir? && verdict == Continue {
        WalkList(path, t.kids);
      }
    }

    method WalkList(path: seq<string>, kids: Forest)
      modifies this`zip
      ensures zip == old(zip) + PrunedAll(glob, patterns, path, kids)
      decreases kids
    {
      var rest := kids;
      while rest.Kid?
        invariant rest == kids || rest < kids
        invariant zip + PrunedAll(glob, patterns, path, rest) == old(zip) + PrunedAll(glob, patterns, path, kids)
        decreases rest
      {
        ConcatAssociative(zip, Pruned(glob, patterns, path + [rest.name], rest.tree), PrunedAll(glob, patterns, path, rest.rest));
        Walk(path + [rest.name], rest.tree);
        rest := rest.rest;
      }
    }

    /** The archive of a whole data directory. */
    method Run(data: Tree)
      requires data.Dir?
      modifies this`zip
      ensures zip == KeptOnly(glob, patterns, Walked([], data))
      ensures TreeOk(data) ==>
                forall p | NamesOk(p) :: HasPath(zip, p) <==> Find(data, p).Some? && ComponentsFree(glob, patterns, p)
      ensures TreeOk(data) ==> forall e | e in zip :: Holds(e, Find(data, e.path))
    {
      zip := [];
      Walk([], data);
      PrunedIsKept(glob, patterns, [], data);
      ArchivedOf(glob, patterns, data);
    }
  }

  // ---------------------------------------------------------------- pruning is filtering

  lemma {:induction false} KeptOnlyConcat(glob: Matcher, patterns: seq<string>, a: seq<ZipEntry>, b: seq<ZipEntry>)
    ensures KeptOnly(glob, patterns, a + b) == KeptOnly(glob, patterns, a) + KeptOnly(glob, patterns, b)
  {
    if a == [] {
      assert a + b == b;
    } else {
      assert (a + b)[0] == a[0] && (a + b)[1..] == a[1..] + b;
      KeptOnlyConcat(glob, patterns, a[1..], b);
      ConcatAssociative(if Kept(glob, patterns, a[0].path) then [a[0]] else [],
                        KeptOnly(glob, patterns, a[1..]), KeptOnly(glob, patterns, b));
    }
  }

  lemma KeptOneMore(glob: Matcher, patterns: seq<string>, path: seq<string>, name: string)
    ensures Kept(glob, patterns, path + [name]) <==>
            Kept(glob, patterns, path) && !Ignored(glob, patterns, path + [name])
  {
    var longer := path + [name];
    assert longer[..|longer|] == longer;
    assert forall k | 0 <= k <= |path| :: longer[..k] == path[..k];
    if Kept(glob, patterns, longer) {
      forall k | 0 <= k <= |path| ensures !Ignored(glob, patterns, path[..k]) {
        assert longer[..k] == path[..k];
      }
    }
  }

  /** Nothing below a path that is not kept is kept. */
  lemma {:induction false} NothingKeptBelow(glob: Matcher, patterns: seq<string>, path: seq<string>, t: Tree)
    requires !Kept(glob, patterns, path)
    ensures KeptOnly(glob, patterns, Walked(path, t)) == []
    decreases t
  {
    assert Walked(path, t)[1..] == if t.Dir? then WalkedAll(path, t.kids) else [];
    if t.Dir? {
      NothingKeptAmong(glob, patterns, path, t.kids);
    }
  }

  lemma {:induction false} NothingKeptAmong(glob: Matcher, patterns: seq<string>, path: seq<string>, kids: Forest)
    requires !Kept(glob, patterns, path)
    ensures KeptOnly(glob, patterns, WalkedAll(path, kids)) == []
    decreases kids
  {
    if kids.Kid? {
      KeptOneMore(glob, patterns, path, kids.name);
      NothingKeptBelow(glob, patterns, path + [kids.name], kids.tree);
      NothingKeptAmong(glob, patterns, path, kids.rest);
      KeptOnlyConcat(glob, patterns, Walked(path + [kids.name], kids.tree), WalkedAll(path, kids.rest));
    }
  }

  /**
    Where no proper prefix is ignored, the pruned walk is the unpruned walk without the entries
    that have an ignored prefix, in the same order.
   */
  lemma {:induction false} PrunedIsKept(glob: Matcher, patterns: seq<string>, path: seq<string>, t: Tree)
    requires path == [] || Kept(glob, patterns, path[..|path| - 1])
    ensures Pruned(glob, patterns, path, t) == KeptOnly(glob, patterns, Walked(path, t))
    decreases t
  {
    if path == [] {
      assert path[..0] == path;
      assert Kept(glob, patterns, path) <==> !Ignored(glob, patterns, path);
    } else {
      assert path == path[..|path| - 1] + [path[|path| - 1]];
      KeptOneMore(glob, patterns, path[..|path| - 1], path[|path| - 1]);
    }
    if Ignored(glob, patterns, path) {
      NothingKeptBelow(glob, patterns, path, t);
    } else {
      assert Walked(path, t)[1..] == if t.Dir? then WalkedAll(path, t.kids) else [];
      if t.Dir? {
        PrunedAllIsKept(glob, patterns, path, t.kids);
      }
    }
  }

  lemma {:induction false} PrunedAllIsKept(glob: Matcher, patterns: seq<string>, path: seq<string>, kids: Forest)
    requires Kept(glob, patterns, path)
    ensures PrunedAll(glob, patterns, path, kids) == KeptOnly(glob, patterns, WalkedAll(path, kids))
    decreases kids
  {
    if kids.Kid? {
      assert (path + [kids.name])[..|path|] == path;
      PrunedIsKept(glob, patterns, path + [kids.name], kids.tree);
      PrunedAllIsKept(glob, patterns, path, kids.rest);
      KeptOnlyConcat(glob, patterns, Walked(path + [kids.name], kids.tree), WalkedAll(path, kids.rest));
    }
  }

  // ---------------------------------------------------------------- which paths are archived

  predicate HasPath(entries: seq<ZipEntry>, p: seq<string>) {
    exists i | 0 <= i < |entries| :: entries[i].path == p
  }

  lemma HasPathConcat(a: seq<ZipEntry>, b: seq<ZipEntry>, p: seq<string>)
    ensures HasPath(a + b, p) <==> HasPath(a, p) || HasPath(b, p)
  {
    if HasPath(a, p) {
      var i :| 0 <= i < |a| && a[i].path == p;
      assert (a + b)[i].path == p;
    }
    if HasPath(b, p) {
      var i :| 0 <= i < |b| && b[i].path == p;
      assert (a + b)[|a| + i].path == p;
    }
  }

  lemma {:induction false} KeptOnlyPaths(glob: Matcher, patterns: seq<string>, entries: seq<ZipEntry>, p: seq<string>)
    ensures HasPath(KeptOnly(glob, patterns, entries), p) <==> HasPath(entries, p) && Kept(glob, patterns, p)
  {
    if entries != [] {
      KeptOnlyPaths(glob, patterns, entries[1..], p);
      assert entries == [entries[0]] + entries[1..];
      HasPathConcat([entries[0]], entries[1..], p);
      HasPathConcat(if Kept(glob, patterns, entries[0].path) then [entries[0]] else [],
                    KeptOnly(glob, patterns, entries[1..]), p);
      assert HasPath([entries[0]], p) <==> [entries[0]][0].path == p;
    }
  }

  /** The unpruned walk comes to exactly the paths that exist in the tree. */
  lemma {:induction false} WalkedPaths(path: seq<string>, t: Tree, p: seq<string>)
    requires TreeOk(t)
    ensures HasPath(Walked(path, t), p) <==> path <= p && Find(t, p[|path|..]).Some?
    decreases t
  {
    var below := if t.Dir? then WalkedAll(path, t.kids) else [];
    HasPathConcat([ZipOf(path, t)], below, p);
    assert HasPath([ZipOf(path, t)], p) <==> [ZipOf(path, t)][0].path == p;
    if t.Dir? {
      WalkedAllPaths(path, t.kids, p);
    }
    if path <= p {
      assert p == path <==> p[|path|..] == [];
    }
  }

  lemma {:induction false} WalkedAllPaths(path: seq<string>, kids: Forest, p: seq<string>)
    requires ForestOk(kids)
    ensures HasPath(WalkedAll(path, kids), p) <==> path <= p && p != path && FindIn(kids, p[|path|..]).Some?
    decreases kids
  {
    if kids.Kid? {
      var here := path + [kids.name];
      HasPathConcat(Walked(here, kids.tree), WalkedAll(path, kids.rest), p);
      WalkedPaths(here, kids.tree, p);
      WalkedAllPaths(path, kids.rest, p);
      PrefixOfKid(path, kids.name, p);
      if path <= p && p != path {
        NotListedNotFound(kids.rest, p[|path|..]);
        if here <= p {
          assert p[|here|..] == p[|path|..][1..];
        }
      }
    }
  }

  lemma {:induction false} NotListedNotFound(kids: Forest, q: seq<string>)
    requires q != []
    ensures FindIn(kids, q).Some? ==> Lists(kids, q[0])
    decreases kids
  {
    if kids.Kid? {
      NotListedNotFound(kids.rest, q);
    }
  }

  /** A backup holds exactly the existing paths none of whose prefixes is ignored. */
  lemma ArchivedIff(glob: Matcher, patterns: seq<string>, data: Tree, p: seq<string>)
    requires data.Dir? && TreeOk(data)
    ensures HasPath(Pruned(glob, patterns, [], data), p) <==> Find(data, p).Some? && Kept(glob, patterns, p)
  {
    PrunedIsKept(glob, patterns, [], data);
    KeptOnlyPaths(glob, patterns, Walked([], data), p);
    WalkedPaths([], data, p);
    assert p[0..] == p;
  }

  /** The archive is empty if and only if the data directory itself, as ".", is ignored. */
  lemma EmptyArchiveIff(glob: Matcher, patterns: seq<string>, data: Tree)
    requires data.Dir?
    ensures Pruned(glob, patterns, [], data) == [] <==>
            exists i | 0 <= i < |patterns| :: glob(patterns[i], ".")
  {
    assert RelPath([]) == "." && Base([]) == ".";
    assert ".backups/"[1] == 'b';
  }

  /** Without patterns only the backup directory is left out, and names that merely start like it are kept. */
  lemma NoPatternsKeepIff(glob: Matcher, p: seq<string>)
    requires NamesOk(p)
    ensures Kept(glob, [], p) <==> p == [] || p[0] != BACKUPS
  {
    forall k | 0 <= k <= |p|
      ensures Ignored(glob, [], p[..k]) <==> k > 0 && p[0] == BACKUPS
    {
      NoPatternsIgnoreIff(glob, p[..k]);
    }
    if p != [] {
      assert p[..|p|] == p;
    }
  }

  lemma NoPatternsIgnoreIff(glob: Matcher, p: seq<string>)
    requires NamesOk(p)
    ensures Ignored(glob, [], p) <==> p != [] && p[0] == BACKUPS
  {
    assert BACKUPS + "/" + "" == BACKUPS + "/";
    if |p| == 1 {
      PrefixHoldsSeparator(BACKUPS, "", p[0]);
    } else if |p| > 1 {
      var more := JoinWith(p[1..], '/');
      assert RelPath(p) == p[0] + "/" + more;
      assert '/' in RelPath(p) by {
        assert RelPath(p)[|p[0]|] == '/';
      }
      if HasPrefix(RelPath(p), BACKUPS + "/") {
        FirstPart(BACKUPS, "", p[0], more);
      }
    }
  }

  // ---------------------------------------------------------------- read off the components

  /** Some pattern matches the text. */
  predicate Hit(glob: Matcher, patterns: seq<string>, text: string) {
    exists i | 0 <= i < |patterns| :: glob(patterns[i], text)
  }

  lemma MatchesIff(glob: Matcher, patterns: seq<string>, p: seq<string>)
    ensures MatchesAny(glob, patterns, p) <==>
            if p == [] then Hit(glob, patterns, ".") else Hit(glob, patterns, JoinWith(p, '/')) || Hit(glob, patterns, p[|p| - 1])
  {
  }

  lemma IgnoredIff(glob: Matcher, patterns: seq<string>, p: seq<string>)
    requires NamesOk(p)
    ensures Ignored(glob, patterns, p) <==> (p != [] && p[0] == ".backups") || MatchesAny(glob, patterns, p)
  {
    NoPatternsIgnoreIff(glob, p);
    assert !MatchesAny(glob, [], p);
  }

  /** Nothing of the path's components, and no prefix of it, is what is skipped. */
  ghost predicate ComponentsFree(glob: Matcher, patterns: seq<string>, p: seq<string>) {
    && (p == [] || p[0] != ".backups")
    && !Hit(glob, patterns, ".")
    && forall k | 1 <= k <= |p| :: !Hit(glob, patterns, p[k - 1]) && !Hit(glob, patterns, JoinWith(p[..k], '/'))
  }

  lemma IgnoredAt(glob: Matcher, patterns: seq<string>, p: seq<string>, k: nat, q: seq<string>)
    requires NamesOk(p) && k <= |p| && q == p[..k]
    ensures Ignored(glob, patterns, q) <==>
            if k == 0 then Hit(glob, patterns, ".")
            else p[0] == ".backups" || Hit(glob, patterns, p[k - 1]) || Hit(glob, patterns, JoinWith(q, '/'))
  {
    IgnoredIff(glob, patterns, q);
    MatchesIff(glob, patterns, q);
  }

  lemma KeptByComponents(glob: Matcher, patterns: seq<string>, p: seq<string>)
    requires NamesOk(p)
    ensures Kept(glob, patterns, p) <==> ComponentsFree(glob, patterns, p)
  {
    IgnoredAt(glob, patterns, p, 0, p[..0]);
    if Kept(glob, patterns, p) {
      forall k | 1 <= k <= |p|
        ensures !Hit(glob, patterns, p[k - 1]) && !Hit(glob, patterns, JoinWith(p[..k], '/'))
      {
        IgnoredAt(glob, patterns, p, k, p[..k]);
      }
      if p != [] {
        IgnoredAt(glob, patterns, p, 1, p[..1]);
      }
    } else {
      var k :| 0 <= k <= |p| && Ignored(glob, patterns, p[..k]);
      IgnoredAt(glob, patterns, p, k, p[..k]);
    }
  }

  /**
    Which paths a backup holds, from their components alone: what exists, is not in the backup
    directory, and has no pattern that matches the dot, the last name of one of its prefixes, or
    such a prefix in full.
   */
  lemma ArchivedByComponents(glob: Matcher, patterns: seq<string>, data: Tree, p: seq<string>)
    requires data.Dir? && TreeOk(data) && NamesOk(p)
    ensures HasPath(KeptOnly(glob, patterns, Walked([], data)), p) <==>
            Find(data, p).Some? && ComponentsFree(glob, patterns, p)
  {
    PrunedIsKept(glob, patterns, [], data);
    ArchivedIff(glob, patterns, data, p);
    KeptByComponents(glob, patterns, p);
  }

  // ---------------------------------------------------------------- what the entries hold

  /** An entry of what is at its path: the file's content under its slash-separated path, or a directory's name with a slash. */
  predicate Holds(e: ZipEntry, found: Option<Node>) {
    var text := if e.path == [] then "." else JoinWith(e.path, '/');
    && found.Some?
    && match found.value
       case FileNode(content) => e.kind == RegEntry(content) && e.name == text
       case DirNode => e.kind == DirEntry && e.name == text + "/"
  }

  lemma {:induction false} WalkedHolds(path: seq<string>, t: Tree, i: nat, e: ZipEntry)
    requires TreeOk(t) && i < |Walked(path, t)| && e == Walked(path, t)[i]
    ensures path <= e.path && Holds(e, Find(t, e.path[|path|..]))
    decreases t
  {
    var below := if t.Dir? then WalkedAll(path, t.kids) else [];
    assert Walked(path, t) == [ZipOf(path, t)] + below;
    if i == 0 {
      assert e.path == path && path[|path|..] == [];
    } else {
      WalkedAllHolds(path, t.kids, i - 1, e);
    }
  }

  lemma {:induction false} WalkedAllHolds(path: seq<string>, kids: Forest, i: nat, e: ZipEntry)
    requires ForestOk(kids) && i < |WalkedAll(path, kids)| && e == WalkedAll(path, kids)[i]
    ensures path <= e.path && e.path != path && Holds(e, FindIn(kids, e.path[|path|..]))
    decreases kids
  {
    var here := path + [kids.name];
    var first := Walked(here, kids.tree);
    assert WalkedAll(path, kids) == first + WalkedAll(path, kids.rest);
    if i < |first| {
      WalkedHolds(here, kids.tree, i, e);
      PrefixOfKid(path, kids.name, e.path);
      assert e.path[|here|..] == e.path[|path|..][1..];
    } else {
      WalkedAllHolds(path, kids.rest, i - |first|, e);
      NotListedNotFound(kids.rest, e.path[|path|..]);
    }
  }

  lemma {:induction false} KeptOnlyFrom(glob: Matcher, patterns: seq<string>, entries: seq<ZipEntry>, e: ZipEntry)
    requires e in KeptOnly(glob, patterns, entries)
    ensures e in entries
  {
    if !(Kept(glob, patterns, entries[0].path) && e == entries[0]) {
      KeptOnlyFrom(glob, patterns, entries[1..], e);
    }
  }

  /** Every entry of a backup holds what is at its path, the file's content included. */
  lemma ArchivedContent(glob: Matcher, patterns: seq<string>, data: Tree, e: ZipEntry)
    requires data.Dir? && TreeOk(data) && e in KeptOnly(glob, patterns, Walked([], data))
    ensures Holds(e, Find(data, e.path))
  {
    KeptOnlyFrom(glob, patterns, Walked([], data), e);
    var i :| 0 <= i < |Walked([], data)| && Walked([], data)[i] == e;
    WalkedHolds([], data, i, e);
    assert e.path[0..] == e.path;
  }

  lemma ArchivedOf(glob: Matcher, patterns: seq<string>, data: Tree)
    requires data.Dir?
    ensures var zip := KeptOnly(glob, patterns, Walked([], data));
            TreeOk(data) ==>
              && (forall p | NamesOk(p) :: HasPath(zip, p) <==> Find(data, p).Some? && ComponentsFree(glob, patterns, p))
              && (forall e | e in zip :: Holds(e, Find(data, e.path)))
  {
    var zip := KeptOnly(glob, patterns, Walked([], data));
    if TreeOk(data) {
      forall p | NamesOk(p)
        ensures HasPath(zip, p) <==> Find(data, p).Some? && ComponentsFree(glob, patterns, p)
      {
        ArchivedByComponents(glob, patterns, data, p);
      }
      forall e | e in zip ensures Holds(e, Find(data, e.path)) {
        ArchivedContent(glob, patterns, data, e);
      }
    }
  }
}
