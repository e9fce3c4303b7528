/**
  Moving a server's directory: the walk that writes a tar archive, the extraction that guards
  every name and writes files, and the size that the agent reports for a directory.
 */
module Archive {
  import opened Common
  import opened JsText
  import opened Paths

  type Byte = b: int | 0 <= b < 256

  /** A directory tree of directories and regular files; a listing is in the order of ReadDir. */
  datatype Tree = File(content: seq<Byte>) | Dir(kids: Forest)
  datatype Forest = Nothing | Kid(name: string, tree: Tree, rest: Forest)

  /** Listed names are real file names and differ from each other. */
  predicate TreeOk(t: Tree) {
    t.Dir? ==> ForestOk(t.kids)
  }

  predicate ForestOk(kids: Forest) {
    kids.Kid? ==> NameOk(kids.name) && !Lists(kids.rest, kids.name) && TreeOk(kids.tree) && ForestOk(kids.rest)
  }

  predicate Lists(kids: Forest, name: string) {
    kids.Kid? && (kids.name == name || Lists(kids.rest, name))
  }

  /** The entry types that extraction acts on; any other type is read past. */
  datatype Kind = DirEntry | RegEntry(content: seq<Byte>) | OtherEntry
  datatype TarEntry = TarEntry(name: string, kind: Kind)

  function EntryOf(path: seq<string>, t: Tree): TarEntry
    requires path != []
  {
    TarEntry(JoinWith(path, '/'), if t.File? then RegEntry(t.content) else DirEntry)
  }

  /** filepath.Walk order: a directory before what is in it, siblings as listed. */
  function Entries(path: seq<string>, t: Tree): seq<TarEntry>
    requires path != []
    decreases t
  {
    [EntryOf(path, t)] + if t.Dir? then EntriesOf(path, t.kids) else []
  }

  function EntriesOf(path: seq<string>, kids: Forest): seq<TarEntry>
    decreases kids
  {
    if kids.Nothing? then [] else Entries(path + [kids.name], kids.tree) + EntriesOf(path, kids.rest)
  }

  // ---------------------------------------------------------------- the file system

  datatype Node = DirNode | FileNode(content: seq<Byte>)

  /** What exists, by the components of its path; the empty path is always a directory. */
  type Fs = map<seq<string>, Node>

  /** os.MkdirAll: fails below a file. */
  function MkdirAll(fs: Fs, p: seq<string>): (Fs, bool) {
    if p == [] then (fs, true)
    else if p in fs then (fs, fs[p].DirNode?)
    else
      var (up, ok) := MkdirAll(fs, p[..|p| - 1]);
      if ok then (up[p := DirNode], true) else (up, false)
  }

  /** Opening with O_CREATE and without O_TRUNC, then copying: a longer old file keeps its tail. */
  function WriteFile(fs: Fs, p: seq<string>, content: seq<Byte>): (Fs, bool) {
    if p == [] || (p in fs && fs[p].DirNode?) then (fs, false)
    else
      var tail := if p in fs && |fs[p].content| > |content| then fs[p].content[|content|..] else [];
      (fs[p := FileNode(content + tail)], true)
  }

  function Target(dest: string, name: string): seq<string> {
    Resolve(Rooted(dest), Parse(dest).parts, SplitOn(name, '/'))
  }

  /** What is done for an entry whose name was accepted. */
  function Place(fs: Fs, target: seq<string>, kind: Kind): (Fs, bool) {
    if kind.DirEntry? then MkdirAll(fs, target)
    else if kind.OtherEntry? then (fs, true)
    else
      var (up, ok) := MkdirAll(fs, if target == [] then [] else target[..|target| - 1]);
      if ok then WriteFile(up, target, kind.content) else (up, false)
  }

  function ExtractOne(fs: Fs, dest: string, e: TarEntry): (Fs, bool) {
    if !Accepts(dest, e.name) then (fs, false) else Place(fs, Target(dest, e.name), e.kind)
  }

  /** Extraction stops at the first error. */
  function ExtractAll(fs: Fs, dest: string, entries: seq<TarEntry>): (Fs, bool)
    decreases |entries|
  {
    if entries == [] then (fs, true)
    else
      var (next, ok) := ExtractOne(fs, dest, entries[0]);
      if ok then ExtractAll(next, dest, entries[1..]) else (next, false)
  }

  class DataDirectory {
    var fs: Fs
    var written: seq<TarEntry>

    constructor (initial: Fs)
      ensures fs == initial && written == []
    {
      fs, written := initial, [];
    }

    /** The callback of tarGzDirectory on one file or directory, and the walk below it. */
    method WalkTree(path: seq<string>, t: Tree)
      requires path != []
      modifies this`written
      ensures written == old(written) + Entries(path, t)
      decreases t
    {
      written := written + [TarEntry(JoinWith(path, '/'), if t.File? then RegEntry(t.content) else DirEntry)];
      if t.Dir? {
        WalkList(path, t.kids);
      }
    }

    method WalkList(path: seq<string>, kids: Forest)
      modifies this`written
      ensures written == old(written) + EntriesOf(path, kids)
      decreases kids
    {
      var rest := kids;
      while rest.Kid?
        invariant rest == kids || rest < kids
        invariant written + EntriesOf(path, rest) == old(written) + EntriesOf(path, kids)
        decreases rest
      {
        ConcatAssociative(written, Entries(path + [rest.name], rest.tree), EntriesOf(path, rest.rest));
        WalkTree(path + [rest.name], rest.tree);
        rest := rest.rest;
      }
    }

    /** tarGzDirectory: the walk of the source directory without an entry for the directory itself. */
    method TarDirectory(source: Tree)
      requires source.Dir?
      modifies this`written
      ensures written == EntriesOf([], source.kids)
    {
      written := [];
      WalkList([], source.kids);
    }

    /** untarGz. */
    method Untar(dest: string, entries: seq<TarEntry>) returns (ok: bool)
      modifies this`fs
      ensures (fs, ok) == ExtractAll(old(fs), dest, entries)
      ensures var d := Parse(dest).parts;
              d != [] && IsDir(old(fs), d) ==> forall p | !StrictlyBelow(d, p) :: Lookup(fs, p) == Lookup(old(fs), p)
    {
      UntarConfined(fs, dest, entries);
      for i := 0 to |entries|
        invariant ExtractAll(fs, dest, entries[i..]) == ExtractAll(old(fs), dest, entries)
      {
        assert entries[i..][1..] == entries[i + 1..];
        var extracted := UntarEntry(dest, entries[i]);
        if !extracted {
          return false;
        }
      }
      return true;
    }

    /** One iteration of the loop of untarGz. */
    method UntarEntry(dest: string, header: TarEntry) returns (ok: bool)
      modifies this`fs
      ensures (fs, ok) == ExtractOne(old(fs), dest, header)
    {
      var target := Target(dest, header.name);
      if !Accepts(dest, header.name) {
        return false;
      }
      match header.kind {
        case DirEntry =>
          var (next, made) := MkdirAll(fs, target);
          fs := next;
          return made;
        case RegEntry(content) =>
          var (up, made) := MkdirAll(fs, if target == [] then [] else target[..|target| - 1]);
          fs := up;
          if !made { return false; }
          var (next, wrote) := WriteFile(fs, target, content);
          fs := next;
          return wrote;
        case OtherEntry => return true;
      }
    }
  }

  // ---------------------------------------------------------------- putting a tree in place

  function Put(fs: Fs, at: seq<string>, t: Tree): Fs
    decreases t
  {
    match t
    case File(content) => fs[at := FileNode(content)]
    case Dir(kids) => PutAll(fs[at := DirNode], at, kids)
  }

  function PutAll(fs: Fs, at: seq<string>, kids: Forest): Fs
    decreases kids
  {
    match kids
    case Nothing => fs
    case Kid(name, tree, rest) => PutAll(Put(fs, at + [name], tree), at, rest)
  }

  /** What is at path q inside a tree: the reference that the extraction is compared with. */
  function Find(t: Tree, q: seq<string>): Option<Node> {
    if q == [] then Some(if t.File? then FileNode(t.content) else DirNode)
    else if t.File? then None
    else FindIn(t.kids, q)
  }

  function FindIn(kids: Forest, q: seq<string>): Option<Node>
    requires q != []
  {
    if kids.Nothing? then None
    else if kids.name == q[0] then Find(kids.tree, q[1..])
    else FindIn(kids.rest, q)
  }

  /** Nothing exists at the path or below it. */
  ghost predicate Vacant(fs: Fs, at: seq<string>) {
    forall p | p in fs :: !(at <= p)
  }

  lemma PrefixOfKid(at: seq<string>, name: string, p: seq<string>)
    ensures at + [name] <= p <==> at <= p && |p| > |at| && p[|at|] == name
  {
    if at <= p && |p| > |at| && p[|at|] == name {
      assert p[..|at|] == at && p[..|at| + 1] == at + [name];
    }
  }

  /** A tree put at a vacant place is there exactly, and nothing else has changed. */
  lemma {:induction false} PutExact(fs: Fs, at: seq<string>, t: Tree, p: seq<string>)
    requires TreeOk(t) && Vacant(fs, at)
    ensures if at <= p then Lookup(Put(fs, at, t), p) == Find(t, p[|at|..])
            else Lookup(Put(fs, at, t), p) == Lookup(fs, p)
    decreases t
  {
    if t.Dir? {
      PutAllExact(fs[at := DirNode], at, t.kids, p);
      if at <= p && p != at {
        assert p[|at|..] != [];
      }
      if p == at {
        assert p[|at|..] == [];
      }
    } else if at <= p {
      assert p == at || p[|at|..] != [];
    }
  }

  function Lookup(fs: Fs, p: seq<string>): Option<Node> {
    if p in fs then Some(fs[p]) else None
  }

  lemma {:induction false} PutAllExact(fs: Fs, at: seq<string>, kids: Forest, p: seq<string>)
    requires ForestOk(kids) && forall q | q in fs :: at <= q && |q| > |at| ==> !Lists(kids, q[|at|])
    ensures if at <= p && |p| > |at| && Lists(kids, p[|at|])
            then Lookup(PutAll(fs, at, kids), p) == FindIn(kids, p[|at|..])
            else Lookup(PutAll(fs, at, kids), p) == Lookup(fs, p)
    ensures at <= p && |p| > |at| && !Lists(kids, p[|at|]) ==> FindIn(kids, p[|at|..]) == None
    decreases kids
  {
    if kids.Kid? {
      var here := at + [kids.name];
      var mid := Put(fs, here, kids.tree);
      forall q | q in fs ensures !(here <= q) {
        PrefixOfKid(at, kids.name, q);
      }
      forall q | q in mid && at <= q && |q| > |at| ensures !Lists(kids.rest, q[|at|]) {
        PutExact(fs, here, kids.tree, q);
        PrefixOfKid(at, kids.name, q);
      }
      PutExact(fs, here, kids.tree, p);
      PrefixOfKid(at, kids.name, p);
      PutAllExact(mid, at, kids.rest, p);
      if here <= p {
        assert p[|here|..] == p[|at|..][1..];
      }
    }
  }

  // ---------------------------------------------------------------- extraction puts

  lemma {:induction false} ExtractConcat(fs: Fs, dest: string, a: seq<TarEntry>, b: seq<TarEntry>)
    ensures ExtractAll(fs, dest, a + b) ==
            if ExtractAll(fs, dest, a).1 then ExtractAll(ExtractAll(fs, dest, a).0, dest, b) else ExtractAll(fs, dest, a)
    decreases |a|
  {
    if a == [] {
      assert a + b == b;
    } else {
      assert (a + b)[1..] == a[1..] + b;
      var (next, ok) := ExtractOne(fs, dest, a[0]);
      if ok {
        ExtractConcat(next, dest, a[1..], b);
      }
    }
  }

  predicate IsDir(fs: Fs, p: seq<string>) {
    p == [] || (p in fs && fs[p].DirNode?)
  }

  lemma MakeHere(fs: Fs, at: seq<string>)
    requires at != [] && IsDir(fs, at[..|at| - 1]) && at !in fs
    ensures MkdirAll(fs, at) == (fs[at := DirNode], true)
    ensures MkdirAll(fs, at[..|at| - 1]) == (fs, true)
  {
  }

  lemma WriteHere(fs: Fs, at: seq<string>, content: seq<Byte>)
    requires at != [] && at !in fs
    ensures WriteFile(fs, at, content) == (fs[at := FileNode(content)], true)
  {
    assert content + [] == content;
  }

  lemma EntryNameResolves(dest: string, path: seq<string>, t: Tree)
    requires Parse(dest).parts != [] && NamesOk(path) && path != []
    ensures Accepts(dest, EntryOf(path, t).name)
    ensures Target(dest, EntryOf(path, t).name) == Parse(dest).parts + path
  {
    NamesResolveBelow(dest, path);
  }

  /** The entry of one file or directory at a vacant place of an existing directory. */
  lemma ExtractEntry(fs: Fs, dest: string, path: seq<string>, t: Tree)
    requires Parse(dest).parts != [] && NamesOk(path) && path != []
    requires var at := Parse(dest).parts + path; IsDir(fs, at[..|at| - 1]) && Vacant(fs, at)
    ensures Accepts(dest, EntryOf(path, t).name)
    ensures ExtractOne(fs, dest, EntryOf(path, t)) ==
            (fs[Parse(dest).parts + path := if t.File? then FileNode(t.content) else DirNode], true)
  {
    var at := Parse(dest).parts + path;
    EntryNameResolves(dest, path, t);
    ExtractPlaced(fs, dest, EntryOf(path, t), at, t);
  }

  lemma ExtractPlaced(fs: Fs, dest: string, e: TarEntry, at: seq<string>, t: Tree)
    requires Accepts(dest, e.name) && Target(dest, e.name) == at
    requires e.kind == if t.File? then RegEntry(t.content) else DirEntry
    requires at != [] && IsDir(fs, at[..|at| - 1]) && Vacant(fs, at)
    ensures ExtractOne(fs, dest, e) == (fs[at := if t.File? then FileNode(t.content) else DirNode], true)
  {
    assert at <= at;
    MakeHere(fs, at);
    if t.File? {
      WriteHere(fs, at, t.content);
    }
  }

  lemma {:induction false} ExtractTree(fs: Fs, dest: string, path: seq<string>, t: Tree)
    requires TreeOk(t) && Parse(dest).parts != [] && NamesOk(path) && path != []
    requires var at := Parse(dest).parts + path; IsDir(fs, at[..|at| - 1]) && Vacant(fs, at)
    ensures ExtractAll(fs, dest, Entries(path, t)) == (Put(fs, Parse(dest).parts + path, t), true)
    decreases t
  {
    var at := Parse(dest).parts + path;
    ExtractEntry(fs, dest, path, t);
    var next := fs[at := if t.File? then FileNode(t.content) else DirNode];
    assert Entries(path, t)[1..] == if t.Dir? then EntriesOf(path, t.kids) else [];
    if t.Dir? {
      assert forall q | q in next :: q == at || q in fs;
      assert forall q | q in next :: !(at <= q && |q| > |at|);
      ExtractForest(next, dest, path, t.kids);
    }
  }

  lemma {:induction false} ExtractForest(fs: Fs, dest: string, path: seq<string>, kids: Forest)
    requires ForestOk(kids) && Parse(dest).parts != [] && NamesOk(path)
    requires var at := Parse(dest).parts + path;
             IsDir(fs, at) && forall q | q in fs :: at <= q && |q| > |at| ==> !Lists(kids, q[|at|])
    ensures ExtractAll(fs, dest, EntriesOf(path, kids)) == (PutAll(fs, Parse(dest).parts + path, kids), true)
    decreases kids
  {
    if kids.Kid? {
      var at := Parse(dest).parts + path;
      var here := at + [kids.name];
      assert here == Parse(dest).parts + (path + [kids.name]) && here[..|here| - 1] == at;
      forall q | q in fs ensures !(here <= q) {
        PrefixOfKid(at, kids.name, q);
      }
      ExtractTree(fs, dest, path + [kids.name], kids.tree);
      var mid := Put(fs, here, kids.tree);
      forall q | q in mid && at <= q && |q| > |at| ensures !Lists(kids.rest, q[|at|]) {
        PutExact(fs, here, kids.tree, q);
        PrefixOfKid(at, kids.name, q);
      }
      PutExact(fs, here, kids.tree, at);
      ExtractForest(mid, dest, path, kids.rest);
      ExtractConcat(fs, dest, Entries(path + [kids.name], kids.tree), EntriesOf(path, kids.rest));
    }
  }

  /**
    For every directory tree, extracting its archive into an existing empty directory succeeds
    and undoes it: below the destination there is exactly what the tree has, names, nesting,
    empty directories and contents, and everywhere else nothing has changed.
   */
  lemma UntarUndoesTar(fs: Fs, dest: string, source: Tree, p: seq<string>)
    requires source.Dir? && TreeOk(source)
    requires var d := Parse(dest).parts;
             d != [] && IsDir(fs, d) && forall q | q in fs :: !StrictlyBelow(d, q)
    ensures var d := Parse(dest).parts;
            var (post, ok) := ExtractAll(fs, dest, EntriesOf([], source.kids));
            && ok
            && Lookup(post, p) == if StrictlyBelow(d, p) then Find(source, p[|d|..]) else Lookup(fs, p)
  {
    var d := Parse(dest).parts;
    assert d + [] == d;
    ExtractForest(fs, dest, [], source.kids);
    PutAllExact(fs, d, source.kids, p);
    if StrictlyBelow(d, p) {
      assert d <= p && p[|d|..] != [];
    }
  }

  // ---------------------------------------------------------------- any archive whatever

  lemma {:induction false} MkdirStaysBelow(fs: Fs, d: seq<string>, t: seq<string>, p: seq<string>)
    requires d in fs && fs[d].DirNode? && d <= t && !StrictlyBelow(d, p)
    ensures Lookup(MkdirAll(fs, t).0, p) == Lookup(fs, p)
    decreases |t|
  {
    if t != [] && t !in fs {
      assert |d| == |t| ==> d == t;
      assert d == t[..|t| - 1][..|d|];
      MkdirStaysBelow(fs, d, t[..|t| - 1], p);
    }
  }

  lemma PlaceStaysBelow(fs: Fs, d: seq<string>, t: seq<string>, kind: Kind, p: seq<string>)
    requires d in fs && fs[d].DirNode? && StrictlyBelow(d, t) && !StrictlyBelow(d, p)
    ensures Lookup(Place(fs, t, kind).0, p) == Lookup(fs, p)
  {
    assert d == t[..|t| - 1][..|d|];
    MkdirStaysBelow(fs, d, t, p);
    MkdirStaysBelow(fs, d, t[..|t| - 1], p);
  }

  /** One entry of any name and kind writes strictly below the destination or fails. */
  lemma EntryStaysBelow(fs: Fs, dest: string, e: TarEntry, d: seq<string>, p: seq<string>)
    requires d == Parse(dest).parts && d != [] && IsDir(fs, d)
    ensures var (post, ok) := ExtractOne(fs, dest, e);
            && (!StrictlyBelow(d, p) ==> Lookup(post, p) == Lookup(fs, p))
            && (ok ==> StrictlyBelow(d, Resolve(Rooted(dest), d, SplitOn(e.name, '/'))))
  {
    AcceptsIff(dest, e.name);
    if Accepts(dest, e.name) && !StrictlyBelow(d, p) {
      PlaceStaysBelow(fs, d, Target(dest, e.name), e.kind, p);
    }
  }

  /**
    Extraction of any list of entries whatever, from a foreign archive too: nothing changes but
    strictly below the destination, and it succeeds only if every name resolves to there. Module
    Paths says when a path that begins with the destination's components is really inside it.
   */
  lemma {:induction false} ExtractionConfined(fs: Fs, dest: string, entries: seq<TarEntry>, p: seq<string>)
    requires var d := Parse(dest).parts; d != [] && IsDir(fs, d)
    ensures var d := Parse(dest).parts;
            var (post, ok) := ExtractAll(fs, dest, entries);
            && (!StrictlyBelow(d, p) ==> Lookup(post, p) == Lookup(fs, p))
            && (ok ==> forall i | 0 <= i < |entries| ::
                         StrictlyBelow(d, Resolve(Rooted(dest), d, SplitOn(entries[i].name, '/'))))
    decreases |entries|
  {
    if entries != [] {
      var d := Parse(dest).parts;
      var (next, ok) := ExtractOne(fs, dest, entries[0]);
      EntryStaysBelow(fs, dest, entries[0], d, p);
      EntryStaysBelow(fs, dest, entries[0], d, d);
      if ok {
        assert IsDir(next, d);
        ExtractionConfined(next, dest, entries[1..], p);
        assert forall i | 0 < i < |entries| :: entries[i] == entries[1..][i - 1];
      }
    }
  }

  lemma UntarConfined(fs: Fs, dest: string, entries: seq<TarEntry>)
    ensures var d := Parse(dest).parts;
            d != [] && IsDir(fs, d) ==>
              forall p | !StrictlyBelow(d, p) :: Lookup(ExtractAll(fs, dest, entries).0, p) == Lookup(fs, p)
  {
    var d := Parse(dest).parts;
    if d != [] && IsDir(fs, d) {
      forall p | !StrictlyBelow(d, p) ensures Lookup(ExtractAll(fs, dest, entries).0, p) == Lookup(fs, p) {
        ExtractionConfined(fs, dest, entries, p);
      }
    }
  }

  /** Into the root or the working directory itself nothing is ever extracted. */
  lemma BareDestinationExtractsNothing(fs: Fs, dest: string, entries: seq<TarEntry>)
    requires Parse(dest).parts == []
    ensures ExtractAll(fs, dest, entries) == (fs, entries == [])
  {
    if entries != [] {
      BareDestinationAcceptsNothing(dest, entries[0].name);
    }
  }

  /** What exists has directories above it. */
  ghost predicate FsOk(fs: Fs) {
    forall p | p in fs :: p != [] && IsDir(fs, p[..|p| - 1])
  }

  /** No file stands at the path or above it. */
  ghost predicate NoFileOn(fs: Fs, t: seq<string>) {
    forall k | 0 < k <= |t| && t[..k] in fs :: fs[t[..k]].DirNode?
  }

  lemma {:induction false} DirsAbove(fs: Fs, t: seq<string>, k: nat)
    requires FsOk(fs) && t in fs && 0 < k < |t|
    ensures t[..k] in fs && fs[t[..k]].DirNode?
    decreases |t|
  {
    var up := t[..|t| - 1];
    assert IsDir(fs, up) && up[..k] == t[..k];
    if k < |up| {
      DirsAbove(fs, up, k);
    }
  }

  /** Making a directory with those above it works exactly if no file is in the way, and adds just what was missing. */
  lemma {:induction false} MkdirAllIff(fs: Fs, t: seq<string>, p: seq<string>)
    requires FsOk(fs)
    ensures var (post, ok) := MkdirAll(fs, t);
            && (ok <==> NoFileOn(fs, t))
            && (ok ==> Lookup(post, p) == if p != [] && p <= t then Some(DirNode) else Lookup(fs, p))
    decreases |t|
  {
    if t != [] {
      var up := t[..|t| - 1];
      assert t[..|t|] == t;
      if t in fs {
        forall k | 0 < k < |t| ensures t[..k] in fs && fs[t[..k]].DirNode? {
          DirsAbove(fs, t, k);
        }
        assert p <= t ==> p == t[..|p|];
      } else {
        MkdirAllIff(fs, up, p);
        assert forall k | 0 <= k <= |up| :: up[..k] == t[..k];
        NoFileOnUp(fs, t);
        assert p <= t <==> p == t || p <= up;
      }
    }
  }

  lemma NoFileOnUp(fs: Fs, t: seq<string>)
    requires t != [] && t !in fs
    ensures NoFileOn(fs, t) <==> NoFileOn(fs, t[..|t| - 1])
  {
    var up := t[..|t| - 1];
    assert t[..|t|] == t;
    if NoFileOn(fs, t) {
      forall k | 0 < k <= |up| && up[..k] in fs ensures fs[up[..k]].DirNode? {
        assert up[..k] == t[..k];
      }
    }
    if NoFileOn(fs, up) {
      forall k | 0 < k <= |t| && t[..k] in fs ensures fs[t[..k]].DirNode? {
        assert k < |t| ==> up[..k] == t[..k];
      }
    }
  }

  /**
    A file put at a path: it works exactly if nothing above is a file and no directory is there;
    then directories that were missing above appear, the content is there, with what an older and
    longer file had beyond it, and all else is as it was.
   */
  ghost predicate FilePlaced(fs: Fs, t: seq<string>, content: seq<Byte>, post: Fs, ok: bool, p: seq<string>)
    requires t != []
  {
    && (ok <==> NoFileOn(fs, t[..|t| - 1]) && !(t in fs && fs[t].DirNode?))
    && (ok && p != t ==> Lookup(post, p) == if p != [] && p <= t then Some(DirNode) else Lookup(fs, p))
    && (ok ==> t in post && post[t].FileNode? && content <= post[t].content
               && post[t].content[|content|..] ==
                  if t in fs && |fs[t].content| > |content| then fs[t].content[|content|..] else [])
  }

  lemma PlaceFile(fs: Fs, t: seq<string>, content: seq<Byte>, p: seq<string>)
    requires FsOk(fs) && t != []
    ensures var (post, ok) := Place(fs, t, RegEntry(content)); FilePlaced(fs, t, content, post, ok, p)
  {
    var up := t[..|t| - 1];
    MkdirAllIff(fs, up, p);
    MkdirAllIff(fs, up, t);
    assert !(t <= up);
    assert p <= t ==> p == t || p == t[..|p|] == up[..|p|];
    assert p <= up ==> p == up[..|p|] == t[..|p|];
  }

  lemma AddedDirKeepsFsOk(fs: Fs, t: seq<string>)
    requires FsOk(fs) && t != [] && t !in fs && IsDir(fs, t[..|t| - 1])
    ensures FsOk(fs[t := DirNode])
  {
    var post := fs[t := DirNode];
    forall p | p in post ensures p != [] && IsDir(post, p[..|p| - 1]) {
      assert p in fs ==> IsDir(fs, p[..|p| - 1]);
    }
  }

  lemma {:induction false} MkdirAllKeepsFsOk(fs: Fs, t: seq<string>)
    requires FsOk(fs)
    ensures FsOk(MkdirAll(fs, t).0)
    decreases |t|
  {
    if t != [] && t !in fs {
      var up := t[..|t| - 1];
      var (mid, ok) := MkdirAll(fs, up);
      MkdirAllKeepsFsOk(fs, up);
      MkdirAllIff(fs, up, up);
      MkdirAllIff(fs, up, t);
      if ok {
        AddedDirKeepsFsOk(mid, t);
      }
    }
  }

  lemma PlaceKeepsFsOk(fs: Fs, t: seq<string>, kind: Kind)
    requires FsOk(fs) && t != []
    ensures FsOk(Place(fs, t, kind).0)
  {
    var up := t[..|t| - 1];
    MkdirAllKeepsFsOk(fs, t);
    MkdirAllKeepsFsOk(fs, up);
    MkdirAllIff(fs, up, up);
  }

  /** Extraction leaves directories above all that exists, even where it stops with an error. */
  lemma {:induction false} ExtractionKeepsFsOk(fs: Fs, dest: string, entries: seq<TarEntry>)
    requires FsOk(fs) && Parse(dest).parts != []
    ensures FsOk(ExtractAll(fs, dest, entries).0)
    decreases |entries|
  {
    if entries != [] {
      AcceptsIff(dest, entries[0].name);
      if Accepts(dest, entries[0].name) {
        PlaceKeepsFsOk(fs, Target(dest, entries[0].name), entries[0].kind);
      }
      ExtractionKeepsFsOk(ExtractOne(fs, dest, entries[0]).0, dest, entries[1..]);
    }
  }

  /** What an entry for a directory does: it appears with what is missing above it, unless a file is in the way. */
  lemma DirectoryEntryIff(fs: Fs, dest: string, name: string, p: seq<string>)
    requires FsOk(fs) && Parse(dest).parts != []
    ensures var t := Resolve(Rooted(dest), Parse(dest).parts, SplitOn(name, '/'));
            var (post, ok) := ExtractOne(fs, dest, TarEntry(name, DirEntry));
            && (ok <==> StrictlyBelow(Parse(dest).parts, t) && NoFileOn(fs, t))
            && (ok ==> Lookup(post, p) == if p != [] && p <= t then Some(DirNode) else Lookup(fs, p))
  {
    AcceptsIff(dest, name);
    MkdirAllIff(fs, Target(dest, name), p);
  }

  /** And one for a file. */
  lemma FileEntryIff(fs: Fs, dest: string, name: string, content: seq<Byte>, t: seq<string>, p: seq<string>)
    requires FsOk(fs) && Parse(dest).parts != []
    requires t == Resolve(Rooted(dest), Parse(dest).parts, SplitOn(name, '/'))
    ensures var (post, ok) := ExtractOne(fs, dest, TarEntry(name, RegEntry(content)));
            if StrictlyBelow(Parse(dest).parts, t) then FilePlaced(fs, t, content, post, ok, p) else (post, ok) == (fs, false)
  {
    AcceptsIff(dest, name);
    if Accepts(dest, name) {
      PlaceFile(fs, t, content, p);
    }
  }

  /** Entries of other types are read past, but not their names. */
  lemma OtherEntryIff(fs: Fs, dest: string, name: string)
    requires Parse(dest).parts != []
    ensures ExtractOne(fs, dest, TarEntry(name, OtherEntry)) ==
            (fs, StrictlyBelow(Parse(dest).parts, Resolve(Rooted(dest), Parse(dest).parts, SplitOn(name, '/'))))
  {
    AcceptsIff(dest, name);
  }

  lemma FirstEntry(path: seq<string>, t: Tree)
    requires path != []
    ensures Entries(path, t)[0] == EntryOf(path, t)
  {
  }

  lemma EntryBelow(path: seq<string>, t: Tree, i: nat)
    requires path != [] && 0 < i < |Entries(path, t)|
    ensures t.Dir? && Entries(path, t)[i] == EntriesOf(path, t.kids)[i - 1]
  {
  }

  lemma EntryOfList(path: seq<string>, kids: Forest, i: nat)
    requires i < |EntriesOf(path, kids)|
    ensures kids.Kid?
    ensures var first := Entries(path + [kids.name], kids.tree);
            EntriesOf(path, kids)[i] == if i < |first| then first[i] else EntriesOf(path, kids.rest)[i - |first|]
  {
  }

  lemma {:induction false} ForestEntryNamed(path: seq<string>, kids: Forest, i: nat) returns (names: seq<string>)
    requires ForestOk(kids) && NamesOk(path) && i < |EntriesOf(path, kids)|
    ensures names != [] && NamesOk(names) && EntriesOf(path, kids)[i].name == JoinWith(names, '/')
    decreases kids, 0
  {
    EntryOfList(path, kids, i);
    var first := Entries(path + [kids.name], kids.tree);
    if i < |first| {
      names := EntryNamed(path + [kids.name], kids.tree, i, first[i]);
    } else {
      names := ForestEntryNamed(path, kids.rest, i - |first|);
    }
  }

  lemma {:induction false} EntryNamed(path: seq<string>, t: Tree, i: nat, e: TarEntry) returns (names: seq<string>)
    requires TreeOk(t) && NamesOk(path) && path != []
    requires i < |Entries(path, t)| && e == Entries(path, t)[i]
    ensures names != [] && NamesOk(names) && e.name == JoinWith(names, '/')
    decreases t, 1
  {
    if i == 0 {
      FirstEntry(path, t);
      names := path;
    } else {
      EntryBelow(path, t, i);
      names := ForestEntryNamed(path, t.kids, i - 1);
    }
  }

  /** Every name that the walk writes passes the guard of the extraction. */
  lemma ExportedNamesAccepted(dest: string, path: seq<string>, kids: Forest, i: nat)
    requires ForestOk(kids) && Parse(dest).parts != [] && NamesOk(path) && i < |EntriesOf(path, kids)|
    ensures Accepts(dest, EntriesOf(path, kids)[i].name)
  {
    var names := ForestEntryNamed(path, kids, i);
    NamesResolveBelow(dest, names);
  }

  /** Writing over an existing file leaves exactly the archived content if and only if the old file was not longer. */
  lemma OverwriteExactIff(fs: Fs, p: seq<string>, content: seq<Byte>)
    requires p != [] && p in fs && fs[p].FileNode?
    ensures WriteFile(fs, p, content) == (fs[p := FileNode(content)], true) <==> |fs[p].content| <= |content|
  {
    if |fs[p].content| > |content| {
      assert WriteFile(fs, p, content).0[p].content != content by {
        assert |WriteFile(fs, p, content).0[p].content| == |fs[p].content|;
      }
    } else {
      assert content + [] == content;
    }
  }

  // ---------------------------------------------------------------- sizes

  const UINT64 := 0x1_0000_0000_0000_0000

  function TreeSize(t: Tree): nat {
    if t.File? then |t.content| else ForestSize(t.kids)
  }

  function ForestSize(kids: Forest): nat {
    if kids.Nothing? then 0 else TreeSize(kids.tree) + ForestSize(kids.rest)
  }

  /** getDirSizeRecursive: the loop over one listing, in 64-bit unsigned arithmetic. */
  method GetDirSize(kids: Forest) returns (size: nat)
    ensures size == ForestSize(kids) % 0x1_0000_0000_0000_0000
    decreases kids
  {
    size := 0;
    var rest := kids;
    while rest.Kid?
      invariant rest == kids || rest < kids
      invariant size < UINT64
      invariant (size + ForestSize(rest)) % UINT64 == ForestSize(kids) % UINT64
      decreases rest
    {
      var added: nat;
      if rest.tree.Dir? {
        added := GetDirSize(rest.tree.kids);
      } else {
        added := |rest.tree.content| % UINT64;
      }
      AddModulo(size, added, TreeSize(rest.tree), ForestSize(rest.rest));
      size := (size + added) % UINT64;
      rest := rest.rest;
    }
  }

  lemma AddModulo(size: nat, added: nat, whole: nat, rest: nat)
    requires added == whole % UINT64
    ensures ((size + added) % UINT64 + rest) % UINT64 == (size + (whole + rest)) % UINT64
  {
    var q := whole / UINT64;
    assert whole == q * UINT64 + added;
    var k := (size + added) / UINT64;
    assert size + added == k * UINT64 + (size + added) % UINT64;
    ModuloShift((size + added) % UINT64 + rest, q + k);
  }

  lemma ModuloShift(x: int, k: int)
    ensures (x + k * UINT64) % UINT64 == x % UINT64
  {
  }

  /** The sizes of the files below a path, as the file system has them. */
  function SizesBelow(fs: Fs, d: seq<string>): map<seq<string>, int> {
    map p | p in fs && StrictlyBelow(d, p) && fs[p].FileNode? :: |fs[p].content|
  }

  lemma WriteSizes(fs: Fs, d: seq<string>, p: seq<string>, node: Node)
    requires StrictlyBelow(d, p) && p !in fs
    ensures Total(SizesBelow(fs[p := node], d)) ==
            Total(SizesBelow(fs, d)) + (if node.FileNode? then |node.content| else 0)
  {
    if node.FileNode? {
      assert SizesBelow(fs[p := node], d) == SizesBelow(fs, d)[p := |node.content|];
      TotalWrite(SizesBelow(fs, d), p, |node.content|);
    } else {
      assert SizesBelow(fs[p := node], d) == SizesBelow(fs, d);
    }
  }

  lemma {:induction false} PutSize(fs: Fs, d: seq<string>, at: seq<string>, t: Tree)
    requires TreeOk(t) && Vacant(fs, at) && StrictlyBelow(d, at)
    ensures Total(SizesBelow(Put(fs, at, t), d)) == Total(SizesBelow(fs, d)) + TreeSize(t)
    decreases t
  {
    assert at <= at;
    WriteSizes(fs, d, at, if t.File? then FileNode(t.content) else DirNode);
    if t.Dir? {
      PutAllSize(fs[at := DirNode], d, at, t.kids);
    }
  }

  lemma {:induction false} PutAllSize(fs: Fs, d: seq<string>, at: seq<string>, kids: Forest)
    requires ForestOk(kids) && (StrictlyBelow(d, at) || d == at)
    requires forall q | q in fs :: at <= q && |q| > |at| ==> !Lists(kids, q[|at|])
    ensures Total(SizesBelow(PutAll(fs, at, kids), d)) == Total(SizesBelow(fs, d)) + ForestSize(kids)
    decreases kids
  {
    if kids.Kid? {
      var here := at + [kids.name];
      var mid := Put(fs, here, kids.tree);
      forall q | q in fs ensures !(here <= q) {
        PrefixOfKid(at, kids.name, q);
      }
      forall q | q in mid && at <= q && |q| > |at| ensures !Lists(kids.rest, q[|at|]) {
        PutExact(fs, here, kids.tree, q);
        PrefixOfKid(at, kids.name, q);
      }
      assert StrictlyBelow(d, here) by {
        assert here[..|d|] == at[..|d|];
      }
      PutSize(fs, d, here, kids.tree);
      PutAllSize(mid, d, at, kids.rest);
    }
  }

  /** A moved directory has the size it had: the files below the destination add up to the source's size. */
  lemma MovedSizeUnchanged(fs: Fs, dest: string, source: Tree)
    requires source.Dir? && TreeOk(source)
    requires var d := Parse(dest).parts;
             d != [] && IsDir(fs, d) && forall q | q in fs :: !StrictlyBelow(d, q)
    ensures var d := Parse(dest).parts;
            Total(SizesBelow(ExtractAll(fs, dest, EntriesOf([], source.kids)).0, d)) == TreeSize(source)
  {
    var d := Parse(dest).parts;
    assert d + [] == d;
    ExtractForest(fs, dest, [], source.kids);
    assert forall q | q in fs :: d <= q && |q| > |d| ==> StrictlyBelow(d, q);
    PutAllSize(fs, d, d, source.kids);
    assert SizesBelow(fs, d) == map[];
  }
}
