/**
  The manager's operations split at their locked sections and Docker calls, so that any number
  of them overlap, also on one server: each looks up, calls Docker without the lock, and only
  then writes or deletes the index entry of the server, without looking again.
 */
module AgentOverlap {
  import Agent

  type ServerId = Agent.ServerId
  type ContainerId = Agent.ContainerId

  /** Where an operation stands between two of its sections. */
  datatype Flight =
    | Creating(s: ServerId)
    | Created(s: ServerId, c: ContainerId)             // the index write is to come
    | Starting(s: ServerId, c: ContainerId)
    | Missing(s: ServerId)                             // "No such container": the delete is to come
    | Removing(s: ServerId, c: ContainerId)
    | Removed(s: ServerId)                             // the delete is to come
    | Listing(s: ServerId)
    | Sweeping(s: ServerId, listed: set<ContainerId>)

  /** Docker's containers by the server they are named after, the index, and the operations in flight. */
  datatype Overlap = Overlap(docker: map<ContainerId, ServerId>, index: map<ServerId, ContainerId>, flights: map<nat, Flight>)

  datatype Step =
    | BeginCreate(f: nat, s: ServerId)
    | CallCreate(f: nat, newId: ContainerId, fault: Agent.Fault)
    | WriteIndex(f: nat)
    | BeginStart(f: nat, s: ServerId)
    | CallStart(f: nat, fault: Agent.Fault)
    | BeginRemove(f: nat, s: ServerId)
    | CallRemove(f: nat, fault: Agent.Fault)
    | CallList(f: nat, heard: bool)
    | Sweep(f: nat, c: ContainerId, refused: bool)
    | EndSweep(f: nat)
    | DeleteIndex(f: nat)
    | Vanish(c: ContainerId)
    | RestartAgent(listed: bool, restored: map<ServerId, ContainerId>)

  predicate NameFree(a: Overlap, s: ServerId) {
    forall c | c in a.docker :: a.docker[c] != s
  }

  /** Docker has never given this identifier before. */
  predicate Unused(a: Overlap, c: ContainerId) {
    c !in a.docker && (forall s | s in a.index :: a.index[s] != c)
    && (forall f | f in a.flights :: (a.flights[f].Created? || a.flights[f].Starting? || a.flights[f].Removing?) ==> a.flights[f].c != c)
  }

  /** What Restore builds: the last listed container of each server. */
  predicate Restores(docker: map<ContainerId, ServerId>, index: map<ServerId, ContainerId>) {
    && (forall c | c in docker :: docker[c] in index)
    && (forall s | s in index :: index[s] in docker && docker[index[s]] == s)
  }

  predicate Enabled(a: Overlap, e: Step) {
    match e
    case BeginCreate(f, _) => f !in a.flights
    case CallCreate(f, newId, _) => f in a.flights && a.flights[f].Creating? && Unused(a, newId)
    case WriteIndex(f) => f in a.flights && a.flights[f].Created?
    case BeginStart(f, _) => f !in a.flights
    case CallStart(f, _) => f in a.flights && a.flights[f].Starting?
    case BeginRemove(f, _) => f !in a.flights
    case CallRemove(f, _) => f in a.flights && a.flights[f].Removing?
    case CallList(f, _) => f in a.flights && a.flights[f].Listing?
    case Sweep(f, c, _) => f in a.flights && a.flights[f].Sweeping? && c in a.flights[f].listed
    case EndSweep(f) => f in a.flights && a.flights[f].Sweeping? && a.flights[f].listed == {}
    case DeleteIndex(f) => f in a.flights && (a.flights[f].Missing? || a.flights[f].Removed?)
    case Vanish(_) => true
    case RestartAgent(listed, restored) => if listed then Restores(a.docker, restored) else restored == map[]
  }

  function End(a: Overlap, f: nat): Overlap {
    a.(flights := a.flights - {f})
  }

  function Fly(a: Overlap, f: nat, flight: Flight): Overlap {
    a.(flights := a.flights[f := flight])
  }

  /** Without its lock a call to Docker may go through, be refused, or take effect unheard. */
  function Called(a: Overlap, f: nat, docker: map<ContainerId, ServerId>, fault: Agent.Fault, next: Flight): Overlap {
    if fault == Agent.Refused then End(a, f)
    else if fault == Agent.Unheard then End(a.(docker := docker), f)
    else Fly(a.(docker := docker), f, next)
  }

  function Next(a: Overlap, e: Step): Overlap
    requires Enabled(a, e)
  {
    match e
    case BeginCreate(f, s) => Fly(a, f, Creating(s))
    case CallCreate(f, newId, fault) =>
      var s := a.flights[f].s;
      if NameFree(a, s) then Called(a, f, a.docker[newId := s], fault, Created(s, newId)) else End(a, f)
    case WriteIndex(f) => End(a.(index := a.index[a.flights[f].s := a.flights[f].c]), f)
    case BeginStart(f, s) => if s in a.index then Fly(a, f, Starting(s, a.index[s])) else a
    case CallStart(f, fault) =>
      if fault == Agent.Fine && a.flights[f].c !in a.docker then Fly(a, f, Missing(a.flights[f].s)) else End(a, f)
    case BeginRemove(f, s) => Fly(a, f, if s in a.index then Removing(s, a.index[s]) else Listing(s))
    case CallRemove(f, fault) =>
      var c := a.flights[f].c;
      if c in a.docker then Called(a, f, a.docker - {c}, fault, Removed(a.flights[f].s)) else End(a, f)
    case CallList(f, heard) =>
      var s := a.flights[f].s;
      if heard then Fly(a, f, Sweeping(s, set c | c in a.docker && a.docker[c] == s)) else End(a, f)
    case Sweep(f, c, refused) =>
      Fly(if refused then a else a.(docker := a.docker - {c}), f, Sweeping(a.flights[f].s, a.flights[f].listed - {c}))
    case EndSweep(f) => End(a, f)
    case DeleteIndex(f) => End(a.(index := a.index - {a.flights[f].s}), f)
    case Vanish(c) => a.(docker := a.docker - {c})
    case RestartAgent(_, restored) => Overlap(a.docker, restored, map[])
  }

  predicate Legal(a: Overlap, run: seq<Step>)
    decreases |run|
  {
    run == [] || (Enabled(a, run[0]) && Legal(Next(a, run[0]), run[1..]))
  }

  function Exec(a: Overlap, run: seq<Step>): Overlap
    requires Legal(a, run)
    decreases |run|
  {
    if run == [] then a else Exec(Next(a, run[0]), run[1..])
  }

  // ---------------------------------------------------------------- no container is forgotten

  /** A create in flight will write the index entry of container c. */
  ghost predicate Awaited(a: Overlap, c: ContainerId)
    requires c in a.docker
  {
    exists f :: f in a.flights && a.flights[f] == Created(a.docker[c], c)
  }

  ghost predicate Known(a: Overlap, c: ContainerId)
    requires c in a.docker
  {
    (a.docker[c] in a.index && a.index[a.docker[c]] == c) || Awaited(a, c)
  }

  /** Every managed container is indexed, or a create in flight will index it. */
  ghost predicate AllKnown(a: Overlap) {
    forall c | c in a.docker :: Known(a, c)
  }

  /** Docker's names are unique, and identifiers in the index or in flight stand for the server they were made for. */
  ghost predicate Sane(a: Overlap) {
    && (forall c, d | c in a.docker && d in a.docker && a.docker[c] == a.docker[d] :: c == d)
    && (forall s | s in a.index && a.index[s] in a.docker :: a.docker[a.index[s]] == s)
    && (forall f | f in a.flights && a.flights[f].Created? && a.flights[f].c in a.docker ::
          a.docker[a.flights[f].c] == a.flights[f].s)
  }

  /** The index entry of s leads to a container that nothing but this entry makes known. */
  ghost predicate SoleEntry(a: Overlap, s: ServerId) {
    s in a.index && a.index[s] in a.docker
    && forall g | g in a.flights :: a.flights[g] != Created(s, a.index[s])
  }

  /**
    The steps that lose a container: a create carried out without the agent hearing of it, a
    restart that cannot list, a late delete of an entry whose container exists, and a late write
    over such an entry.
   */
  ghost predicate Loses(a: Overlap, e: Step)
    requires Enabled(a, e)
  {
    match e
    case CallCreate(f, _, fault) => fault == Agent.Unheard && NameFree(a, a.flights[f].s)
    case RestartAgent(listed, _) => !listed && a.docker != map[]
    case DeleteIndex(f) => SoleEntry(a, a.flights[f].s)
    case WriteIndex(f) => SoleEntry(a, a.flights[f].s) && a.index[a.flights[f].s] != a.flights[f].c
    case _ => false
  }

  lemma SaneCreate(a: Overlap, f: nat, newId: ContainerId, fault: Agent.Fault)
    requires Sane(a) && Enabled(a, CallCreate(f, newId, fault))
    ensures Sane(Next(a, CallCreate(f, newId, fault)))
  {
  }

  lemma SaneStep(a: Overlap, e: Step)
    requires Sane(a) && Enabled(a, e)
    ensures Sane(Next(a, e))
  {
    match e
    case CallCreate(f, newId, fault) => SaneCreate(a, f, newId, fault);
    case WriteIndex(_) =>
    case CallRemove(_, _) =>
    case Sweep(_, _, _) =>
    case DeleteIndex(_) =>
    case RestartAgent(_, _) =>
    case _ =>
  }

  /** Operations that neither write nor delete the index, nor add a container, keep the create flights. */
  lemma QuietStepKeeps(a: Overlap, e: Step)
    requires AllKnown(a) && Enabled(a, e)
    requires !(e.CallCreate? || e.WriteIndex? || e.DeleteIndex? || e.RestartAgent?)
    ensures AllKnown(Next(a, e))
  {
    var post := Next(a, e);
    assert post.index == a.index;
    assert forall c | c in post.docker :: c in a.docker && post.docker[c] == a.docker[c];
    assert forall f | f in a.flights && a.flights[f].Created? :: f in post.flights && post.flights[f] == a.flights[f];
    forall c | c in post.docker ensures Known(post, c) {
      assert Known(a, c);
    }
  }

  lemma CreateKeepsIff(a: Overlap, f: nat, newId: ContainerId, fault: Agent.Fault)
    requires Sane(a) && AllKnown(a) && Enabled(a, CallCreate(f, newId, fault))
    ensures AllKnown(Next(a, CallCreate(f, newId, fault))) <==> !Loses(a, CallCreate(f, newId, fault))
  {
    var e := CallCreate(f, newId, fault);
    var post := Next(a, e);
    assert forall g | g in a.flights && a.flights[g].Created? :: g in post.flights && post.flights[g] == a.flights[g];
    forall c | c in a.docker ensures c in post.docker && Known(post, c) {
      assert Known(a, c);
    }
    if Loses(a, e) {
      assert newId in post.docker && !Known(post, newId);
    } else if newId in post.docker {
      assert post.flights[f] == Created(post.docker[newId], newId);
      assert Known(post, newId);
    }
  }

  lemma WriteKeepsIff(a: Overlap, f: nat)
    requires Sane(a) && AllKnown(a) && Enabled(a, WriteIndex(f))
    ensures AllKnown(Next(a, WriteIndex(f))) <==> !Loses(a, WriteIndex(f))
  {
    var post := Next(a, WriteIndex(f));
    var s, mine := a.flights[f].s, a.flights[f].c;
    if Loses(a, WriteIndex(f)) {
      assert !Known(post, a.index[s]);
    } else {
      forall c | c in post.docker ensures Known(post, c) {
        assert Known(a, c);
        if c != mine && Awaited(a, c) {
          var g :| g in a.flights && a.flights[g] == Created(a.docker[c], c);
          assert g in post.flights && post.flights[g] == a.flights[g];
        }
      }
    }
  }

  lemma DeleteKeepsIff(a: Overlap, f: nat)
    requires Sane(a) && AllKnown(a) && Enabled(a, DeleteIndex(f))
    ensures AllKnown(Next(a, DeleteIndex(f))) <==> !Loses(a, DeleteIndex(f))
  {
    var post := Next(a, DeleteIndex(f));
    var s := a.flights[f].s;
    assert forall g | g in a.flights && a.flights[g].Created? :: g in post.flights && post.flights[g] == a.flights[g];
    if Loses(a, DeleteIndex(f)) {
      assert !Known(post, a.index[s]);
    } else {
      forall c | c in post.docker ensures Known(post, c) {
        assert Known(a, c);
      }
    }
  }

  lemma RestartKeepsIff(a: Overlap, e: Step)
    requires Sane(a) && Enabled(a, e) && e.RestartAgent?
    ensures AllKnown(Next(a, e)) <==> !Loses(a, e)
  {
    var post := Next(a, e);
    if Loses(a, e) {
      var c :| c in a.docker;
      assert !Known(post, c);
    } else {
      forall c | c in post.docker ensures Known(post, c) {
        assert post.index[post.docker[c]] in post.docker;
      }
    }
  }

  /** Every step of every overlapping operation keeps all containers known if and only if it is not one that loses one. */
  lemma KnownStepIff(a: Overlap, e: Step)
    requires Sane(a) && AllKnown(a) && Enabled(a, e)
    ensures AllKnown(Next(a, e)) <==> !Loses(a, e)
  {
    match e
    case CallCreate(f, newId, fault) => CreateKeepsIff(a, f, newId, fault);
    case WriteIndex(f) => WriteKeepsIff(a, f);
    case DeleteIndex(f) => DeleteKeepsIff(a, f);
    case RestartAgent(_, _) => RestartKeepsIff(a, e);
    case _ => QuietStepKeeps(a, e);
  }

  ghost predicate LosesNothing(a: Overlap, run: seq<Step>)
    requires Legal(a, run)
    decreases |run|
  {
    run == [] || (!Loses(a, run[0]) && LosesNothing(Next(a, run[0]), run[1..]))
  }

  /** Over every such interleaving all containers stay known; with nothing in flight they are all indexed. */
  lemma {:induction false} KnownRun(a: Overlap, run: seq<Step>)
    requires Sane(a) && AllKnown(a) && Legal(a, run) && LosesNothing(a, run)
    ensures AllKnown(Exec(a, run))
    ensures Exec(a, run).flights == map[] ==>
              forall c | c in Exec(a, run).docker ::
                Exec(a, run).docker[c] in Exec(a, run).index && Exec(a, run).index[Exec(a, run).docker[c]] == c
    decreases |run|
  {
    if run != [] {
      KnownStepIff(a, run[0]);
      SaneStep(a, run[0]);
      KnownRun(Next(a, run[0]), run[1..]);
    } else if a.flights == map[] {
      assert forall c | c in a.docker :: Known(a, c);
    }
  }

  // ---------------------------------------------------------------- the late delete happens

  lemma OneStep(a: Overlap, e: Step, rest: seq<Step>)
    requires Enabled(a, e) && Legal(Next(a, e), rest)
    ensures Legal(a, [e] + rest) && Exec(a, [e] + rest) == Exec(Next(a, e), rest)
  {
    assert ([e] + rest)[1..] == rest;
  }

  /** Remove the indexed container of s and make a new one. */
  function Reinstall(g: nat, s: ServerId, newId: ContainerId, rest: seq<Step>): seq<Step> {
    [BeginRemove(g, s)] + ([CallRemove(g, Agent.Fine)] + ([DeleteIndex(g)] +
    ([BeginCreate(g, s)] + ([CallCreate(g, newId, Agent.Fine)] + ([WriteIndex(g)] + rest)))))
  }

  lemma RemovalRuns(a: Overlap, g: nat, s: ServerId, rest: seq<Step>)
    requires s in a.index && a.index[s] in a.docker && g !in a.flights
    requires Legal(Overlap(a.docker - {a.index[s]}, a.index - {s}, a.flights), rest)
    ensures var run := [BeginRemove(g, s)] + ([CallRemove(g, Agent.Fine)] + ([DeleteIndex(g)] + rest));
            Legal(a, run) && Exec(a, run) == Exec(Overlap(a.docker - {a.index[s]}, a.index - {s}, a.flights), rest)
  {
    var a1 := Next(a, BeginRemove(g, s));
    var a2 := Next(a1, CallRemove(g, Agent.Fine));
    var a3 := Next(a2, DeleteIndex(g));
    assert a3.flights == a.flights;
    OneStep(a2, DeleteIndex(g), rest);
    OneStep(a1, CallRemove(g, Agent.Fine), [DeleteIndex(g)] + rest);
    OneStep(a, BeginRemove(g, s), [CallRemove(g, Agent.Fine)] + ([DeleteIndex(g)] + rest));
  }

  lemma CreationRuns(a: Overlap, g: nat, s: ServerId, newId: ContainerId, rest: seq<Step>)
    requires NameFree(a, s) && g !in a.flights && Unused(a, newId)
    requires Legal(Overlap(a.docker[newId := s], a.index[s := newId], a.flights), rest)
    ensures var run := [BeginCreate(g, s)] + ([CallCreate(g, newId, Agent.Fine)] + ([WriteIndex(g)] + rest));
            Legal(a, run) && Exec(a, run) == Exec(Overlap(a.docker[newId := s], a.index[s := newId], a.flights), rest)
  {
    var a1 := Next(a, BeginCreate(g, s));
    assert NameFree(a1, s) && Unused(a1, newId);
    var a2 := Next(a1, CallCreate(g, newId, Agent.Fine));
    var a3 := Next(a2, WriteIndex(g));
    assert a3.flights == a.flights;
    OneStep(a2, WriteIndex(g), rest);
    OneStep(a1, CallCreate(g, newId, Agent.Fine), [WriteIndex(g)] + rest);
    OneStep(a, BeginCreate(g, s), [CallCreate(g, newId, Agent.Fine)] + ([WriteIndex(g)] + rest));
  }

  lemma ReinstallRuns(a: Overlap, g: nat, s: ServerId, newId: ContainerId, rest: seq<Step>)
    requires Sane(a) && s in a.index && a.index[s] in a.docker && g !in a.flights && Unused(a, newId)
    requires Legal(Overlap((a.docker - {a.index[s]})[newId := s], a.index[s := newId], a.flights), rest)
    ensures Legal(a, Reinstall(g, s, newId, rest))
    ensures Exec(a, Reinstall(g, s, newId, rest)) ==
            Exec(Overlap((a.docker - {a.index[s]})[newId := s], a.index[s := newId], a.flights), rest)
  {
    var mid := Overlap(a.docker - {a.index[s]}, a.index - {s}, a.flights);
    assert (a.index - {s})[s := newId] == a.index[s := newId];
    CreationRuns(mid, g, s, newId, rest);
    RemovalRuns(a, g, s, [BeginCreate(g, s)] + ([CallCreate(g, newId, Agent.Fine)] + ([WriteIndex(g)] + rest)));
  }

  /**
    From every quiet state in which a server's container is indexed: a start looks it up, the
    server is reinstalled, and only then Docker tells the start that its container is gone. The
    start deletes the new entry, and the new container is left that the index does not know.
   */
  lemma LateStartForgetsNewContainer(a: Overlap, s: ServerId, f: nat, g: nat, newId: ContainerId)
    requires Sane(a) && a.flights == map[] && s in a.index && a.index[s] in a.docker
    requires f != g && Unused(a, newId)
    ensures var run := [BeginStart(f, s)] + Reinstall(g, s, newId, [CallStart(f, Agent.Fine)] + ([DeleteIndex(f)] + []));
            && Legal(a, run)
            && var post := Exec(a, run);
            post.flights == map[] && newId in post.docker && post.docker[newId] == s && s !in post.index
  {
    var a1 := Next(a, BeginStart(f, s));
    assert a1.flights == map[f := Starting(s, a.index[s])];
    var a2 := Overlap((a.docker - {a.index[s]})[newId := s], a.index[s := newId], a1.flights);
    var a3 := Next(a2, CallStart(f, Agent.Fine));
    assert a3.flights[f] == Missing(s);
    OneStep(a3, DeleteIndex(f), []);
    OneStep(a2, CallStart(f, Agent.Fine), [DeleteIndex(f)] + []);
    assert Unused(a1, newId);
    ReinstallRuns(a1, g, s, newId, [CallStart(f, Agent.Fine)] + ([DeleteIndex(f)] + []));
    OneStep(a, BeginStart(f, s), Reinstall(g, s, newId, [CallStart(f, Agent.Fine)] + ([DeleteIndex(f)] + [])));
  }

  // ---------------------------------------------------------------- the late write happens

  /** The removals of the containers that a removal has listed, in any order; `each` says which Docker refuses. */
  ghost function SweepAll(f: nat, todo: set<ContainerId>, each: ContainerId -> Agent.Fault, rest: seq<Step>): seq<Step> {
    if todo == {} then [EndSweep(f)] + rest
    else
      var c :| c in todo;
      [Sweep(f, c, each(c) == Agent.Refused)] + SweepAll(f, todo - {c}, each, rest)
  }

  function Swept(docker: map<ContainerId, ServerId>, todo: set<ContainerId>, each: ContainerId -> Agent.Fault)
    : map<ContainerId, ServerId>
  {
    map c | c in docker && !(c in todo && each(c) != Agent.Refused) :: docker[c]
  }

  lemma {:induction false} SweepAllRuns(a: Overlap, f: nat, s: ServerId, todo: set<ContainerId>,
                                        each: ContainerId -> Agent.Fault, rest: seq<Step>)
    requires f in a.flights && a.flights[f] == Sweeping(s, todo)
    requires Legal(Overlap(Swept(a.docker, todo, each), a.index, a.flights - {f}), rest)
    ensures Legal(a, SweepAll(f, todo, each, rest))
    ensures Exec(a, SweepAll(f, todo, each, rest)) ==
            Exec(Overlap(Swept(a.docker, todo, each), a.index, a.flights - {f}), rest)
    decreases todo
  {
    if todo == {} {
      assert Swept(a.docker, todo, each) == a.docker;
      OneStep(a, EndSweep(f), rest);
    } else {
      var c :| c in todo && SweepAll(f, todo, each, rest) ==
                            [Sweep(f, c, each(c) == Agent.Refused)] + SweepAll(f, todo - {c}, each, rest);
      var mid := Next(a, Sweep(f, c, each(c) == Agent.Refused));
      assert Swept(mid.docker, todo - {c}, each) == Swept(a.docker, todo, each);
      assert mid.flights - {f} == a.flights - {f};
      SweepAllRuns(mid, f, s, todo - {c}, each, rest);
      OneStep(a, Sweep(f, c, each(c) == Agent.Refused), SweepAll(f, todo - {c}, each, rest));
    }
  }

  function NamedFor(a: Overlap, s: ServerId): set<ContainerId> {
    set c | c in a.docker && a.docker[c] == s
  }

  /** A removal of a server that the index does not know. */
  ghost function SweepRun(a: Overlap, f: nat, s: ServerId, each: ContainerId -> Agent.Fault, rest: seq<Step>): seq<Step> {
    [BeginRemove(f, s)] + ([CallList(f, true)] + SweepAll(f, NamedFor(a, s), each, rest))
  }

  lemma SweepRuns(a: Overlap, f: nat, s: ServerId, each: ContainerId -> Agent.Fault, rest: seq<Step>)
    requires s !in a.index && f !in a.flights
    requires Legal(Overlap(Swept(a.docker, NamedFor(a, s), each), a.index, a.flights), rest)
    ensures Legal(a, SweepRun(a, f, s, each, rest))
    ensures Exec(a, SweepRun(a, f, s, each, rest)) ==
            Exec(Overlap(Swept(a.docker, NamedFor(a, s), each), a.index, a.flights), rest)
  {
    var a1 := Next(a, BeginRemove(f, s));
    var a2 := Next(a1, CallList(f, true));
    assert a2 == Overlap(a.docker, a.index, a.flights[f := Sweeping(s, NamedFor(a, s))]);
    assert a2.flights - {f} == a.flights;
    SweepAllRuns(a2, f, s, NamedFor(a, s), each, rest);
    OneStep(a1, CallList(f, true), SweepAll(f, NamedFor(a, s), each, rest));
    OneStep(a, BeginRemove(f, s), [CallList(f, true)] + SweepAll(f, NamedFor(a, s), each, rest));
  }

  function AllGoThrough(c: ContainerId): Agent.Fault {
    Agent.Fine
  }

  lemma MakingRuns(a: Overlap, f: nat, s: ServerId, c: ContainerId, rest: seq<Step>)
    requires NameFree(a, s) && f !in a.flights && Unused(a, c)
    requires Legal(Overlap(a.docker[c := s], a.index, a.flights[f := Created(s, c)]), rest)
    ensures var run := [BeginCreate(f, s)] + ([CallCreate(f, c, Agent.Fine)] + rest);
            Legal(a, run) && Exec(a, run) == Exec(Overlap(a.docker[c := s], a.index, a.flights[f := Created(s, c)]), rest)
  {
    var a1 := Next(a, BeginCreate(f, s));
    assert NameFree(a1, s) && Unused(a1, c);
    assert Next(a1, CallCreate(f, c, Agent.Fine)) == Overlap(a.docker[c := s], a.index, a.flights[f := Created(s, c)]);
    OneStep(a1, CallCreate(f, c, Agent.Fine), rest);
    OneStep(a, BeginCreate(f, s), [CallCreate(f, c, Agent.Fine)] + rest);
  }

  lemma WritingRuns(a: Overlap, f: nat)
    requires f in a.flights && a.flights[f].Created?
    ensures Legal(a, [WriteIndex(f)] + [])
    ensures Exec(a, [WriteIndex(f)] + []) ==
            Overlap(a.docker, a.index[a.flights[f].s := a.flights[f].c], a.flights - {f})
  {
    OneStep(a, WriteIndex(f), []);
  }

  /** Create a container, have it swept and another one created and indexed, and only then write the first one's entry. */
  ghost function LateWrite(a: Overlap, s: ServerId, f: nat, g: nat, first: ContainerId, second: ContainerId): seq<Step> {
    var made := Overlap(a.docker[first := s], a.index, a.flights[f := Created(s, first)]);
    [BeginCreate(f, s)] + ([CallCreate(f, first, Agent.Fine)] + SweepRun(made, g, s, AllGoThrough,
    [BeginCreate(g, s)] + ([CallCreate(g, second, Agent.Fine)] + ([WriteIndex(g)] + ([WriteIndex(f)] + [])))))
  }

  /**
    From every quiet state in which a server has no container and no entry: the second container
    is left, and the index names the first one, which is gone.
   */
  lemma LateWriteForgetsNewContainer(a: Overlap, s: ServerId, f: nat, g: nat, first: ContainerId, second: ContainerId)
    requires a.flights == map[] && s !in a.index && NameFree(a, s)
    requires f != g && first != second && Unused(a, first) && Unused(a, second)
    ensures Legal(a, LateWrite(a, s, f, g, first, second))
    ensures var post := Exec(a, LateWrite(a, s, f, g, first, second));
            && post.flights == map[] && post.docker == a.docker[second := s] && post.index == a.index[s := first]
            && !Known(post, second)
  {
    var flying := a.flights[f := Created(s, first)];
    var a2 := Overlap(a.docker[first := s], a.index, flying);
    var a3 := Overlap(a.docker, a.index, flying);
    var a4 := Overlap(a.docker[second := s], a.index[s := second], flying);
    WritingRuns(a4, f);
    assert flying - {f} == a.flights && a.index[s := second][s := first] == a.index[s := first];
    CreationRuns(a3, g, s, second, [WriteIndex(f)] + []);
    assert NamedFor(a2, s) == {first};
    assert Swept(a2.docker, NamedFor(a2, s), AllGoThrough) == a.docker;
    var rest := [BeginCreate(g, s)] + ([CallCreate(g, second, Agent.Fine)] + ([WriteIndex(g)] + ([WriteIndex(f)] + [])));
    SweepRuns(a2, g, s, AllGoThrough, rest);
    MakingRuns(a, f, s, first, SweepRun(a2, g, s, AllGoThrough, rest));
  }

  // ---------------------------------------------------------------- undisturbed operations

  function Servers(docker: map<ContainerId, Agent.Container>): map<ContainerId, ServerId> {
    map c | c in docker :: docker[c].server
  }

  function Cids(index: map<ServerId, Agent.Entry>): map<ServerId, ContainerId> {
    map s | s in index :: index[s].cid
  }

  /** What this module keeps of the state of module Agent. */
  function Of(a: Agent.AgentState): Overlap {
    Overlap(Servers(a.docker), Cids(a.index), map[])
  }

  lemma ServersChange(docker: map<ContainerId, Agent.Container>, c: ContainerId, made: Agent.Container, running: bool)
    ensures Servers(docker[c := made]) == Servers(docker)[c := made.server]
    ensures Servers(docker - {c}) == Servers(docker) - {c}
    ensures Servers(Agent.SetRunning(docker, c, running)) == Servers(docker)
  {
  }

  lemma CidsChange(index: map<ServerId, Agent.Entry>, s: ServerId, e: Agent.Entry)
    ensures Cids(index[s := e]) == Cids(index)[s := e.cid]
    ensures Cids(index - {s}) == Cids(index) - {s}
    ensures s in index && index[s].cid == e.cid ==> Cids(index[s := e]) == Cids(index)
  {
  }

  /** The sections of a whole operation. */
  ghost function Sections(a: Agent.AgentState, op: Agent.Op): seq<Step>
    requires op.Create? || op.Start? || op.Remove?
  {
    var s := op.server;
    match op
    case Create(_, _, prepared, newId, fault) =>
      if !prepared then []
      else [BeginCreate(0, s)] + ([CallCreate(0, newId, fault)] +
           if Agent.Named(a.docker, s) == {} && fault == Agent.Fine then [WriteIndex(0)] + [] else [])
    case Start(_, fault) =>
      [BeginStart(0, s)] +
      if s !in a.index then []
      else [CallStart(0, fault)] + if fault == Agent.Fine && a.index[s].cid !in a.docker then [DeleteIndex(0)] + [] else []
    case Remove(_, fault, each) =>
      if s !in a.index then
        if fault == Agent.Fine then SweepRun(Of(a), 0, s, each, []) else [BeginRemove(0, s)] + ([CallList(0, false)] + [])
      else
        [BeginRemove(0, s)] + ([CallRemove(0, fault)] +
                               if fault == Agent.Fine && a.index[s].cid in a.docker then [DeleteIndex(0)] + [] else [])
    case _ => []
  }

  lemma FreeNames(a: Agent.AgentState, s: ServerId)
    ensures NameFree(Of(a), s) <==> Agent.Named(a.docker, s) == {}
  {
    assert forall c :: c in Agent.Named(a.docker, s) <==> c in Of(a).docker && Of(a).docker[c] == s;
  }

  lemma CreateEnds(a: Agent.AgentState, op: Agent.Op, post: Agent.AgentState)
    requires op.Create? && op.prepared && Agent.FreshId(a, op) && post == Agent.DoCreate(a, op).0
    ensures var o1 := Fly(Of(a), 0, Creating(op.server));
            && Enabled(Of(a), BeginCreate(0, op.server)) && Next(Of(a), BeginCreate(0, op.server)) == o1
            && Enabled(o1, CallCreate(0, op.newId, op.fault))
            && var o2 := Next(o1, CallCreate(0, op.newId, op.fault));
            if Agent.Named(a.docker, op.server) == {} && op.fault == Agent.Fine
            then Enabled(o2, WriteIndex(0)) && Next(o2, WriteIndex(0)) == Of(post) else o2 == Of(post)
  {
    FreeNames(a, op.server);
    ServersChange(a.docker, op.newId, Agent.Container(op.server, op.command, false), true);
    CidsChange(a.index, op.server, Agent.Entry(op.newId, Agent.Created));
    var o1 := Fly(Of(a), 0, Creating(op.server));
    UnusedFresh(a, op, o1);
    assert NameFree(o1, op.server) <==> NameFree(Of(a), op.server);
  }

  lemma UnusedFresh(a: Agent.AgentState, op: Agent.Op, o: Overlap)
    requires op.Create? && Agent.FreshId(a, op) && o == Fly(Of(a), 0, Creating(op.server))
    ensures Unused(o, op.newId)
  {
  }

  lemma WholeCreate(a: Agent.AgentState, op: Agent.Op, post: Agent.AgentState, reply: Agent.Reply)
    requires op.Create? && op.prepared && Agent.FreshId(a, op) && Agent.Does(a, op, post, reply)
    ensures Legal(Of(a), Sections(a, op)) && Exec(Of(a), Sections(a, op)) == Of(post)
  {
    CreateEnds(a, op, post);
    var o1 := Next(Of(a), BeginCreate(0, op.server));
    var o2 := Next(o1, CallCreate(0, op.newId, op.fault));
    var tail := if Agent.Named(a.docker, op.server) == {} && op.fault == Agent.Fine then [WriteIndex(0)] + [] else [];
    if tail != [] {
      OneStep(o2, WriteIndex(0), []);
    }
    OneStep(o1, CallCreate(0, op.newId, op.fault), tail);
    OneStep(Of(a), BeginCreate(0, op.server), [CallCreate(0, op.newId, op.fault)] + tail);
  }

  lemma StartEnds(a: Agent.AgentState, s: ServerId, fault: Agent.Fault, post: Agent.AgentState)
    requires s in a.index && post == Agent.DoStart(a, s, fault).0
    ensures var o1 := Fly(Of(a), 0, Starting(s, a.index[s].cid));
            && Enabled(Of(a), BeginStart(0, s)) && Next(Of(a), BeginStart(0, s)) == o1
            && Enabled(o1, CallStart(0, fault))
            && var o2 := Next(o1, CallStart(0, fault));
            if fault == Agent.Fine && a.index[s].cid !in a.docker
            then Enabled(o2, DeleteIndex(0)) && Next(o2, DeleteIndex(0)) == Of(post) else o2 == Of(post)
  {
    var e := a.index[s];
    ServersChange(a.docker, e.cid, Agent.Container(s, "", true), true);
    CidsChange(a.index, s, e.(status := Agent.Running));
  }

  lemma WholeStart(a: Agent.AgentState, op: Agent.Op, post: Agent.AgentState, reply: Agent.Reply)
    requires op.Start? && Agent.Does(a, op, post, reply)
    ensures Legal(Of(a), Sections(a, op)) && Exec(Of(a), Sections(a, op)) == Of(post)
  {
    var s, fault := op.server, op.fault;
    var o1 := Next(Of(a), BeginStart(0, s));
    if s !in a.index {
      OneStep(Of(a), BeginStart(0, s), []);
    } else {
      StartEnds(a, s, fault, post);
      var o2 := Next(o1, CallStart(0, fault));
      var tail := if fault == Agent.Fine && a.index[s].cid !in a.docker then [DeleteIndex(0)] + [] else [];
      if tail != [] {
        OneStep(o2, DeleteIndex(0), []);
      }
      OneStep(o1, CallStart(0, fault), tail);
      OneStep(Of(a), BeginStart(0, s), [CallStart(0, fault)] + tail);
    }
  }

  lemma RemoveEnds(a: Agent.AgentState, s: ServerId, fault: Agent.Fault, each: ContainerId -> Agent.Fault, post: Agent.AgentState)
    requires s in a.index && post == Agent.DoRemove(a, s, fault, each).0
    ensures var o1 := Fly(Of(a), 0, Removing(s, a.index[s].cid));
            && Enabled(Of(a), BeginRemove(0, s)) && Next(Of(a), BeginRemove(0, s)) == o1
            && Enabled(o1, CallRemove(0, fault))
            && var o2 := Next(o1, CallRemove(0, fault));
            if fault == Agent.Fine && a.index[s].cid in a.docker
            then Enabled(o2, DeleteIndex(0)) && Next(o2, DeleteIndex(0)) == Of(post) else o2 == Of(post)
  {
    var e := a.index[s];
    ServersChange(a.docker, e.cid, Agent.Container(s, "", true), true);
    CidsChange(a.index, s, e);
  }

  lemma WholeRemove(a: Agent.AgentState, op: Agent.Op, post: Agent.AgentState, reply: Agent.Reply)
    requires op.Remove? && op.server in a.index && Agent.Does(a, op, post, reply)
    ensures Legal(Of(a), Sections(a, op)) && Exec(Of(a), Sections(a, op)) == Of(post)
  {
    RemoveEnds(a, op.server, op.fault, op.each, post);
    var s, fault := op.server, op.fault;
    var o1 := Next(Of(a), BeginRemove(0, s));
    var o2 := Next(o1, CallRemove(0, fault));
    var tail := if fault == Agent.Fine && a.index[s].cid in a.docker then [DeleteIndex(0)] + [] else [];
    if tail != [] {
      OneStep(o2, DeleteIndex(0), []);
    }
    OneStep(o1, CallRemove(0, fault), tail);
    OneStep(Of(a), BeginRemove(0, s), [CallRemove(0, fault)] + tail);
  }

  lemma WholeSweep(a: Agent.AgentState, op: Agent.Op, post: Agent.AgentState, reply: Agent.Reply)
    requires op.Remove? && op.server !in a.index && Agent.Does(a, op, post, reply)
    ensures Legal(Of(a), Sections(a, op)) && Exec(Of(a), Sections(a, op)) == Of(post)
  {
    var s := op.server;
    if op.fault == Agent.Fine {
      assert Swept(Of(a).docker, NamedFor(Of(a), s), op.each) == Of(post).docker;
      SweepRuns(Of(a), 0, s, op.each, []);
    } else {
      var o1 := Next(Of(a), BeginRemove(0, s));
      assert Next(o1, CallList(0, false)) == Of(post);
      OneStep(o1, CallList(0, false), []);
      OneStep(Of(a), BeginRemove(0, s), [CallList(0, false)] + []);
    }
  }

  /** An operation that nothing overlaps, as module Agent has it, is the run of its own sections. */
  lemma WholeOperationIsARun(a: Agent.AgentState, op: Agent.Op, post: Agent.AgentState, reply: Agent.Reply)
    requires op.Create? || op.Start? || op.Remove?
    requires Agent.FreshId(a, op) && Agent.Does(a, op, post, reply)
    ensures Legal(Of(a), Sections(a, op)) && Exec(Of(a), Sections(a, op)) == Of(post)
  {
    match op
    case Create(_, _, prepared, _, _) =>
      if prepared {
        WholeCreate(a, op, post, reply);
      }
    case Start(_, _) => WholeStart(a, op, post, reply);
    case Remove(s, _, _) =>
      if s in a.index {
        WholeRemove(a, op, post, reply);
      } else {
        WholeSweep(a, op, post, reply);
      }
  }
}
