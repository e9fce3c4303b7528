/**
  Who owns an allocation. An allocation row names a server exactly when that server holds it,
  where a server holds nothing for a moment while it is created, deleted or moved. A step keeps
  this exactly when it does not take an allocation away from under its holder.
 */
module Ownership {
  import opened Common
  import opened Placement

  /** The allocation that must name server s at this point of its handler, if any. */
  function Held(st: State, s: ServerId): Option<AllocId>
    requires s in st.db.servers
  {
    if s !in st.tasks then st.db.servers[s].alloc
    else
      match st.tasks[s]
      case CreateAssign => None
      case CreateCharge => st.db.servers[s].alloc
      case DeleteFree(row) => row.alloc
      case DeleteRelease(_) => None
      case Deleted => None
      case Moving(pc, row, _, a, _) =>
        if pc.TakeNewAlloc? then None
        else if pc.MoveServer? || RowMoved(pc) then Some(a)
        else row.alloc
  }

  /** The node its allocation is on: its own, or the target between taking the allocation and moving. */
  function HeldOn(st: State, s: ServerId): NodeId
    requires s in st.db.servers
  {
    if s in st.tasks && st.tasks[s].Moving? && st.tasks[s].pc.MoveServer? then st.tasks[s].target
    else st.db.servers[s].node
  }

  predicate HolderNamed(st: State, s: ServerId)
    requires s in st.db.servers
  {
    var a := Held(st, s);
    a.Some? ==> a.value in st.db.allocs && st.db.allocs[a.value].server == Some(s)
                && st.db.allocs[a.value].node == HeldOn(st, s)
  }

  predicate NameHeld(st: State, a: AllocId)
    requires a in st.db.allocs
  {
    var s := st.db.allocs[a].server;
    s.Some? ==> s.value in st.db.servers && Held(st, s.value) == Some(a)
  }

  ghost predicate Owned(st: State) {
    && (forall s | s in st.db.servers :: HolderNamed(st, s))
    && (forall a | a in st.db.allocs :: NameHeld(st, a))
  }

  /** The triples (node, ip, port) of the allocations are unique, as the schema demands. */
  ghost predicate EndpointsUnique(db: Db) {
    forall a, b | a in db.allocs && b in db.allocs && a != b ::
      !(db.allocs[a].node == db.allocs[b].node && db.allocs[a].ip == db.allocs[b].ip && db.allocs[a].port == db.allocs[b].port)
  }

  /**
    What the statements do not check when they run: the allocation a handler picked earlier is
    still there and free (a new server's also has to be on its node), and the allocation an
    administrator looked up as free before deleting it still is.
   */
  predicate TargetStillFree(st: State, step: Step)
    requires Enabled(st, step)
  {
    match step
    case Advance(s, _) =>
      (match st.tasks[s]
       case CreateAssign => st.db.servers[s].alloc.Some? && TargetAvailable(st.db, st.db.servers[s].node, st.db.servers[s].alloc.value)
       case Moving(TakeNewAlloc, _, target, a, _) => TargetAvailable(st.db, target, a)
       case _ => true)
    case DropAlloc(a) => st.db.allocs[a].server.None?
    case _ => true
  }

  /** A statement of one server's handler leaves what every other server holds alone. */
  lemma OthersHoldTheSame(st: State, step: Step, s: ServerId, x: ServerId)
    requires Enabled(st, step)
    requires (step.Advance? || step.BeginCreate? || step.BeginDelete? || step.BeginTransfer?
              || step.Resize? || step.RemoveServer?) && step.s == s
    requires x in st.db.servers && x != s
    ensures var post := Next(st, step);
            x in post.db.servers && Held(post, x) == Held(st, x) && HeldOn(post, x) == HeldOn(st, x)
  {
  }

  /** Steps that change neither the servers nor the tasks change nobody's holding. */
  lemma AllHoldTheSame(st: State, post: State, x: ServerId)
    requires post.db.servers == st.db.servers && post.tasks == st.tasks && x in st.db.servers
    ensures Held(post, x) == Held(st, x) && HeldOn(post, x) == HeldOn(st, x)
  {
  }

  /** What advancing the handler of server s does to the allocation rows and to its holding. */
  ghost predicate AdvanceEffectIs(st: State, s: ServerId, ok: bool)
    requires Enabled(st, Advance(s, ok))
  {
    var post := Next(st, Advance(s, ok));
    var t := st.tasks[s];
    s in post.db.servers &&
    if t.CreateAssign? then
      Held(st, s) == None && Held(post, s) == st.db.servers[s].alloc && HeldOn(post, s) == st.db.servers[s].node
      && post.db.allocs == st.db.Assign(st.db.servers[s].alloc, Some(s)).allocs
    else if t.DeleteFree? || (t.Moving? && t.pc.FreeOldAlloc?) then
      Held(st, s) == t.row.alloc && Held(post, s) == None
      && post.db.allocs == st.db.Assign(t.row.alloc, None).allocs
    else if t.Moving? && t.pc.TakeNewAlloc? then
      Held(st, s) == None && Held(post, s) == Some(t.targetAlloc) && HeldOn(post, s) == t.target
      && post.db.allocs == st.db.Assign(Some(t.targetAlloc), Some(s)).allocs
    else
      Held(post, s) == Held(st, s) && HeldOn(post, s) == HeldOn(st, s) && post.db.allocs == st.db.allocs
  }

  lemma TransferEffect(st: State, s: ServerId, ok: bool)
    requires Enabled(st, Advance(s, ok)) && TaskSound(st.db, s, st.tasks[s]) && st.tasks[s].Moving?
    ensures AdvanceEffectIs(st, s, ok)
  {
    var t := st.tasks[s];
    var out := TransferStep(st.db, s, t, ok);
    assert Next(st, Advance(s, ok)) == State(out.db, SetTask(st, s, out.rest));
    match t.pc
    case FreeOldAlloc =>
    case TakeNewAlloc =>
    case MoveServer =>
    case _ =>
  }

  lemma AdvanceEffect(st: State, s: ServerId, ok: bool)
    requires Enabled(st, Advance(s, ok)) && TaskSound(st.db, s, st.tasks[s])
    ensures AdvanceEffectIs(st, s, ok)
  {
    if st.tasks[s].Moving? {
      TransferEffect(st, s, ok);
    }
  }

  /** Taking an allocation for s keeps ownership exactly when it is there, free and on the right node. */
  lemma TakeKeepsOwnershipIff(st: State, step: Step, s: ServerId, a: AllocId, n: NodeId)
    requires Owned(st) && Enabled(st, step) && step.Advance? && step.s == s
    requires var post := Next(st, step);
             s in post.db.servers && Held(st, s) == None && Held(post, s) == Some(a) && HeldOn(post, s) == n
             && post.db.servers.Keys == st.db.servers.Keys
             && post.db.allocs == st.db.Assign(Some(a), Some(s)).allocs
    ensures Owned(Next(st, step)) <==> TargetAvailable(st.db, n, a)
  {
    var post := Next(st, step);
    forall x | x in st.db.servers && x != s
      ensures x in post.db.servers && Held(post, x) == Held(st, x) && HeldOn(post, x) == HeldOn(st, x)
    {
      OthersHoldTheSame(st, step, s, x);
    }
    if TargetAvailable(st.db, n, a) {
      forall x | x in post.db.servers ensures HolderNamed(post, x) {
        assert HolderNamed(st, x);
      }
      forall b | b in post.db.allocs ensures NameHeld(post, b) {
        assert NameHeld(st, b);
      }
    } else if a !in st.db.allocs || st.db.allocs[a].node != n {
      assert !HolderNamed(post, s);
    } else {
      assert NameHeld(st, a);
      assert !HolderNamed(post, st.db.allocs[a].server.value);
    }
  }

  /** Freeing what s holds, while s stops holding it, keeps ownership. */
  lemma FreeKeepsOwnership(st: State, step: Step, s: ServerId)
    requires Owned(st) && Enabled(st, step) && step.Advance? && step.s == s
    requires var post := Next(st, step);
             s in post.db.servers && Held(post, s) == None && post.db.servers.Keys == st.db.servers.Keys
             && post.db.allocs == st.db.Assign(Held(st, s), None).allocs
    ensures Owned(Next(st, step))
  {
    var post := Next(st, step);
    assert HolderNamed(st, s);
    forall x | x in post.db.servers ensures HolderNamed(post, x) {
      if x != s {
        OthersHoldTheSame(st, step, s, x);
        assert HolderNamed(st, x);
      }
    }
    forall b | b in post.db.allocs ensures NameHeld(post, b) {
      assert NameHeld(st, b);
      var x := st.db.allocs[b].server;
      if x.Some? && x.value != s {
        OthersHoldTheSame(st, step, s, x.value);
      }
    }
  }

  /** Steps of one server that move no allocation and do not change its holding keep ownership. */
  lemma SameHoldingKeepsOwnership(st: State, step: Step, s: ServerId)
    requires Owned(st) && Enabled(st, step)
    requires (step.Advance? || step.BeginCreate? || step.BeginDelete? || step.BeginTransfer?
              || step.Resize? || step.RemoveServer?) && step.s == s
    requires var post := Next(st, step);
             && post.db.allocs == st.db.allocs
             && post.db.servers.Keys - {s} == st.db.servers.Keys - {s}
             && (s in post.db.servers ==>
                   Held(post, s) == (if s in st.db.servers then Held(st, s) else None)
                   && (s in st.db.servers ==> HeldOn(post, s) == HeldOn(st, s)))
             && (s !in post.db.servers ==> s in st.db.servers && Held(st, s) == None)
    ensures Owned(Next(st, step))
  {
    var post := Next(st, step);
    forall x | x in post.db.servers ensures HolderNamed(post, x) {
      if x != s {
        assert x in post.db.servers.Keys - {s};
        OthersHoldTheSame(st, step, s, x);
        assert HolderNamed(st, x);
      } else if s in st.db.servers {
        assert HolderNamed(st, s);
      }
    }
    forall b | b in post.db.allocs ensures NameHeld(post, b) {
      assert NameHeld(st, b);
      var x := st.db.allocs[b].server;
      if x.Some? && x.value != s {
        OthersHoldTheSame(st, step, s, x.value);
      }
    }
  }

  lemma AdvanceOwnership(st: State, s: ServerId, ok: bool)
    requires Owned(st) && Enabled(st, Advance(s, ok)) && TaskSound(st.db, s, st.tasks[s])
    ensures Owned(Next(st, Advance(s, ok))) <==> TargetStillFree(st, Advance(s, ok))
  {
    var t := st.tasks[s];
    var step := Advance(s, ok);
    AdvanceEffect(st, s, ok);
    assert Next(st, step).db.servers.Keys == st.db.servers.Keys;
    if t.CreateAssign? {
      TakeKeepsOwnershipIff(st, step, s, st.db.servers[s].alloc.value, st.db.servers[s].node);
    } else if t.Moving? && t.pc.TakeNewAlloc? {
      TakeKeepsOwnershipIff(st, step, s, t.targetAlloc, t.target);
    } else if t.DeleteFree? || (t.Moving? && t.pc.FreeOldAlloc?) {
      FreeKeepsOwnership(st, step, s);
    } else {
      SameHoldingKeepsOwnership(st, step, s);
    }
  }

  /** The cascade of a node deletion reaches no allocation that names a server. */
  lemma DropNodeFreesNothingHeld(st: State, n: NodeId, a: AllocId)
    requires TasksSound(st) && Owned(st) && Enabled(st, DropNode(n))
    requires a in st.db.allocs && st.db.allocs[a].server.Some?
    ensures st.db.allocs[a].node != n
  {
    assert NameHeld(st, a);
    var s := st.db.allocs[a].server.value;
    assert HolderNamed(st, s);
    if s in st.tasks {
      assert TaskSound(st.db, s, st.tasks[s]);
    }
  }

  lemma TableOwnership(st: State, step: Step)
    requires TasksSound(st) && Owned(st) && Enabled(st, step)
    requires step.AddNode? || step.DropNode? || step.AddAlloc? || step.DropAlloc? || step.Heartbeat?
    ensures Owned(Next(st, step)) <==> TargetStillFree(st, step)
  {
    var post := Next(st, step);
    forall x | x in st.db.servers
      ensures x in post.db.servers && Held(post, x) == Held(st, x) && HeldOn(post, x) == HeldOn(st, x)
      ensures HolderNamed(st, x)
    {
      AllHoldTheSame(st, post, x);
    }
    if step.DropNode? {
      forall a | a in st.db.allocs && st.db.allocs[a].server.Some? ensures st.db.allocs[a].node != step.n {
        DropNodeFreesNothingHeld(st, step.n, a);
      }
    }
    if step.DropAlloc? && st.db.allocs[step.a].server.Some? {
      assert NameHeld(st, step.a);
      assert !HolderNamed(post, st.db.allocs[step.a].server.value);
    } else {
      forall x | x in post.db.servers ensures HolderNamed(post, x) {
      }
      forall b | b in post.db.allocs ensures NameHeld(post, b) {
        assert b in st.db.allocs ==> NameHeld(st, b);
      }
    }
  }

  /**
    A step keeps allocation ownership exactly when the allocation it takes or deletes is still
    free at that moment. The handlers check this earlier, in a statement of their own.
   */
  lemma OwnershipStep(st: State, step: Step)
    requires TasksSound(st) && Owned(st) && Enabled(st, step)
    ensures Owned(Next(st, step)) <==> TargetStillFree(st, step)
  {
    if step.Advance? {
      assert TaskSound(st.db, step.s, st.tasks[step.s]);
      AdvanceOwnership(st, step.s, step.ok);
    } else if step.BeginCreate? || step.BeginDelete? || step.BeginTransfer? || step.Resize? || step.RemoveServer? {
      SameHoldingKeepsOwnership(st, step, step.s);
    } else {
      TableOwnership(st, step);
    }
  }

  /** Every allocation a handler takes along the run is still free when it takes it. */
  predicate NoTargetStolen(st: State, run: seq<Step>)
    requires Legal(st, run)
    decreases |run|
  {
    run == [] || (TargetStillFree(st, run[0]) && NoTargetStolen(Next(st, run[0]), run[1..]))
  }

  /** Over every such run the two directions of ownership hold in the last state. */
  lemma {:induction false} OwnershipRun(st: State, run: seq<Step>)
    requires Sound(st) && Owned(st) && Legal(st, run) && NoTargetStolen(st, run)
    ensures Owned(Exec(st, run))
    decreases |run|
  {
    if run != [] {
      OwnershipStep(st, run[0]);
      SoundStep(st, run[0]);
      OwnershipRun(Next(st, run[0]), run[1..]);
    }
  }

  /** Row by row, the later allocations are earlier ones with the same endpoint. */
  predicate SameEndpoints(pre: map<AllocId, AllocRow>, post: map<AllocId, AllocRow>) {
    forall a | a in post :: a in pre && post[a].node == pre[a].node && post[a].ip == pre[a].ip && post[a].port == pre[a].port
  }

  lemma AdvanceKeepsEndpoints(db: Db, s: ServerId, t: Task, ok: bool)
    requires s in db.servers
    ensures SameEndpoints(db.allocs, TaskStep(db, s, t, ok).db.allocs)
  {
    match t
    case Moving(_, _, _, _, _) =>
    case _ =>
  }

  lemma StepKeepsEndpoints(st: State, step: Step)
    requires Enabled(st, step) && !step.AddAlloc?
    ensures SameEndpoints(st.db.allocs, Next(st, step).db.allocs)
  {
    match step
    case Advance(s, ok) => AdvanceKeepsEndpoints(st.db, s, st.tasks[s], ok);
    case AddNode(_) =>
    case DropNode(_) =>
    case DropAlloc(_) =>
    case BeginTransfer(_, _, _, _) =>
    case _ =>
  }

  lemma EndpointsUniqueStep(st: State, step: Step)
    requires EndpointsUnique(st.db) && Enabled(st, step)
    ensures EndpointsUnique(Next(st, step).db)
  {
    if step.AddAlloc? {
      assert Next(st, step).db.allocs == st.db.allocs[step.a := AllocRow(step.n, step.ip, step.port, None)];
    } else {
      StepKeepsEndpoints(st, step);
    }
  }

  lemma {:induction false} EndpointsUniqueRun(st: State, run: seq<Step>)
    requires EndpointsUnique(st.db) && Legal(st, run)
    ensures EndpointsUnique(Exec(st, run).db)
    decreases |run|
  {
    if run != [] {
      EndpointsUniqueStep(st, run[0]);
      EndpointsUniqueRun(Next(st, run[0]), run[1..]);
    }
  }

  /**
    In every state reached from empty tables, two different servers never hold the same
    allocation nor the same ip and port on the same node, and a server between handlers has its
    allocation row name it, on its own node.
   */
  lemma NoTwoServersShareAnEndpoint(run: seq<Step>, s: ServerId, x: ServerId)
    requires Legal(EMPTY, run) && NoTargetStolen(EMPTY, run)
    requires var post := Exec(EMPTY, run);
             s in post.db.servers && x in post.db.servers && s != x
             && Held(post, s).Some? && Held(post, x).Some?
    ensures var post := Exec(EMPTY, run);
            var a, b := Held(post, s).value, Held(post, x).value;
            && a in post.db.allocs && b in post.db.allocs && a != b
            && (post.db.allocs[a].node, post.db.allocs[a].ip, post.db.allocs[a].port)
               != (post.db.allocs[b].node, post.db.allocs[b].ip, post.db.allocs[b].port)
    ensures var post := Exec(EMPTY, run);
            s !in post.tasks ==>
              var a := post.db.servers[s].alloc.value;
              post.db.allocs[a].server == Some(s) && post.db.allocs[a].node == post.db.servers[s].node
  {
    var post := Exec(EMPTY, run);
    OwnershipRun(EMPTY, run);
    EndpointsUniqueRun(EMPTY, run);
    assert HolderNamed(post, s) && HolderNamed(post, x);
  }
}
