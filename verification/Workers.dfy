/**
  The panel's install jobs (server.create and server.install): seven calls to the agent, some of
  whose replies are ignored, over a network that may lose requests or replies, while anything
  happens on the agent in between, other jobs for the same server included.
 */
module Workers {
  import opened Common
  import opened Agent

  const KEEP_ALIVE := "sleep infinity"

  datatype Net = Delivered | NeverArrived | AnswerLost

  /** What the rest of the world decides about one call; `others` is the agent's state when others have acted before it. */
  datatype Wire = Wire(others: Option<AgentState>, net: Net, prepared: bool, newId: ContainerId,
                       fault: Fault, each: ContainerId -> Fault)

  datatype ServerStatus = InstallPending | Installing | InstallFailed | Up

  /** The columns of the server and its egg that the install uses. */
  datatype InstallSpec = InstallSpec(startup: string, script: string)

  /** Nothing named after server s appeared between the two states; containers may have gone. */
  predicate NothingNew(pre: AgentState, post: AgentState, s: ServerId) {
    forall c | c in post.docker && post.docker[c].server == s ::
      c in pre.docker && pre.docker[c].server == s && pre.docker[c].command == post.docker[c].command
  }

  /** Any run of agent operations without a create for s, container losses and restarts included, is such an interval. */
  lemma {:induction false} RunWithoutCreateMakesNothingNew(a: AgentState, run: seq<Moment>, s: ServerId)
    requires Follows(a, run)
    requires forall i | 0 <= i < |run| :: run[i].op.Create? ==> run[i].op.server != s
    ensures NothingNew(a, Last(a, run), s)
    decreases |run|
  {
    if run != [] {
      var op, mid := run[0].op, run[0].post;
      assert NothingNew(a, mid, s) by {
        match op {
          case Create(_, _, _, _, _) =>
          case Start(_, _) =>
          case Stop(_, _) =>
          case Kill(_, _) =>
          case Remove(_, _, _) =>
          case Vanish(_) =>
          case RestartAgent(_) =>
        }
      }
      assert forall i | 0 <= i < |run[1..]| :: run[1..][i] == run[i + 1];
      RunWithoutCreateMakesNothingNew(mid, run[1..], s);
      assert Last(a, run) == Last(mid, run[1..]);
    }
  }

  /** Every container of the server was made with this command. */
  predicate AllRun(a: AgentState, s: ServerId, command: string) {
    forall c | c in a.docker && a.docker[c].server == s :: a.docker[c].command == command
  }

  /** A create for the server that Docker carries out, heard of or not. */
  predicate CarriedOut(a: AgentState, op: Op, s: ServerId) {
    op.Create? && op.server == s && op.prepared && op.fault != Refused && Named(a.docker, s) == {}
  }

  /** The command of the last create for s that Docker carried out along the run, or the one before it. */
  function LastCommand(a: AgentState, run: seq<Moment>, s: ServerId, before: string): string
    decreases |run|
  {
    if run == [] then before
    else LastCommand(run[0].post, run[1..], s, if CarriedOut(a, run[0].op, s) then run[0].op.command else before)
  }

  lemma AllRunStep(a: AgentState, op: Op, post: AgentState, reply: Reply, s: ServerId, command: string)
    requires Does(a, op, post, reply) && AllRun(a, s, command)
    ensures AllRun(post, s, if CarriedOut(a, op, s) then op.command else command)
  {
    match op
    case Create(_, _, _, newId, _) =>
      assert forall c | c in a.docker && a.docker[c].server == op.server :: c in Named(a.docker, op.server);
    case Start(_, _) =>
    case Stop(_, _) =>
    case Kill(_, _) =>
    case Remove(_, _, _) =>
    case Vanish(_) =>
    case RestartAgent(_) =>
  }

  lemma {:induction false} AllRunLast(a: AgentState, run: seq<Moment>, s: ServerId, command: string)
    requires Follows(a, run) && AllRun(a, s, command)
    ensures AllRun(Last(a, run), s, LastCommand(a, run, s, command))
    decreases |run|
  {
    if run != [] {
      var op, mid := run[0].op, run[0].post;
      AllRunStep(a, op, mid, run[0].reply, s, command);
      AllRunLast(mid, run[1..], s, if CarriedOut(a, op, s) then op.command else command);
      assert Last(a, run) == Last(mid, run[1..]);
    }
  }

  /**
    Whatever others do, installs of the same server included: the server's containers are the
    real ones in the end if and only if none is left, or the last create for the server that
    Docker carried out had the real command.
   */
  lemma RealAtTheEndIff(a: AgentState, run: seq<Moment>, s: ServerId, startup: string)
    requires Follows(a, run) && AllRun(a, s, startup)
    ensures AllRun(Last(a, run), s, startup) <==>
            Named(Last(a, run).docker, s) == {} || LastCommand(a, run, s, startup) == startup
  {
    AllRunLast(a, run, s, startup);
    var post := Last(a, run);
    if Named(post.docker, s) != {} {
      var c :| c in Named(post.docker, s);
      assert post.docker[c].command == LastCommand(a, run, s, startup);
    } else {
      assert forall c :: c in post.docker && post.docker[c].server == s ==> c in Named(post.docker, s);
    }
  }

  /** What a second install does to a server's indexed container before its own script runs. */
  function SecondInstall(a: AgentState, s: ServerId, newId: ContainerId, each: ContainerId -> Fault): seq<Moment> {
    var remove := Op.Remove(s, Fine, each);
    var (a1, r1) := DoRemove(a, s, Fine, each);
    var create := Op.Create(s, KEEP_ALIVE, true, newId, Fine);
    var (a2, r2) := DoCreate(a1, create);
    [Moment(remove, a1, r1), Moment(create, a2, r2)]
  }

  /**
    So a job can return normally and leave the keep-alive container: from every state with the
    server's one container indexed, a second install comes between the last create and the last
    start, which is answered well.
   */
  lemma SecondInstallLeavesKeepAlive(a: AgentState, s: ServerId, newId: ContainerId, each: ContainerId -> Fault, startup: string)
    requires s in a.index && Named(a.docker, s) == {a.index[s].cid} && AllRun(a, s, startup)
    requires newId !in a.docker && forall x | x in a.index :: a.index[x].cid != newId
    ensures var run := SecondInstall(a, s, newId, each);
            var (post, reply) := DoStart(Last(a, run), s, Fine);
            && Follows(a, run) && reply == Ok
            && Named(post.docker, s) == {newId} && post.docker[newId].command == KEEP_ALIVE
            && LastCommand(a, run, s, startup) == KEEP_ALIVE
  {
    var run := SecondInstall(a, s, newId, each);
    var a1, a2 := run[0].post, run[1].post;
    assert a.index[s].cid in Named(a.docker, s);
    assert Named(a1.docker, s) == {} by {
      assert forall c :: c in Named(a1.docker, s) ==> c in Named(a.docker, s);
    }
    assert run[1..] == [run[1]] && run[1..][1..] == [];
    assert Follows(a2, run[1..][1..]) && Follows(a1, run[1..]);
    assert LastCommand(a1, run[1..], s, startup) == LastCommand(a2, run[1..][1..], s, KEEP_ALIVE) == KEEP_ALIVE;
    assert forall c :: c in Named(a2.docker, s) ==> c == newId || c in Named(a1.docker, s);
    assert newId in Named(a2.docker, s);
    var post := DoStart(a2, s, Fine).0;
    assert Named(post.docker, s) == Named(a2.docker, s);
  }

  predicate Healthy(w: Wire) {
    w.others.None? && w.net == Delivered && w.prepared && w.fault == Fine
  }

  ghost predicate AllHealthy(wires: nat -> Wire) {
    forall i | 0 <= i < 7 :: Healthy(wires(i)) && forall c :: wires(i).each(c) == Fine
  }

  /** What the first removal of a job must find: no container of the server hides behind another id in the index. */
  ghost predicate Removable(a: AgentState, s: ServerId) {
    s in a.index ==> forall c | c in a.docker && a.docker[c].server == s :: c == a.index[s].cid
  }

  /** Wherever the index is complete, any leftover of an earlier attempt can be removed. */
  lemma LeftoverRemovable(a: AgentState, s: ServerId)
    requires Indexed(a)
    ensures Removable(a, s)
  {
  }

  /** The one call that leaves a retry a container it cannot remove: made without the agent hearing of it, over a stale entry. */
  predicate Strands(a: AgentState, op: Op, s: ServerId) {
    op.Create? && op.server == s && op.prepared && op.fault == Unheard && Named(a.docker, s) == {} && s in a.index
  }

  /** Whatever an attempt, failed or not, does on the agent: the next one can remove its leftover unless it strands one. */
  lemma RemovableStepIff(a: AgentState, op: Op, post: AgentState, reply: Reply, s: ServerId)
    requires NamesUnique(a) && Removable(a, s) && FreshId(a, op) && Does(a, op, post, reply)
    ensures Removable(post, s) <==> !Strands(a, op, s)
  {
    match op
    case Create(_, _, _, newId, _) =>
      assert forall c :: c in Named(a.docker, op.server) <==> c in a.docker && a.docker[c].server == op.server;
      if Strands(a, op, s) {
        assert newId in post.docker && post.docker[newId].server == s && post.index[s].cid != newId;
      }
    case Start(_, _) =>
    case Stop(_, _) =>
    case Kill(_, _) =>
    case Remove(_, _, _) =>
    case Vanish(_) =>
    case RestartAgent(_) =>
  }

  /** The state a call finds: what others have made of it. */
  function Found(a: AgentState, w: Wire): AgentState {
    if w.others.Some? then w.others.value else a
  }

  /** The server's one container: made with the real command, and indexed. */
  predicate Installed(a: AgentState, s: ServerId, c: ContainerId, startup: string) {
    && Named(a.docker, s) == {c} && c in a.docker && a.docker[c].command == startup
    && s in a.index && a.index[s].cid == c
  }

  predicate SameContainers(a: AgentState, b: AgentState, s: ServerId) {
    Named(a.docker, s) == Named(b.docker, s)
    && forall c | c in Named(a.docker, s) :: c in a.docker && c in b.docker && a.docker[c].command == b.docker[c].command
  }

  /**
    What a job that returned normally leaves. `created` is the state after its last create, with
    the real container in place; only its last start came after it, and what others did before that.
   */
  ghost predicate Leaves(created: AgentState, lastWindow: seq<Moment>, w: Wire, agent: AgentState, s: ServerId,
                         c: ContainerId, startup: string)
  {
    && Installed(created, s, c, startup)
    && SameContainers(Found(created, w), agent, s)
    && (NothingNew(created, Found(created, w), s) ==> AllRun(agent, s, startup) && Named(agent.docker, s) <= {c})
    && (w.others.None? ==> Named(agent.docker, s) == {c})
    && (Follows(created, lastWindow) && Last(created, lastWindow) == Found(created, w) ==>
          (AllRun(agent, s, startup) <==>
           Named(agent.docker, s) == {} || LastCommand(created, lastWindow, s, startup) == startup))
    && (Healthy(w) ==> c in agent.docker && agent.docker[c].running)
  }

  lemma SameRun(a: AgentState, b: AgentState, s: ServerId, command: string)
    requires SameContainers(a, b, s)
    ensures AllRun(a, s, command) <==> AllRun(b, s, command)
  {
    assert forall c :: c in Named(a.docker, s) <==> c in a.docker && a.docker[c].server == s;
    assert forall c :: c in Named(b.docker, s) <==> c in b.docker && b.docker[c].server == s;
  }

  lemma LeavesReal(created: AgentState, lastWindow: seq<Moment>, w: Wire, agent: AgentState, s: ServerId,
                   c: ContainerId, startup: string)
    requires Installed(created, s, c, startup) && SameContainers(Found(created, w), agent, s)
    requires Healthy(w) ==> c in agent.docker && agent.docker[c].running
    ensures Leaves(created, lastWindow, w, agent, s, c, startup)
  {
    var before := Found(created, w);
    SameRun(before, agent, s, startup);
    assert AllRun(created, s, startup) by {
      assert forall x | x in created.docker && created.docker[x].server == s :: x in Named(created.docker, s);
    }
    if NothingNew(created, before, s) {
      assert forall x | x in Named(before.docker, s) :: x in Named(created.docker, s);
    }
    if Follows(created, lastWindow) && Last(created, lastWindow) == before {
      RealAtTheEndIff(created, lastWindow, s, startup);
    }
  }

  /** Nobody else acts on the agent while the job runs. */
  ghost predicate Undisturbed(wires: nat -> Wire) {
    forall i: nat | i < 7 :: wires(i).others.None?
  }

  /** A create that Docker may have carried out although the job takes it for failed. */
  predicate AnswerMissing(w: Wire) {
    w.net == AnswerLost || w.fault == Unheard
  }

  /** The server's containers are earlier ones, or the one made here, with this command. */
  ghost predicate Made(before: AgentState, after: AgentState, s: ServerId, newId: ContainerId, command: string) {
    forall c | c in after.docker && after.docker[c].server == s ::
      || (c in before.docker && before.docker[c].server == s && before.docker[c].command == after.docker[c].command)
      || (c == newId && after.docker[c].command == command)
  }

  lemma CallMakes(a: AgentState, op: Op, post: AgentState, reply: Reply, s: ServerId)
    requires op.Create? || op.Start? || op.Remove?
    requires Does(a, op, post, reply) && op.server == s
    ensures op.Create? ==> Made(a, post, s, op.newId, op.command)
    ensures !op.Create? || (reply != Ok && op.fault != Unheard) ==> NothingNew(a, post, s)
  {
    match op
    case Create(_, _, _, _, _) =>
    case Start(_, _) =>
    case Remove(_, _, _) =>
  }

  /**
    What a failed install may leave of the server: what was there before it, the keep-alive
    container, or, only where the answer to the last create went missing, the real one.
   */
  ghost predicate Leftover(before: AgentState, after: AgentState, s: ServerId, keepAlive: ContainerId, last: ContainerId,
                           startup: string, missing: bool)
  {
    forall c | c in after.docker && after.docker[c].server == s ::
      || (c in before.docker && before.docker[c].server == s && before.docker[c].command == after.docker[c].command)
      || (c == keepAlive && after.docker[c].command == "sleep infinity")
      || (missing && c == last && after.docker[c].command == startup)
  }

  class JobWorker {
    var agent: AgentState
    var status: ServerStatus
    var installed: bool
    var scripts: seq<string> // the install scripts that have reached the agent

    /** agentPost: others act first, then the request may arrive and its answer may come back. */
    method Post(op: Op, w: Wire) returns (reply: Reply)
      requires op.Create? || op.Start? || op.Remove?
      modifies this`agent
      ensures exists post, answer :: Does(Found(old(agent), w), op, post, answer)
                && agent == (if w.net == NeverArrived then Found(old(agent), w) else post)
                && reply == (if w.net == Delivered then answer else Failed)
    {
      if w.others.Some? {
        agent := w.others.value;
      }
      var (post, answer) :=
        match op
        case Create(_, _, _, _, _) => DoCreate(agent, op)
        case Start(server, fault) => DoStart(agent, server, fault)
        case Remove(server, fault, each) => DoRemove(agent, server, fault, each)
        case _ => (agent, Failed);
      assert Does(Found(old(agent), w), op, post, answer);
      if w.net == NeverArrived {
        return Failed;
      }
      agent := post;
      return if w.net == Delivered then answer else Failed;
    }

    method PostRemove(s: ServerId, w: Wire)
      modifies this`agent
      ensures Healthy(w) ==> agent == DoRemove(old(agent), s, Fine, w.each).0
      ensures w.others.None? ==> NothingNew(old(agent), agent, s)
    {
      var op := Op.Remove(s, w.fault, w.each);
      ghost var before := Found(agent, w);
      var ignored := Post(op, w);
      ghost var post, answer :| Does(before, op, post, answer) && agent == (if w.net == NeverArrived then before else post);
      CallMakes(before, op, post, answer, s);
    }

    method PostCreate(s: ServerId, command: string, w: Wire) returns (ok: bool)
      modifies this`agent
      ensures ok ==> Named(agent.docker, s) == {w.newId} && agent.docker[w.newId].command == command
                     && s in agent.index && agent.index[s].cid == w.newId
      ensures Healthy(w) ==> (ok <==> Named(old(agent).docker, s) == {})
      ensures w.others.None? ==> Made(old(agent), agent, s, w.newId, command)
      ensures w.others.None? && !ok && !AnswerMissing(w) ==> NothingNew(old(agent), agent, s)
    {
      var op := Op.Create(s, command, w.prepared, w.newId, w.fault);
      ghost var found := Found(agent, w);
      var reply := Post(op, w);
      ghost var post, answer :| Does(found, op, post, answer) && agent == (if w.net == NeverArrived then found else post)
                                && reply == (if w.net == Delivered then answer else Failed);
      CallMakes(found, op, post, answer, s);
      ok := reply == Ok;
      if ok {
        ghost var before := Found(old(agent), w);
        assert agent == DoCreate(before, op).0;
        assert forall c | c in Named(agent.docker, s) :: c == w.newId || c in Named(before.docker, s);
      }
    }

    method PostStart(s: ServerId, w: Wire) returns (ok: bool)
      modifies this`agent
      ensures SameContainers(Found(old(agent), w), agent, s)
      ensures w.others.None? ==> NothingNew(old(agent), agent, s)
      ensures Healthy(w) && s in old(agent).index && old(agent).index[s].cid in old(agent).docker ==>
                ok && s in agent.index && agent.index[s].cid == old(agent).index[s].cid
                && agent.index[s].cid in agent.docker && agent.docker[agent.index[s].cid].running
    {
      var op := Op.Start(s, w.fault);
      ghost var before := Found(agent, w);
      var reply := Post(op, w);
      ghost var post, answer :| Does(before, op, post, answer) && agent == (if w.net == NeverArrived then before else post);
      CallMakes(before, op, post, answer, s);
      ok := reply == Ok;
    }

    /** An empty install script is not sent. The script changes files, not containers; its reply only makes a log line. */
    method PostInstallScript(s: ServerId, script: string, w: Wire)
      modifies this`agent, this`scripts
      ensures agent == if script == "" then old(agent) else Found(old(agent), w)
      ensures scripts == old(scripts) + if script != "" && w.net != NeverArrived then [script] else []
    {
      if script == "" {
        return;
      }
      if w.others.Some? {
        agent := w.others.value;
      }
      if w.net != NeverArrived {
        scripts := scripts + [script];
      }
    }

    /** server.create. The reply to the keep-alive start is only logged. */
    method ServerCreate(s: ServerId, row: Option<InstallSpec>, nodeFound: bool, wires: nat -> Wire,
                        ghost lastWindow: seq<Moment>)
      returns (threw: bool, ghost created: AgentState)
      modifies this
      ensures !threw ==> row.Some? && nodeFound && status == Up && installed
      ensures !threw ==> Leaves(created, lastWindow, wires(6), agent, s, wires(5).newId, row.value.startup)
      ensures !threw ==>
                scripts == old(scripts)
                           + if row.value.script != "" && wires(3).net != NeverArrived then [row.value.script] else []
      ensures threw ==> installed == old(installed)
                        && (row.None? || !nodeFound ==> agent == old(agent) && scripts == old(scripts)
                                                        && status == if row.None? then old(status) else Installing)
                        && (row.Some? && nodeFound ==> status == InstallFailed)
      ensures threw && row.Some? && nodeFound && Undisturbed(wires) ==>
                Leftover(old(agent), agent, s, wires(1).newId, wires(5).newId, row.value.startup, AnswerMissing(wires(5)))
      ensures row.Some? && nodeFound && AllHealthy(wires) ==> (!threw <==> Removable(old(agent), s))
    {
      if row.None? {
        return true, agent;
      }
      status := Installing;
      if !nodeFound {
        return true, agent;
      }
      PostRemove(s, wires(0));
      RemovedIff(old(agent), s, wires(0));
      var ok := PostCreate(s, KEEP_ALIVE, wires(1));
      if !ok {
        status := InstallFailed;
        return true, agent;
      }
      var ignored := PostStart(s, wires(2));
      PostInstallScript(s, row.value.script, wires(3));
      threw, created := Finish(s, row.value, wires, lastWindow);
    }

    /** server.install. Unlike server.create it gives up when the keep-alive container does not start. */
    method ServerInstall(s: ServerId, row: Option<InstallSpec>, nodeFound: bool, wires: nat -> Wire,
                        ghost lastWindow: seq<Moment>)
      returns (threw: bool, ghost created: AgentState)
      modifies this
      ensures !threw ==> row.Some? && nodeFound && status == Up && installed
      ensures !threw ==> Leaves(created, lastWindow, wires(6), agent, s, wires(5).newId, row.value.startup)
      ensures !threw ==>
                scripts == old(scripts)
                           + if row.value.script != "" && wires(3).net != NeverArrived then [row.value.script] else []
      ensures threw ==> installed == old(installed)
                        && (row.None? || !nodeFound ==> status == old(status) && agent == old(agent) && scripts == old(scripts))
                        && (row.Some? && nodeFound ==> status == InstallFailed)
      ensures threw && row.Some? && nodeFound && Undisturbed(wires) ==>
                Leftover(old(agent), agent, s, wires(1).newId, wires(5).newId, row.value.startup, AnswerMissing(wires(5)))
      ensures row.Some? && nodeFound && AllHealthy(wires) ==> (!threw <==> Removable(old(agent), s))
    {
      if !nodeFound || row.None? {
        return true, agent;
      }
      PostRemove(s, wires(0));
      RemovedIff(old(agent), s, wires(0));
      var ok := PostCreate(s, KEEP_ALIVE, wires(1));
      if !ok {
        status := InstallFailed;
        return true, agent;
      }
      ok := PostStart(s, wires(2));
      if !ok {
        status := InstallFailed;
        return true, agent;
      }
      PostInstallScript(s, row.value.script, wires(3));
      threw, created := Finish(s, row.value, wires, lastWindow);
    }

    /** The part the two jobs share: replace the keep-alive container by the real one. */
    method Finish(s: ServerId, row: InstallSpec, wires: nat -> Wire, ghost lastWindow: seq<Moment>)
      returns (threw: bool, ghost created: AgentState)
      modifies this`agent, this`status, this`installed
      ensures !threw ==> status == Up && installed
      ensures !threw ==> Leaves(created, lastWindow, wires(6), agent, s, wires(5).newId, row.startup)
      ensures threw ==> status == InstallFailed && installed == old(installed)
      ensures threw && Undisturbed(wires) ==> Made(old(agent), agent, s, wires(5).newId, row.startup)
      ensures threw && Undisturbed(wires) && !AnswerMissing(wires(5)) ==> NothingNew(old(agent), agent, s)
      ensures AllHealthy(wires) && s in old(agent).index && Named(old(agent).docker, s) == {old(agent).index[s].cid} ==> !threw
    {
      PostRemove(s, wires(4));
      RemovedIff(old(agent), s, wires(4));
      var ok := PostCreate(s, row.startup, wires(5));
      if !ok {
        status := InstallFailed;
        return true, agent;
      }
      created := agent;
      var ignored := PostStart(s, wires(6));
      LeavesReal(created, lastWindow, wires(6), agent, s, wires(5).newId, row.startup);
      status, installed := Up, true;
      threw := false;
    }
  }

  /** A healthy removal leaves nothing under the server's name exactly when the leftover was removable. */
  lemma RemovedIff(a: AgentState, s: ServerId, w: Wire)
    ensures (forall c :: w.each(c) == Fine) ==>
              (Named(DoRemove(a, s, Fine, w.each).0.docker, s) == {} <==> Removable(a, s))
  {
    var post := DoRemove(a, s, Fine, w.each).0.docker;
    if (forall c :: w.each(c) == Fine) && !Removable(a, s) {
      var c :| c in a.docker && a.docker[c].server == s && c != a.index[s].cid;
      assert c in Named(post, s);
    }
    assert forall c :: c in Named(post, s) ==> c in a.docker && a.docker[c].server == s;
  }
}
