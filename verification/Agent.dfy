/**
  The node agent's container manager and the Docker engine below it. Docker keeps containers
  under unique names (one name per server); the manager keeps an in-memory index from servers
  to container ids. Every Docker call may go through, be refused, or take effect with its reply lost.
 */
module Agent {
  type ServerId = nat
  type ContainerId = nat

  /** A managed container: the server in its name and label, and the command it was created with. */
  datatype Container = Container(server: ServerId, command: string, running: bool)

  datatype Fault = Fine | Refused | Unheard

  datatype Status = Created | Running | Stopped | Restored
  datatype Entry = Entry(cid: ContainerId, status: Status)

  /** Docker's containers and the manager's index. */
  datatype AgentState = AgentState(docker: map<ContainerId, Container>, index: map<ServerId, Entry>)

  /** Ok, "container not found for server", or any other error text. */
  datatype Reply = Ok | NotTracked | Failed

  datatype Op =
    | Create(server: ServerId, command: string, prepared: bool, newId: ContainerId, fault: Fault)
    | Start(server: ServerId, fault: Fault)
    | Stop(server: ServerId, fault: Fault)
    | Kill(server: ServerId, fault: Fault)
    | Remove(server: ServerId, fault: Fault, each: ContainerId -> Fault)
    | Vanish(cid: ContainerId) // a container removed from outside the agent
    | RestartAgent(listed: bool) // a new process; whether Restore could list the containers

  /** The containers that carry a server's name. */
  function Named(docker: map<ContainerId, Container>, s: ServerId): set<ContainerId> {
    set c | c in docker && docker[c].server == s
  }

  /** Docker gives a new container an identifier that it has never used. */
  predicate FreshId(a: AgentState, op: Op) {
    op.Create? ==> op.newId !in a.docker && forall s | s in a.index :: a.index[s].cid != op.newId
  }

  /** ContainerCreate under the server's name, which must be free; new id and whether the caller hears of it. */
  function DockerCreate(docker: map<ContainerId, Container>, op: Op): map<ContainerId, Container>
    requires op.Create?
  {
    if Named(docker, op.server) == {} && op.fault != Refused
    then docker[op.newId := Container(op.server, op.command, false)]
    else docker
  }

  function SetRunning(docker: map<ContainerId, Container>, c: ContainerId, running: bool): map<ContainerId, Container> {
    if c in docker then docker[c := docker[c].(running := running)] else docker
  }

  function DoCreate(a: AgentState, op: Op): (AgentState, Reply)
    requires op.Create?
  {
    if !op.prepared then (a, Failed) // no data directory, or no image
    else
      var docker := DockerCreate(a.docker, op);
      if Named(a.docker, op.server) == {} && op.fault == Fine
      then (AgentState(docker, a.index[op.server := Entry(op.newId, Created)]), Ok)
      else (a.(docker := docker), Failed)
  }

  function DoStart(a: AgentState, s: ServerId, fault: Fault): (AgentState, Reply) {
    if s !in a.index then (a, NotTracked)
    else
      var e := a.index[s];
      if fault == Refused then (a, Failed)
      else if e.cid !in a.docker then
        if fault == Unheard then (a, Failed)
        else (a.(index := a.index - {s}), NotTracked) // stale entry
      else
        var docker := SetRunning(a.docker, e.cid, true);
        if fault == Unheard then (a.(docker := docker), Failed)
        else (AgentState(docker, a.index[s := e.(status := Running)]), Ok)
  }

  /** Stop and Kill differ only in the signal and the event they log. */
  function DoHalt(a: AgentState, s: ServerId, fault: Fault): (AgentState, Reply) {
    if s !in a.index then (a, NotTracked)
    else
      var e := a.index[s];
      if fault == Refused || e.cid !in a.docker then (a, Failed)
      else
        var docker := SetRunning(a.docker, e.cid, false);
        if fault == Unheard then (a.(docker := docker), Failed)
        else (AgentState(docker, a.index[s := e.(status := Stopped)]), Ok)
  }

  function DoRemove(a: AgentState, s: ServerId, fault: Fault, each: ContainerId -> Fault): (AgentState, Reply) {
    if s in a.index then
      var e := a.index[s];
      if fault == Refused || e.cid !in a.docker then (a, Failed)
      else if fault == Unheard then (a.(docker := a.docker - {e.cid}), Failed)
      else (AgentState(a.docker - {e.cid}, a.index - {s}), Ok)
    else if fault != Fine then (a, Failed) // the list of labelled containers did not come
    else (a.(docker := map c | c in a.docker && (a.docker[c].server == s ==> each(c) == Refused) :: a.docker[c]), Ok)
  }

  /** The index a new process builds: the last listed container of each server wins. */
  predicate RestoredIndex(docker: map<ContainerId, Container>, index: map<ServerId, Entry>) {
    && (forall c | c in docker :: docker[c].server in index)
    && (forall s | s in index :: index[s].cid in docker && docker[index[s].cid].server == s && index[s].status == Restored)
  }

  /** One operation, as a relation: only the order in which Restore lists same-named containers is open. */
  predicate Does(a: AgentState, op: Op, post: AgentState, reply: Reply) {
    match op
    case Create(_, _, _, _, _) => (post, reply) == DoCreate(a, op)
    case Start(s, fault) => (post, reply) == DoStart(a, s, fault)
    case Stop(s, fault) => (post, reply) == DoHalt(a, s, fault)
    case Kill(s, fault) => (post, reply) == DoHalt(a, s, fault)
    case Remove(s, fault, each) => (post, reply) == DoRemove(a, s, fault, each)
    case Vanish(c) => post == a.(docker := a.docker - {c}) && reply == Ok
    case RestartAgent(listed) =>
      reply == Ok && post.docker == a.docker
      && (if listed then RestoredIndex(a.docker, post.index) else post.index == map[])
  }

  /** Docker's own guarantee. */
  ghost predicate NamesUnique(a: AgentState) {
    forall c, d | c in a.docker && d in a.docker && a.docker[c].server == a.docker[d].server :: c == d
  }

  /** Every managed container has an index entry with its own id. */
  ghost predicate Indexed(a: AgentState) {
    forall c | c in a.docker :: a.docker[c].server in a.index && a.index[a.docker[c].server].cid == c
  }

  lemma IndexedNamesUnique(a: AgentState)
    requires Indexed(a)
    ensures NamesUnique(a)
  {
  }

  lemma NamesUniqueStep(a: AgentState, op: Op, post: AgentState, reply: Reply)
    requires NamesUnique(a) && Does(a, op, post, reply)
    ensures NamesUnique(post)
  {
    if op.Create? && post.docker != a.docker {
      forall c | c in a.docker ensures a.docker[c].server != op.server {
        assert c !in Named(a.docker, op.server);
      }
    }
  }

  /**
    The steps that leave a container the index does not know: a create that Docker carried out
    without the agent hearing of it, and a restart that could not list what is there.
   */
  predicate LosesTrack(a: AgentState, op: Op) {
    match op
    case Create(s, _, prepared, _, fault) => prepared && fault == Unheard && Named(a.docker, s) == {}
    case RestartAgent(listed) => !listed && a.docker != map[]
    case _ => false
  }

  /**
    Of operations that run one after the other, each keeps the index complete exactly when it is
    not one of those. Module AgentOverlap splits them and lets them overlap.
   */
  lemma IndexedStepIff(a: AgentState, op: Op, post: AgentState, reply: Reply)
    requires Indexed(a) && FreshId(a, op) && Does(a, op, post, reply)
    ensures Indexed(post) <==> !LosesTrack(a, op)
  {
    match op {
      case Create(s, _, _, newId, _) =>
        forall c | c in a.docker && a.docker[c].server == s ensures c in Named(a.docker, s) {
        }
        if LosesTrack(a, op) {
          assert newId in post.docker && post.docker[newId].server == s;
        }
      case Start(s, _) =>
      case Stop(s, _) =>
      case Kill(s, _) =>
      case Remove(s, _, _) =>
      case Vanish(_) =>
      case RestartAgent(listed) =>
        IndexedNamesUnique(a);
        if LosesTrack(a, op) {
          var c :| c in a.docker;
          assert c in post.docker && post.docker[c].server !in post.index;
        }
    }
  }

  /** What one call of the agent left behind. */
  datatype Moment = Moment(op: Op, post: AgentState, reply: Reply)

  ghost predicate Follows(a: AgentState, run: seq<Moment>)
    decreases |run|
  {
    run == [] ||
    (Does(a, run[0].op, run[0].post, run[0].reply) && FreshId(a, run[0].op) && Follows(run[0].post, run[1..]))
  }

  function Last(a: AgentState, run: seq<Moment>): AgentState {
    if run == [] then a else run[|run| - 1].post
  }

  ghost predicate KeepsTrack(a: AgentState, run: seq<Moment>)
    decreases |run|
  {
    run == [] || (!LosesTrack(a, run[0].op) && KeepsTrack(run[0].post, run[1..]))
  }

  /**
    Over every run of creates, starts, stops, kills and removals, with any replies refused or
    lost, containers removed from outside and restarts that restore, each managed container
    has an index entry with its id.
   */
  lemma {:induction false} IndexedRun(a: AgentState, run: seq<Moment>)
    requires Indexed(a) && Follows(a, run) && KeepsTrack(a, run)
    ensures Indexed(Last(a, run))
    decreases |run|
  {
    if run != [] {
      IndexedStepIff(a, run[0].op, run[0].post, run[0].reply);
      IndexedRun(run[0].post, run[1..]);
    }
  }

  // ---------------------------------------------------------------- what one operation does, and to whom

  /** What Docker and the index are after an operation that was answered well. */
  ghost predicate Succeeded(a: AgentState, op: Op, post: AgentState) {
    match op
    case Create(s, command, _, newId, _) =>
      && (forall c | c in a.docker :: a.docker[c].server != s)
      && post.docker == a.docker[newId := Container(s, command, false)]
      && post.index == a.index[s := Entry(newId, Created)]
    case Start(s, _) =>
      && s in a.index && a.index[s].cid in a.docker
      && post.docker == a.docker[a.index[s].cid := a.docker[a.index[s].cid].(running := true)]
      && post.index == a.index[s := Entry(a.index[s].cid, Running)]
    case Stop(s, _) => Halted(a, s, post)
    case Kill(s, _) => Halted(a, s, post)
    case Remove(s, _, each) =>
      if s in a.index then post.docker == a.docker - {a.index[s].cid} && post.index == a.index - {s}
      else
        && post.index == a.index
        && (forall c | c in post.docker :: c in a.docker && post.docker[c] == a.docker[c])
        && (forall c | c in a.docker :: c !in post.docker <==> a.docker[c].server == s && each(c) != Refused)
    case Vanish(_) => true
    case RestartAgent(_) => true
  }

  /** The server's container, and no other, has been made to stop. */
  ghost predicate Halted(a: AgentState, s: ServerId, post: AgentState) {
    && s in a.index && a.index[s].cid in a.docker
    && post.docker == a.docker[a.index[s].cid := a.docker[a.index[s].cid].(running := false)]
    && post.index == a.index[s := Entry(a.index[s].cid, Stopped)]
  }

  /** Docker's part of the operation may have been done although the answer was bad, but only if the answer was lost. */
  lemma AnswersMean(a: AgentState, op: Op, post: AgentState, reply: Reply)
    requires op.Create? || op.Start? || op.Stop? || op.Kill? || op.Remove?
    requires Does(a, op, post, reply)
    ensures reply == Ok ==> Succeeded(a, op, post)
    ensures reply == Failed ==> post.index == a.index
    ensures reply != Ok && op.fault != Unheard ==> post.docker == a.docker
    ensures reply == NotTracked ==> post == a || (op.Start? && Stale(a, op.server) && post == a.(index := a.index - {op.server}))
  {
    match op
    case Create(s, _, _, _, _) =>
      assert forall c | c in a.docker && a.docker[c].server == s :: c in Named(a.docker, s);
    case Start(_, _) =>
    case Stop(_, _) =>
    case Kill(_, _) =>
    case Remove(_, _, _) =>
  }

  /** What there is of one server: its containers and its index entry. */
  predicate SameServer(a: AgentState, b: AgentState, s: ServerId) {
    && Named(a.docker, s) == Named(b.docker, s)
    && (forall c | c in Named(a.docker, s) :: c in a.docker && c in b.docker && a.docker[c] == b.docker[c])
    && (s in a.index <==> s in b.index) && (s in a.index ==> s in b.index && a.index[s] == b.index[s])
  }

  /** An index entry leads to a container of its own server, or to none. */
  ghost predicate EntriesOwn(a: AgentState) {
    forall s | s in a.index && a.index[s].cid in a.docker :: a.docker[a.index[s].cid].server == s
  }

  lemma EntriesOwnStep(a: AgentState, op: Op, post: AgentState, reply: Reply)
    requires EntriesOwn(a) && FreshId(a, op) && Does(a, op, post, reply)
    ensures EntriesOwn(post)
  {
    match op
    case Create(_, _, _, _, _) =>
    case Start(_, _) =>
    case Stop(_, _) =>
    case Kill(_, _) =>
    case Remove(_, _, _) =>
    case Vanish(_) =>
    case RestartAgent(_) =>
  }

  /** The operation is on another server. */
  predicate Elsewhere(op: Op, s: ServerId) {
    (op.Create? || op.Start? || op.Stop? || op.Kill? || op.Remove?) && op.server != s
  }

  /** An operation on one server leaves every other server's containers and index entry as they are. */
  lemma OthersUntouched(a: AgentState, op: Op, post: AgentState, reply: Reply, s: ServerId)
    requires EntriesOwn(a) && FreshId(a, op) && Does(a, op, post, reply) && Elsewhere(op, s)
    ensures SameServer(a, post, s)
  {
  }

  /** And so does every run of such operations. */
  lemma {:induction false} OthersUntouchedRun(a: AgentState, run: seq<Moment>, s: ServerId)
    requires EntriesOwn(a) && Follows(a, run) && forall i | 0 <= i < |run| :: Elsewhere(run[i].op, s)
    ensures SameServer(a, Last(a, run), s)
    decreases |run|
  {
    if run != [] {
      var mid := run[0].post;
      OthersUntouched(a, run[0].op, mid, run[0].reply, s);
      EntriesOwnStep(a, run[0].op, mid, run[0].reply);
      assert forall i | 0 <= i < |run[1..]| :: run[1..][i] == run[i + 1];
      OthersUntouchedRun(mid, run[1..], s);
      assert Last(a, run) == Last(mid, run[1..]);
    }
  }

  predicate Stale(a: AgentState, s: ServerId) {
    s in a.index && a.index[s].cid !in a.docker
  }

  /**
    A stale entry survives every operation on its server but the first start that reaches
    Docker and hears that the container is gone (and a successful create, which replaces it).
   */
  lemma StaleEntryDroppedIff(a: AgentState, op: Op, post: AgentState, reply: Reply)
    requires op.Start? || op.Stop? || op.Kill? || op.Remove? || op.Create?
    requires Stale(a, op.server) && FreshId(a, op) && Does(a, op, post, reply)
    ensures op.server !in post.index <==> op.Start? && op.fault == Fine
    ensures Stale(post, op.server) <==> !(op.Start? && op.fault == Fine) && !(op.Create? && reply == Ok)
    ensures reply == NotTracked <==> op.Start? && op.fault == Fine
  {
  }

  /** The manager object: its methods make the Docker calls and update the index in their order. */
  class Manager {
    var docker: map<ContainerId, Container> // the engine's state, changed only by Docker calls
    var containers: map<ServerId, Entry>

    function State(): AgentState
      reads this
    {
      AgentState(docker, containers)
    }

    /** NewManager: an empty index filled by Restore; an error of Restore is only logged. */
    constructor (engine: map<ContainerId, Container>, listed: bool)
      ensures Does(AgentState(engine, map[]), RestartAgent(listed), State(), Ok)
    {
      docker := engine;
      containers := map[];
      new;
      if listed {
        Restore();
      }
    }

    method Restore()
      requires containers == map[]
      modifies this`containers
      ensures RestoredIndex(docker, containers)
    {
      var todo := docker.Keys;
      while todo != {}
        invariant todo <= docker.Keys
        invariant forall c | c in docker && c !in todo :: docker[c].server in containers
        invariant forall s | s in containers ::
                    containers[s].cid in docker && docker[containers[s].cid].server == s && containers[s].status == Restored
        decreases todo
      {
        var c :| c in todo;
        containers := containers[docker[c].server := Entry(c, Restored)];
        todo := todo - {c};
      }
    }

    method Create(s: ServerId, command: string, prepared: bool, newId: ContainerId, fault: Fault) returns (reply: Reply)
      requires newId !in docker
      modifies this
      ensures Does(old(State()), Op.Create(s, command, prepared, newId, fault), State(), reply)
    {
      if !prepared {
        return Failed;
      }
      var taken := Named(docker, s) != {};
      docker := DockerCreate(docker, Op.Create(s, command, prepared, newId, fault));
      if taken || fault != Fine {
        return Failed;
      }
      containers := containers[s := Entry(newId, Created)];
      return Ok;
    }

    method Start(s: ServerId, fault: Fault) returns (reply: Reply)
      modifies this
      ensures Does(old(State()), Op.Start(s, fault), State(), reply)
    {
      if s !in containers {
        return NotTracked;
      }
      var sc := containers[s];
      if fault != Refused && sc.cid in docker {
        docker := SetRunning(docker, sc.cid, true);
      }
      if fault != Fine {
        return Failed;
      }
      if sc.cid !in docker {
        containers := containers - {s};
        return NotTracked;
      }
      containers := containers[s := sc.(status := Running)];
      return Ok;
    }

    method Stop(s: ServerId, fault: Fault) returns (reply: Reply)
      modifies this
      ensures Does(old(State()), Op.Stop(s, fault), State(), reply)
    {
      if s !in containers {
        return NotTracked;
      }
      var sc := containers[s];
      if fault != Refused && sc.cid in docker {
        docker := SetRunning(docker, sc.cid, false);
      }
      if fault != Fine || sc.cid !in docker {
        return Failed;
      }
      containers := containers[s := sc.(status := Stopped)];
      return Ok;
    }

    /** Restart stops first, and starts only when the stop was answered well. */
    method Restart(s: ServerId, stopFault: Fault, startFault: Fault) returns (reply: Reply)
      modifies this
      ensures var (mid, stopped) := DoHalt(old(State()), s, stopFault);
              (State(), reply) == if stopped == Ok then DoStart(mid, s, startFault) else (mid, stopped)
    {
      reply := Stop(s, stopFault);
      if reply == Ok {
        reply := Start(s, startFault);
      }
    }

    method Kill(s: ServerId, fault: Fault) returns (reply: Reply)
      modifies this
      ensures Does(old(State()), Op.Kill(s, fault), State(), reply)
    {
      if s !in containers {
        return NotTracked;
      }
      var sc := containers[s];
      if fault != Refused && sc.cid in docker {
        docker := SetRunning(docker, sc.cid, false);
      }
      if fault != Fine || sc.cid !in docker {
        return Failed;
      }
      containers := containers[s := sc.(status := Stopped)];
      return Ok;
    }

    /** The tracked container, or without an entry every container that carries the server's label. */
    method Remove(s: ServerId, fault: Fault, each: ContainerId -> Fault) returns (reply: Reply)
      modifies this
      ensures Does(old(State()), Op.Remove(s, fault, each), State(), reply)
    {
      if s in containers {
        var sc := containers[s];
        var found := sc.cid in docker;
        if fault != Refused {
          docker := docker - {sc.cid};
        }
        assert found || docker == old(docker);
        if fault != Fine || !found {
          return Failed;
        }
        containers := containers - {s};
        return Ok;
      }
      if fault != Fine {
        return Failed;
      }
      var todo := Named(docker, s);
      while todo != {}
        invariant todo <= Named(old(docker), s) && containers == old(containers)
        invariant docker == map c | c in old(docker) && (c in Named(old(docker), s) - todo ==> each(c) == Refused) :: old(docker)[c]
        decreases todo
      {
        var c :| c in todo;
        if each(c) != Refused { // the reply is not looked at
          docker := docker - {c};
        }
        todo := todo - {c};
      }
      assert docker == DoRemove(old(State()), s, fault, each).0.docker;
      return Ok;
    }
  }
}
