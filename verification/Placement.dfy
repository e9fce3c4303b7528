/**
  The panel's placement tables (nodes, allocations, servers, server_transfers) and the
  handlers that change them, one SQL statement at a time. A handler that is between two
  statements is a Task; any number of servers may have one in flight, and a Step is one
  statement of one of them (or one statement of an administrator's request).
 */
module Placement {
  import opened Common

  type NodeId = nat
  type AllocId = nat
  type ServerId = nat
  type TransferId = nat

  datatype Resource = Memory | Disk

  /** An amount of each of the two counted resources, in megabytes. */
  datatype Amounts = Amounts(memory: int, disk: int) {
    function Of(r: Resource): int {
      if r == Memory then memory else disk
    }
    function Plus(other: Amounts): Amounts {
      Amounts(memory + other.memory, disk + other.disk)
    }
    function Minus(other: Amounts): Amounts {
      Amounts(memory - other.memory, disk - other.disk)
    }
  }

  lemma OfTells(memory: int, disk: int)
    ensures Amounts(memory, disk).Of(Memory) == memory && Amounts(memory, disk).Of(Disk) == disk
  {
  }

  datatype AllocRow = AllocRow(node: NodeId, ip: string, port: int, server: Option<ServerId>)
  datatype ServerRow = ServerRow(node: NodeId, alloc: Option<AllocId>, size: Amounts)
  datatype TransferStatus = Pending | Transferring | Completed | Failed
  datatype TransferRow = TransferRow(server: ServerId, oldNode: NodeId, newNode: NodeId,
                                     oldAlloc: Option<AllocId>, newAlloc: AllocId, status: TransferStatus)

  /** The tables. A node's row is its pair of allocated counters. */
  datatype Db = Db(nodes: map<NodeId, Amounts>,
                   allocs: map<AllocId, AllocRow>,
                   servers: map<ServerId, ServerRow>,
                   transfers: map<TransferId, TransferRow>)
  {
    /** UPDATE allocations SET server_id = owner WHERE id = a; a null id matches no row. */
    function Assign(a: Option<AllocId>, owner: Option<ServerId>): Db {
      if a.Some? && a.value in allocs
      then this.(allocs := allocs[a.value := allocs[a.value].(server := owner)])
      else this
    }

    /** UPDATE nodes SET allocated_... = allocated_... + amounts WHERE id = n. */
    function Charge(n: NodeId, amounts: Amounts): Db {
      if n in nodes then this.(nodes := nodes[n := nodes[n].Plus(amounts)]) else this
    }

    /** UPDATE nodes SET allocated_... = allocated_... - amounts WHERE id = n. */
    function Release(n: NodeId, amounts: Amounts): Db {
      if n in nodes then this.(nodes := nodes[n := nodes[n].Minus(amounts)]) else this
    }

    /** UPDATE servers SET node_id = n, allocation_id = a WHERE id = s. */
    function Move(s: ServerId, n: NodeId, a: AllocId): Db {
      if s in servers
      then this.(servers := servers[s := servers[s].(node := n, alloc := Some(a))])
      else this
    }

    /** UPDATE server_transfers SET status = status WHERE id = t. */
    function Mark(t: TransferId, status: TransferStatus): Db {
      if t in transfers then this.(transfers := transfers[t := transfers[t].(status := status)]) else this
    }
  }

  /** The next statement or agent call of runTransfer; the last three run in its catch block. */
  datatype TransferPc =
    | MarkTransferring | StopSource | Export | Import | Finalize
    | FreeOldAlloc | TakeNewAlloc | MoveServer | ReleaseOldNode | ChargeNewNode
    | Cleanup | MarkCompleted
    | MarkFailed | RestartSource | CleanupAfterFailure

  /** A handler with statements left to run; Deleted is a server whose deletion job is queued. */
  datatype Task =
    | CreateAssign
    | CreateCharge
    | DeleteFree(row: ServerRow)
    | DeleteRelease(row: ServerRow)
    | Deleted
    | Moving(pc: TransferPc, row: ServerRow, target: NodeId, targetAlloc: AllocId, tid: TransferId)

  /** The tables and, for every server with a handler in flight, what is left of it. */
  datatype State = State(db: Db, tasks: map<ServerId, Task>)

  /** The outcome of one statement: the new tables and the rest of the handler, if any. */
  datatype Outcome = Outcome(db: Db, rest: Option<Task>)

  predicate IsStatement(pc: TransferPc) {
    pc.MarkTransferring? || pc.FreeOldAlloc? || pc.TakeNewAlloc? || pc.MoveServer? || pc.ReleaseOldNode?
    || pc.ChargeNewNode? || pc.MarkCompleted? || pc.MarkFailed?
  }

  /**
    One statement or call of runTransfer. `ok` is the reply: of an agent call, or whether a
    statement went through. A failure before the last statement jumps to the catch block; the
    replies to stop, restart and the two cleanups are not looked at.
   */
  function TransferStep(db: Db, s: ServerId, t: Task, ok: bool): Outcome
    requires t.Moving?
  {
    if IsStatement(t.pc) && !ok then
      Outcome(db, if t.pc.MarkFailed? then None else Some(t.(pc := MarkFailed)))
    else
      match t.pc
      case MarkTransferring => Outcome(db.Mark(t.tid, Transferring), Some(t.(pc := StopSource)))
      case StopSource => Outcome(db, Some(t.(pc := Export)))
      case Export => Outcome(db, Some(t.(pc := if ok then Import else MarkFailed)))
      case Import => Outcome(db, Some(t.(pc := if ok then Finalize else MarkFailed)))
      case Finalize => Outcome(db, Some(t.(pc := if ok then FreeOldAlloc else MarkFailed)))
      case FreeOldAlloc => Outcome(db.Assign(t.row.alloc, None), Some(t.(pc := TakeNewAlloc)))
      case TakeNewAlloc => Outcome(db.Assign(Some(t.targetAlloc), Some(s)), Some(t.(pc := MoveServer)))
      case MoveServer => Outcome(db.Move(s, t.target, t.targetAlloc), Some(t.(pc := ReleaseOldNode)))
      case ReleaseOldNode => Outcome(db.Release(t.row.node, t.row.size), Some(t.(pc := ChargeNewNode)))
      case ChargeNewNode => Outcome(db.Charge(t.target, t.row.size), Some(t.(pc := Cleanup)))
      case Cleanup => Outcome(db, Some(t.(pc := MarkCompleted)))
      case MarkCompleted => Outcome(db.Mark(t.tid, Completed), None)
      case MarkFailed => Outcome(db.Mark(t.tid, Failed), Some(t.(pc := RestartSource)))
      case RestartSource => Outcome(db, Some(t.(pc := CleanupAfterFailure)))
      case CleanupAfterFailure => Outcome(db, None)
  }

  /** One statement of whatever handler server s has in flight. */
  function TaskStep(db: Db, s: ServerId, t: Task, ok: bool): Outcome
    requires s in db.servers
  {
    match t
    case CreateAssign => Outcome(db.Assign(db.servers[s].alloc, Some(s)), Some(CreateCharge))
    case CreateCharge => Outcome(db.Charge(db.servers[s].node, db.servers[s].size), None)
    case DeleteFree(row) => Outcome(db.Assign(row.alloc, None), Some(DeleteRelease(row)))
    case DeleteRelease(row) => Outcome(db.Release(row.node, row.size), Some(Deleted))
    case Deleted => Outcome(db, Some(Deleted))
    case Moving(_, _, _, _, _) => TransferStep(db, s, t, ok)
  }

  datatype Step =
    | AddNode(n: NodeId)
    | DropNode(n: NodeId)
    | AddAlloc(a: AllocId, n: NodeId, ip: string, port: int)
    | DropAlloc(a: AllocId)
    | BeginCreate(s: ServerId, row: ServerRow)
    | BeginDelete(s: ServerId)
    | BeginTransfer(s: ServerId, target: NodeId, targetAlloc: AllocId, tid: TransferId)
    | Advance(s: ServerId, ok: bool)
    | RemoveServer(s: ServerId)
    | Heartbeat(n: NodeId, reported: Amounts)
    | Resize(s: ServerId, size: Amounts)

  /** The allocation row a transfer request must find free on the target node. */
  predicate TargetAvailable(db: Db, target: NodeId, a: AllocId) {
    a in db.allocs && db.allocs[a].node == target && db.allocs[a].server.None?
  }

  /** No transfer row refers to node n, nor to an allocation on it (both foreign keys restrict). */
  predicate NodeUnreferenced(db: Db, n: NodeId) {
    && (forall s | s in db.servers :: db.servers[s].node != n)
    && (forall t | t in db.transfers :: db.transfers[t].oldNode != n && db.transfers[t].newNode != n)
  }

  predicate AllocUnreferenced(db: Db, a: AllocId) {
    forall t | t in db.transfers :: db.transfers[t].oldAlloc != Some(a) && db.transfers[t].newAlloc != a
  }

  /**
    When a step can run: the handler's own checks, the schema's unique and foreign keys, fresh
    identifiers for inserted rows, one handler in flight per server, and statements that do not fail.
   */
  predicate Enabled(st: State, step: Step) {
    match step
    case AddNode(n) => n !in st.db.nodes
    case DropNode(n) => n in st.db.nodes && NodeUnreferenced(st.db, n)
    case AddAlloc(a, n, ip, port) =>
      && a !in st.db.allocs && n in st.db.nodes
      && forall b | b in st.db.allocs :: !(st.db.allocs[b].node == n && st.db.allocs[b].ip == ip && st.db.allocs[b].port == port)
    case DropAlloc(a) => a in st.db.allocs && AllocUnreferenced(st.db, a)
    case BeginCreate(s, row) =>
      && s !in st.db.servers && s !in st.tasks && row.node in st.db.nodes && row.alloc.Some?
    case BeginDelete(s) => s in st.db.servers && s !in st.tasks
    case BeginTransfer(s, target, a, tid) =>
      && s in st.db.servers && s !in st.tasks && tid !in st.db.transfers
      && st.db.servers[s].node != target && target in st.db.nodes && TargetAvailable(st.db, target, a)
    case Advance(s, ok) =>
      && s in st.db.servers && s in st.tasks && st.tasks[s] != Deleted
      && (st.tasks[s].Moving? && IsStatement(st.tasks[s].pc) ==> ok)
    case RemoveServer(s) => s in st.db.servers && s in st.tasks && st.tasks[s] == Deleted
    case Heartbeat(n, _) => n in st.db.nodes
    case Resize(s, _) => s in st.db.servers && s !in st.tasks
  }

  function SetTask(st: State, s: ServerId, rest: Option<Task>): map<ServerId, Task> {
    if rest.Some? then st.tasks[s := rest.value] else st.tasks - {s}
  }

  function Next(st: State, step: Step): State
    requires Enabled(st, step)
  {
    match step
    case AddNode(n) => st.(db := st.db.(nodes := st.db.nodes[n := Amounts(0, 0)]))
    case DropNode(n) => // ON DELETE CASCADE removes the node's allocations
      st.(db := st.db.(nodes := st.db.nodes - {n},
                       allocs := map a | a in st.db.allocs && st.db.allocs[a].node != n :: st.db.allocs[a]))
    case AddAlloc(a, n, ip, port) =>
      st.(db := st.db.(allocs := st.db.allocs[a := AllocRow(n, ip, port, None)]))
    case DropAlloc(a) => st.(db := st.db.(allocs := st.db.allocs - {a}))
    case BeginCreate(s, row) =>
      State(st.db.(servers := st.db.servers[s := row]), st.tasks[s := CreateAssign])
    case BeginDelete(s) => st.(tasks := st.tasks[s := DeleteFree(st.db.servers[s])])
    case BeginTransfer(s, target, a, tid) =>
      var row := st.db.servers[s];
      State(st.db.(transfers := st.db.transfers[tid := TransferRow(s, row.node, target, row.alloc, a, Pending)]),
            st.tasks[s := Moving(MarkTransferring, row, target, a, tid)])
    case Advance(s, ok) =>
      var out := TaskStep(st.db, s, st.tasks[s], ok);
      State(out.db, SetTask(st, s, out.rest))
    case RemoveServer(s) => // transfer rows of the server cascade
      State(st.db.(servers := st.db.servers - {s},
                   transfers := map t | t in st.db.transfers && st.db.transfers[t].server != s :: st.db.transfers[t]),
            st.tasks - {s})
    case Heartbeat(n, reported) => st.(db := st.db.(nodes := st.db.nodes[n := reported]))
    case Resize(s, size) => st.(db := st.db.(servers := st.db.servers[s := st.db.servers[s].(size := size)]))
  }

  /** Every step of the run is enabled where it is taken. */
  predicate Legal(st: State, run: seq<Step>)
    decreases |run|
  {
    run == [] || (Enabled(st, run[0]) && Legal(Next(st, run[0]), run[1..]))
  }

  function Exec(st: State, run: seq<Step>): State
    requires Legal(st, run)
    decreases |run|
  {
    if run == [] then st else Exec(Next(st, run[0]), run[1..])
  }

  const EMPTY := State(Db(map[], map[], map[], map[]), map[])

  // ---------------------------------------------------------------- structural invariant

  /** The status that the transfer row shows while its handler stands at pc. */
  function ShownStatus(pc: TransferPc): TransferStatus {
    match pc
    case MarkTransferring => Pending
    case RestartSource => Failed
    case CleanupAfterFailure => Failed
    case _ => Transferring
  }

  /** The server's own row has been moved, its node counters or cleanup are still to come. */
  predicate RowMoved(pc: TransferPc) {
    pc.ReleaseOldNode? || pc.ChargeNewNode? || pc.Cleanup? || pc.MarkCompleted?
  }

  /** A task works on the row its handler read, and a transfer task on its own transfer row. */
  predicate TaskSound(db: Db, s: ServerId, t: Task) {
    && s in db.servers
    && (t.CreateAssign? ==> db.servers[s].alloc.Some?)
    && (t.DeleteFree? || t.DeleteRelease? ==> t.row == db.servers[s])
    && (t.Moving? ==>
          && t.row.node in db.nodes && t.target in db.nodes && t.row.node != t.target
          && db.servers[s] == (if RowMoved(t.pc) then t.row.(node := t.target, alloc := Some(t.targetAlloc)) else t.row)
          && t.tid in db.transfers
          && db.transfers[t.tid] ==
             TransferRow(s, t.row.node, t.target, t.row.alloc, t.targetAlloc, ShownStatus(t.pc)))
  }

  ghost predicate TasksSound(st: State) {
    forall s | s in st.tasks :: TaskSound(st.db, s, st.tasks[s])
  }

  ghost predicate ServersPlaced(db: Db) {
    forall s | s in db.servers :: db.servers[s].node in db.nodes
  }

  /** A transfer row that is not final is being worked on. */
  ghost predicate TransfersDriven(st: State) {
    forall t | t in st.db.transfers && !Final(st.db.transfers[t].status) ::
      var s := st.db.transfers[t].server;
      s in st.tasks && st.tasks[s].Moving? && st.tasks[s].tid == t
  }

  predicate Final(status: TransferStatus) {
    status == Completed || status == Failed
  }

  ghost predicate Sound(st: State) {
    TasksSound(st) && ServersPlaced(st.db) && TransfersDriven(st)
  }

  /** A statement that fails where the catch block finds rows it does not expect: before any status, or after the move. */
  predicate FailsLate(t: Task, ok: bool)
    requires t.Moving?
  {
    IsStatement(t.pc) && !ok && (t.pc.MarkTransferring? || RowMoved(t.pc))
  }

  /**
    With any reply, a failed statement included: a transfer's task stays sound through its own
    step if and only if the step does not fail late, and a handler that ends leaves a final
    status if and only if it is not the marking as failed that fails.
   */
  lemma TransferTaskSound(db: Db, s: ServerId, t: Task, ok: bool)
    requires t.Moving? && TaskSound(db, s, t)
    ensures var out := TransferStep(db, s, t, ok);
            if out.rest.Some?
            then out.rest.value.Moving? && out.rest.value.tid == t.tid
                 && (TaskSound(out.db, s, out.rest.value) <==> !FailsLate(t, ok))
            else t.tid in out.db.transfers && (Final(out.db.transfers[t.tid].status) <==> ok || t.pc.CleanupAfterFailure?)
  {
    match t.pc
    case MarkTransferring =>
    case MoveServer =>
    case MarkCompleted =>
    case MarkFailed =>
    case _ =>
  }

  lemma OwnTaskSound(db: Db, s: ServerId, t: Task, ok: bool)
    requires TaskSound(db, s, t) && (t.Moving? && IsStatement(t.pc) ==> ok)
    ensures var out := TaskStep(db, s, t, ok); out.rest.Some? ==> TaskSound(out.db, s, out.rest.value)
  {
    if t.Moving? {
      TransferTaskSound(db, s, t, ok);
    }
  }

  /** One statement of a handler in flight leaves every other handler's task sound. */
  lemma TasksSoundAdvance(st: State, s: ServerId, ok: bool)
    requires Sound(st) && Enabled(st, Advance(s, ok))
    ensures TasksSound(Next(st, Advance(s, ok)))
  {
    var post := Next(st, Advance(s, ok));
    var t := st.tasks[s];
    assert TaskSound(st.db, s, t);
    var out := TaskStep(st.db, s, t, ok);
    forall x | x in post.tasks ensures TaskSound(out.db, x, post.tasks[x]) {
      if x == s {
        OwnTaskSound(st.db, s, t, ok);
      } else {
        assert TaskSound(st.db, x, st.tasks[x]);
        OtherTaskSound(st.db, s, t, ok, x, st.tasks[x]);
      }
    }
  }

  lemma OtherTaskSound(db: Db, s: ServerId, t: Task, ok: bool, x: ServerId, other: Task)
    requires TaskSound(db, s, t) && TaskSound(db, x, other) && x != s
    ensures TaskSound(TaskStep(db, s, t, ok).db, x, other)
  {
    var post := TaskStep(db, s, t, ok).db;
    assert post.nodes.Keys == db.nodes.Keys;
    assert post.servers == db.servers || (t.Moving? && post.servers == db.servers[s := post.servers[s]]);
    assert post.transfers == db.transfers || (t.Moving? && post.transfers == db.transfers[t.tid := post.transfers[t.tid]]);
    if other.Moving? && t.Moving? {
      assert other.tid != t.tid;
    }
  }

  /** What a handler's statement can do to the rows of others: nothing, except that a transfer marks its own row. */
  lemma TaskStepRows(db: Db, s: ServerId, t: Task, ok: bool)
    requires TaskSound(db, s, t)
    ensures var post := TaskStep(db, s, t, ok).db;
            && post.nodes.Keys == db.nodes.Keys && post.servers.Keys == db.servers.Keys
            && post.transfers.Keys == db.transfers.Keys
            && (forall x | x in db.servers && x != s :: post.servers[x] == db.servers[x])
            && (forall tid | tid in db.transfers && !(t.Moving? && tid == t.tid) :: post.transfers[tid] == db.transfers[tid])
            && (t.Moving? ==> post.transfers[t.tid].server == s)
            && post.servers[s].node in {db.servers[s].node, if t.Moving? then t.target else db.servers[s].node}
  {
  }

  lemma TransfersDrivenAdvance(st: State, s: ServerId, ok: bool)
    requires Sound(st) && Enabled(st, Advance(s, ok))
    ensures TransfersDriven(Next(st, Advance(s, ok))) && ServersPlaced(Next(st, Advance(s, ok)).db)
  {
    var post := Next(st, Advance(s, ok));
    var t := st.tasks[s];
    var out := TaskStep(st.db, s, t, ok);
    assert TaskSound(st.db, s, t);
    TaskStepRows(st.db, s, t, ok);
    if t.Moving? {
      TransferTaskSound(st.db, s, t, ok);
    }
    assert post == State(out.db, SetTask(st, s, out.rest));
    forall tid | tid in out.db.transfers && !Final(out.db.transfers[tid].status)
      ensures var x := out.db.transfers[tid].server;
              x in post.tasks && post.tasks[x].Moving? && post.tasks[x].tid == tid
    {
      if !(t.Moving? && tid == t.tid) {
        var x := st.db.transfers[tid].server;
        assert x in st.tasks && st.tasks[x].Moving? && st.tasks[x].tid == tid;
        assert x != s;
      }
    }
  }

  lemma SoundOther(st: State, step: Step)
    requires Sound(st) && Enabled(st, step) && !step.Advance?
    ensures Sound(Next(st, step))
  {
    var post := Next(st, step);
    forall x | x in post.tasks && x in st.tasks ensures TaskSound(st.db, x, st.tasks[x]) {
    }
    match step {
      case AddNode(n) =>
      case DropNode(n) =>
        forall x | x in post.tasks ensures TaskSound(post.db, x, post.tasks[x]) {
          assert TaskSound(st.db, x, st.tasks[x]);
        }
      case AddAlloc(a, n, ip, port) =>
      case DropAlloc(a) =>
      case BeginCreate(s, row) =>
      case BeginDelete(s) =>
      case BeginTransfer(s, target, a, tid) =>
      case RemoveServer(s) =>
      case Heartbeat(n, reported) =>
      case Resize(s, size) =>
    }
  }

  /** Every step keeps the structural invariant. */
  lemma SoundStep(st: State, step: Step)
    requires Sound(st) && Enabled(st, step)
    ensures Sound(Next(st, step))
  {
    if step.Advance? {
      TasksSoundAdvance(st, step.s, step.ok);
      TransfersDrivenAdvance(st, step.s, step.ok);
    } else {
      SoundOther(st, step);
    }
  }

  lemma {:induction false} SoundRun(st: State, run: seq<Step>)
    requires Sound(st) && Legal(st, run)
    ensures Sound(Exec(st, run))
    decreases |run|
  {
    if run != [] {
      SoundStep(st, run[0]);
      SoundRun(Next(st, run[0]), run[1..]);
    }
  }
}
