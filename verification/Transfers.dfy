/**
  The life of one transfer: what its row shows over any interleaving, that it ends, and what
  a whole run of runTransfer leaves behind for every combination of replies and failed statements.
 */
module Transfers {
  import opened Common
  import opened Placement

  /** Statements and calls left from this point, on the longest way to the end. */
  function PcRank(pc: TransferPc): nat {
    match pc
    case MarkTransferring => 15
    case StopSource => 14
    case Export => 13
    case Import => 12
    case Finalize => 11
    case FreeOldAlloc => 10
    case TakeNewAlloc => 9
    case MoveServer => 8
    case ReleaseOldNode => 7
    case ChargeNewNode => 6
    case Cleanup => 5
    case MarkCompleted => 4
    case MarkFailed => 3
    case RestartSource => 2
    case CleanupAfterFailure => 1
  }

  lemma RankFalls(db: Db, s: ServerId, t: Task, ok: bool)
    requires t.Moving?
    ensures var rest := TransferStep(db, s, t, ok).rest;
            rest.Some? ==> rest.value.Moving? && PcRank(rest.value.pc) < PcRank(t.pc)
                           && rest.value == t.(pc := rest.value.pc)
  {
  }

  // ---------------------------------------------------------------- over interleavings

  /** The moves a transfer row's status can make. */
  predicate StatusMove(before: TransferStatus, after: TransferStatus) {
    || after == before
    || (before == Pending && after == Transferring)
    || (before == Transferring && Final(after))
  }

  lemma StatusStep(st: State, step: Step, tid: TransferId)
    requires Sound(st) && Enabled(st, step) && tid in st.db.transfers
    ensures var post := Next(st, step);
            tid in post.db.transfers ==> StatusMove(st.db.transfers[tid].status, post.db.transfers[tid].status)
    ensures var post := Next(st, step);
            tid !in post.db.transfers ==> Final(st.db.transfers[tid].status)
  {
    if step.Advance? {
      assert TaskSound(st.db, step.s, st.tasks[step.s]);
    }
    var s := st.db.transfers[tid].server;
    assert !Final(st.db.transfers[tid].status) ==> s in st.tasks && st.tasks[s].Moving?;
  }

  /** A final status never changes again, over any run. */
  lemma {:induction false} FinalStays(st: State, run: seq<Step>, tid: TransferId)
    requires Sound(st) && Legal(st, run) && tid in st.db.transfers && Final(st.db.transfers[tid].status)
    ensures tid in Exec(st, run).db.transfers ==>
              Exec(st, run).db.transfers[tid].status == st.db.transfers[tid].status || TidReused(st, run, tid)
    decreases |run|
  {
    if run != [] {
      SoundStep(st, run[0]);
      StatusStep(st, run[0], tid);
      if tid in Next(st, run[0]).db.transfers {
        FinalStays(Next(st, run[0]), run[1..], tid);
      }
    }
  }

  /** The identifier of a row removed along the run is given to a new row: identifiers are random, not sequential. */
  predicate TidReused(st: State, run: seq<Step>, tid: TransferId)
    requires Legal(st, run)
    decreases |run|
  {
    run != [] && (tid !in Next(st, run[0]).db.transfers || TidReused(Next(st, run[0]), run[1..], tid))
  }

  function TurnsOf(run: seq<Step>, s: ServerId): nat {
    if run == [] then 0
    else (if run[0].Advance? && run[0].s == s then 1 else 0) + TurnsOf(run[1..], s)
  }

  /** The handler of server s is still working on transfer tid, with at most `turns` turns to go. */
  ghost predicate Working(st: State, s: ServerId, tid: TransferId, turns: nat) {
    s in st.tasks && st.tasks[s].Moving? && st.tasks[s].tid == tid && PcRank(st.tasks[s].pc) <= turns
  }

  /**
    Every transfer ends, whatever the agents reply and whatever else runs in between: once its
    handler has had as many turns as it has statements and calls left, its row is completed or failed.
   */
  lemma {:induction false} TransferEnds(st: State, run: seq<Step>, s: ServerId, tid: TransferId)
    requires Sound(st) && Legal(st, run)
    requires Working(st, s, tid, TurnsOf(run, s))
    ensures tid in Exec(st, run).db.transfers ==>
              Final(Exec(st, run).db.transfers[tid].status) || TidReused(st, run, tid)
    decreases |run|
  {
    assert TaskSound(st.db, s, st.tasks[s]);
    if run != [] {
      var step, mid := run[0], Next(st, run[0]);
      SoundStep(st, step);
      if step.Advance? && step.s == s {
        RankFalls(st.db, s, st.tasks[s], step.ok);
        if s in mid.tasks {
          TransferEnds(mid, run[1..], s, tid);
        } else {
          assert tid in mid.db.transfers && Final(mid.db.transfers[tid].status);
          FinalStays(mid, run[1..], tid);
        }
      } else {
        assert s in mid.tasks && mid.tasks[s] == st.tasks[s];
        TransferEnds(mid, run[1..], s, tid);
      }
    }
  }

  /**
    A transfer step writes nothing but its transfer row unless it stands in the middle of the
    success path, and from there no agent's reply can lead to the catch block.
   */
  lemma OnlySuccessPathMoves(db: Db, s: ServerId, t: Task, ok: bool)
    requires t.Moving? && (IsStatement(t.pc) ==> ok)
    ensures var out := TransferStep(db, s, t, ok);
            PcRank(Finalize) <= PcRank(t.pc) || PcRank(t.pc) <= PcRank(Cleanup)
            ==> out.db.(transfers := db.transfers) == db
    ensures var out := TransferStep(db, s, t, ok);
            PcRank(MarkCompleted) <= PcRank(t.pc) <= PcRank(FreeOldAlloc) ==>
              out.rest.None? || PcRank(out.rest.value.pc) == PcRank(t.pc) - 1
  {
  }

  /** A transfer row with what it refers to: the two nodes, and its allocations on them. */
  predicate Refers(db: Db, tid: TransferId, row: TransferRow) {
    && tid in db.transfers && db.transfers[tid].(status := row.status) == row
    && row.oldNode in db.nodes && row.newNode in db.nodes
    && row.newAlloc in db.allocs && db.allocs[row.newAlloc].node == row.newNode
    && (row.oldAlloc.Some? ==> row.oldAlloc.value in db.allocs && db.allocs[row.oldAlloc.value].node == row.oldNode)
  }

  lemma AdvanceKeepsReferences(db: Db, s: ServerId, t: Task, ok: bool, tid: TransferId, row: TransferRow)
    requires s in db.servers && Refers(db, tid, row)
    ensures Refers(TaskStep(db, s, t, ok).db, tid, row)
  {
    match t
    case Moving(_, _, _, _, _) =>
    case _ =>
  }

  lemma StepKeepsReferences(st: State, step: Step, tid: TransferId, row: TransferRow)
    requires Enabled(st, step) && Refers(st.db, tid, row) && step != RemoveServer(row.server)
    ensures Refers(Next(st, step).db, tid, row)
  {
    match step
    case Advance(s, ok) => AdvanceKeepsReferences(st.db, s, st.tasks[s], ok, tid, row);
    case DropNode(n) => assert st.db.transfers[tid].oldNode == row.oldNode && st.db.transfers[tid].newNode == row.newNode;
    case DropAlloc(a) => assert st.db.transfers[tid].oldAlloc == row.oldAlloc && st.db.transfers[tid].newAlloc == row.newAlloc;
    case _ =>
  }

  /**
    The row of a transfer, ended or not, holds its two nodes and its allocations in the database
    over every run, until the server itself is removed.
   */
  lemma {:induction false} TransferPinsItsPlaces(st: State, run: seq<Step>, tid: TransferId, row: TransferRow)
    requires Legal(st, run) && Refers(st.db, tid, row)
    requires forall i | 0 <= i < |run| :: run[i] != RemoveServer(row.server)
    ensures Refers(Exec(st, run).db, tid, row)
    decreases |run|
  {
    if run != [] {
      StepKeepsReferences(st, run[0], tid, row);
      assert forall i | 0 <= i < |run[1..]| :: run[1..][i] == run[i + 1];
      TransferPinsItsPlaces(Next(st, run[0]), run[1..], tid, row);
    }
  }

  // ---------------------------------------------------------------- one whole run

  /** runTransfer from its point t to its end, with the given reply at every statement and call. */
  function Drive(db: Db, s: ServerId, t: Task, replies: TransferPc -> bool): Db
    requires t.Moving?
    decreases PcRank(t.pc)
  {
    RankFalls(db, s, t, replies(t.pc));
    var out := TransferStep(db, s, t, replies(t.pc));
    if out.rest.None? then out.db else Drive(out.db, s, out.rest.value, replies)
  }

  /** One unfolding of Drive. */
  lemma DriveStep(db: Db, s: ServerId, t: Task, replies: TransferPc -> bool)
    requires t.Moving?
    ensures var out := TransferStep(db, s, t, replies(t.pc));
            Drive(db, s, t, replies) ==
            if out.rest.None? then out.db else Drive(out.db, s, out.rest.value, replies)
  {
  }

  ghost predicate NoFaults(replies: TransferPc -> bool) {
    forall pc | IsStatement(pc) :: replies(pc)
  }

  /** What a transfer request hands over: row as read, a transfer row just inserted, old and new allocation. */
  ghost predicate Requested(db: Db, s: ServerId, t: Task) {
    && t.Moving? && t.pc.MarkTransferring? && TaskSound(db, s, t)
    && t.row.alloc.Some? && t.row.alloc.value in db.allocs && db.allocs[t.row.alloc.value].server == Some(s)
    && TargetAvailable(db, t.target, t.targetAlloc)
  }

  predicate AgentsAgree(replies: TransferPc -> bool) {
    replies(Export) && replies(Import) && replies(Finalize)
  }

  /** Everything a completed transfer has moved. */
  ghost predicate Relocated(pre: Db, post: Db, s: ServerId, t: Task)
    requires Requested(pre, s, t)
  {
    && post.allocs == pre.allocs[t.row.alloc.value := pre.allocs[t.row.alloc.value].(server := None)]
                                [t.targetAlloc := pre.allocs[t.targetAlloc].(server := Some(s))]
    && post.servers == pre.servers[s := t.row.(node := t.target, alloc := Some(t.targetAlloc))]
    && post.nodes == pre.nodes[t.row.node := pre.nodes[t.row.node].Minus(t.row.size)]
                              [t.target := pre.nodes[t.target].Plus(t.row.size)]
    && post.transfers == pre.transfers[t.tid := pre.transfers[t.tid].(status := Completed)]
  }

  lemma DriveFromFailure(db: Db, s: ServerId, t: Task, replies: TransferPc -> bool)
    requires t.Moving? && t.pc.MarkFailed?
    ensures Drive(db, s, t, replies) == if replies(MarkFailed) then db.Mark(t.tid, Failed) else db
  {
    if replies(MarkFailed) {
      var t1, t2 := t.(pc := RestartSource), t.(pc := CleanupAfterFailure);
      assert Drive(db.Mark(t.tid, Failed), s, t2, replies) == db.Mark(t.tid, Failed);
      assert Drive(db.Mark(t.tid, Failed), s, t1, replies) == db.Mark(t.tid, Failed);
    }
  }

  lemma DriveFromCounters(db: Db, s: ServerId, t: Task, replies: TransferPc -> bool)
    requires t.Moving? && t.pc.ReleaseOldNode? && NoFaults(replies)
    ensures Drive(db, s, t, replies) ==
            db.Release(t.row.node, t.row.size).Charge(t.target, t.row.size).Mark(t.tid, Completed)
  {
    var d1 := db.Release(t.row.node, t.row.size);
    var d2 := d1.Charge(t.target, t.row.size);
    DriveStep(d2, s, t.(pc := MarkCompleted), replies);
    DriveStep(d2, s, t.(pc := Cleanup), replies);
    DriveStep(d1, s, t.(pc := ChargeNewNode), replies);
    DriveStep(db, s, t, replies);
  }

  lemma DriveFromAllocations(db: Db, s: ServerId, t: Task, replies: TransferPc -> bool)
    requires t.Moving? && t.pc.FreeOldAlloc? && NoFaults(replies)
    ensures Drive(db, s, t, replies) ==
            db.Assign(t.row.alloc, None).Assign(Some(t.targetAlloc), Some(s)).Move(s, t.target, t.targetAlloc)
            .Release(t.row.node, t.row.size).Charge(t.target, t.row.size).Mark(t.tid, Completed)
  {
    var d1 := db.Assign(t.row.alloc, None);
    var d2 := d1.Assign(Some(t.targetAlloc), Some(s));
    var d3 := d2.Move(s, t.target, t.targetAlloc);
    DriveFromCounters(d3, s, t.(pc := ReleaseOldNode), replies);
    DriveStep(d2, s, t.(pc := MoveServer), replies);
    DriveStep(d1, s, t.(pc := TakeNewAlloc), replies);
    DriveStep(db, s, t, replies);
  }

  /** The first five steps: they change only the status, and reach the allocations when all agree. */
  lemma DriveToAllocations(db: Db, s: ServerId, t: Task, replies: TransferPc -> bool)
    requires t.Moving? && t.pc.MarkTransferring?
    ensures var d := if replies(MarkTransferring) then db.Mark(t.tid, Transferring) else db;
            Drive(db, s, t, replies) ==
            Drive(d, s, t.(pc := if replies(MarkTransferring) && AgentsAgree(replies) then FreeOldAlloc else MarkFailed), replies)
  {
    var d := if replies(MarkTransferring) then db.Mark(t.tid, Transferring) else db;
    if replies(MarkTransferring) {
      assert Drive(db, s, t, replies) == Drive(d, s, t.(pc := StopSource), replies);
      assert Drive(d, s, t.(pc := StopSource), replies) == Drive(d, s, t.(pc := Export), replies);
      if replies(Export) {
        assert Drive(d, s, t.(pc := Export), replies) == Drive(d, s, t.(pc := Import), replies);
        if replies(Import) {
          assert Drive(d, s, t.(pc := Import), replies) == Drive(d, s, t.(pc := Finalize), replies);
        }
      }
    }
  }

  /**
    Without failing statements a transfer is completed exactly when the source exports and the
    target imports and finalizes; then everything has moved, and otherwise nothing but the
    status has changed, to failed.
   */
  lemma TransferOutcome(db: Db, s: ServerId, t: Task, replies: TransferPc -> bool)
    requires Requested(db, s, t) && NoFaults(replies)
    ensures var post := Drive(db, s, t, replies);
            if AgentsAgree(replies) then Relocated(db, post, s, t) else post == db.Mark(t.tid, Failed)
  {
    DriveToAllocations(db, s, t, replies);
    var d := db.Mark(t.tid, Transferring);
    if AgentsAgree(replies) {
      DriveFromAllocations(d, s, t.(pc := FreeOldAlloc), replies);
    } else {
      DriveFromFailure(d, s, t.(pc := MarkFailed), replies);
    }
  }

  function Counters(db: Db, r: Resource): map<NodeId, int> {
    map n | n in db.nodes :: db.nodes[n].Of(r)
  }

  /** A transfer conserves the total of the counters over all nodes. */
  lemma TransferConserves(db: Db, s: ServerId, t: Task, replies: TransferPc -> bool, r: Resource)
    requires Requested(db, s, t) && NoFaults(replies)
    ensures Total(Counters(Drive(db, s, t, replies), r)) == Total(Counters(db, r))
  {
    TransferOutcome(db, s, t, replies);
    var post := Drive(db, s, t, replies);
    if AgentsAgree(replies) {
      var pre: map<NodeId, int> := Counters(db, r);
      var less, more := pre[t.row.node] - t.row.size.Of(r), pre[t.target] + t.row.size.Of(r);
      var mid: map<NodeId, int> := pre[t.row.node := less];
      assert t.target in mid && mid[t.target] == pre[t.target];
      TotalWrite(pre, t.row.node, less);
      TotalWrite(mid, t.target, more);
      assert Counters(post, r) == mid[t.target := more];
    } else {
      assert Counters(post, r) == Counters(db, r);
    }
  }

  /** The run gets as far as changing allocations, servers or counters. */
  predicate ReachesAllocations(replies: TransferPc -> bool) {
    replies(MarkTransferring) && AgentsAgree(replies) && replies(FreeOldAlloc)
  }

  /** Once the old allocation is freed no statement gives it back. */
  lemma {:induction false} FreedStaysFreed(db: Db, s: ServerId, t: Task, replies: TransferPc -> bool, a: AllocId)
    requires t.Moving? && PcRank(t.pc) < PcRank(FreeOldAlloc)
    requires a in db.allocs && db.allocs[a].server == None && t.targetAlloc != a
    ensures a in Drive(db, s, t, replies).allocs && Drive(db, s, t, replies).allocs[a].server == None
    decreases PcRank(t.pc)
  {
    RankFalls(db, s, t, replies(t.pc));
    var out := TransferStep(db, s, t, replies(t.pc));
    if out.rest.Some? {
      FreedStaysFreed(out.db, s, out.rest.value, replies, a);
    }
  }

  /**
    With statements that may fail at any point, "a failed transfer leaves the placement as it
    was" is true exactly when the failure came before the old allocation was freed: the catch
    block restarts the source but undoes no statement.
   */
  lemma PlacementUntouchedIff(db: Db, s: ServerId, t: Task, replies: TransferPc -> bool)
    requires Requested(db, s, t)
    ensures var post := Drive(db, s, t, replies);
            (post.allocs == db.allocs && post.servers == db.servers && post.nodes == db.nodes)
            <==> !ReachesAllocations(replies)
  {
    DriveToAllocations(db, s, t, replies);
    var d := if replies(MarkTransferring) then db.Mark(t.tid, Transferring) else db;
    if !(replies(MarkTransferring) && AgentsAgree(replies)) {
      DriveFromFailure(d, s, t.(pc := MarkFailed), replies);
    } else {
      var t5 := t.(pc := FreeOldAlloc);
      if replies(FreeOldAlloc) {
        var a := t.row.alloc.value;
        assert Drive(d, s, t5, replies) == Drive(d.Assign(t.row.alloc, None), s, t.(pc := TakeNewAlloc), replies);
        FreedStaysFreed(d.Assign(t.row.alloc, None), s, t.(pc := TakeNewAlloc), replies, a);
      } else {
        assert Drive(d, s, t5, replies) == Drive(d, s, t.(pc := MarkFailed), replies);
        DriveFromFailure(d, s, t.(pc := MarkFailed), replies);
      }
    }
  }
}
