/**
  What a transfer has done when its row becomes final, whatever else ran between its statements.
 */
module Outcomes {
  import opened Common
  import opened Placement
  import opened Ledger
  import opened Ownership
  import opened Transfers

  /** The step gives transfer tid its final status. */
  predicate Settles(st: State, step: Step, tid: TransferId)
    requires Enabled(st, step)
  {
    && tid in st.db.transfers && !Final(st.db.transfers[tid].status)
    && tid in Next(st, step).db.transfers && Final(Next(st, step).db.transfers[tid].status)
  }

  /** The server is where the transfer row says it is to be: its row, what it holds and where it is charged. */
  ghost predicate Stands(st: State, s: ServerId, node: NodeId, alloc: Option<AllocId>) {
    && s in st.db.servers && st.db.servers[s].node == node && st.db.servers[s].alloc == alloc
    && Held(st, s) == alloc && HeldOn(st, s) == node && ChargedNode(st, s) == Some(node)
  }

  /** Only the handler of its own server settles a transfer. */
  lemma SettledByItsHandler(st: State, step: Step, tid: TransferId)
    requires Sound(st) && Enabled(st, step) && Settles(st, step, tid)
    ensures var s := st.db.transfers[tid].server;
            step.Advance? && step.s == s && s in st.tasks && st.tasks[s].Moving? && st.tasks[s].tid == tid
            && (st.tasks[s].pc.MarkCompleted? || st.tasks[s].pc.MarkFailed?)
            && (Next(st, step).db.transfers[tid].status == Completed <==> st.tasks[s].pc.MarkCompleted?)
  {
    var s := st.db.transfers[tid].server;
    assert TaskSound(st.db, s, st.tasks[s]);
    if step.Advance? {
      assert TaskSound(st.db, step.s, st.tasks[step.s]);
      if step.s != s || !(st.tasks[s].pc.MarkCompleted? || st.tasks[s].pc.MarkFailed?) {
        NotSettledByOthers(st, step.s, step.ok, tid);
      }
    }
  }

  lemma NotSettledByOthers(st: State, s: ServerId, ok: bool, tid: TransferId)
    requires Enabled(st, Advance(s, ok)) && TaskSound(st.db, s, st.tasks[s]) && tid in st.db.transfers
    requires !(st.tasks[s].Moving? && st.tasks[s].tid == tid && (st.tasks[s].pc.MarkCompleted? || st.tasks[s].pc.MarkFailed?))
    ensures var post := Next(st, Advance(s, ok)).db.transfers;
            tid in post && (Final(post[tid].status) ==> Final(st.db.transfers[tid].status))
  {
    TaskStepRows(st.db, s, st.tasks[s], ok);
  }

  /**
    When a transfer's row becomes completed the server's row, its allocation and its charge are
    the new ones; when it becomes failed they are the old ones. Nothing in between.
   */
  lemma TransferSettlesOldOrNew(st: State, step: Step, tid: TransferId)
    requires Sound(st) && Enabled(st, step) && Settles(st, step, tid)
    ensures var row := st.db.transfers[tid];
            if Next(st, step).db.transfers[tid].status == Completed
            then Stands(Next(st, step), row.server, row.newNode, Some(row.newAlloc))
            else Stands(Next(st, step), row.server, row.oldNode, row.oldAlloc)
  {
    SettledByItsHandler(st, step, tid);
    var s := st.db.transfers[tid].server;
    assert TaskSound(st.db, s, st.tasks[s]);
  }

  /** With ownership kept, the allocation rows agree. */
  lemma SettledAllocationIsNamed(run: seq<Step>, step: Step, tid: TransferId)
    requires Legal(EMPTY, run) && NoTargetStolen(EMPTY, run) && Enabled(Exec(EMPTY, run), step)
    requires Settles(Exec(EMPTY, run), step, tid)
    ensures var st := Exec(EMPTY, run);
            var row, post := st.db.transfers[tid], Next(st, step).db;
            if post.transfers[tid].status == Completed
            then row.newAlloc in post.allocs && post.allocs[row.newAlloc].server == Some(row.server)
                 && post.allocs[row.newAlloc].node == row.newNode
            else row.oldAlloc.Some? ==>
                   row.oldAlloc.value in post.allocs && post.allocs[row.oldAlloc.value].server == Some(row.server)
                   && post.allocs[row.oldAlloc.value].node == row.oldNode
  {
    var st := Exec(EMPTY, run);
    SoundRun(EMPTY, run);
    OwnershipRun(EMPTY, run);
    SettledByItsHandler(st, step, tid);
    assert TargetStillFree(st, step);
    OwnershipStep(st, step);
    TransferSettlesOldOrNew(st, step, tid);
    assert HolderNamed(Next(st, step), st.db.transfers[tid].server);
  }

  // ---------------------------------------------------------------- what a failed transfer wrote

  /** The handler of s works on transfer tid before every step of the run and after the last. */
  ghost predicate WorksOn(st: State, run: seq<Step>, s: ServerId, tid: TransferId)
    requires Legal(st, run)
    decreases |run|
  {
    && s in st.tasks && st.tasks[s].Moving? && st.tasks[s].tid == tid
    && (run == [] || WorksOn(Next(st, run[0]), run[1..], s, tid))
  }

  /** No statement of the handler of s touched allocations, servers or counters. */
  ghost predicate WroteOnlyStatus(st: State, run: seq<Step>, s: ServerId)
    requires Legal(st, run)
    decreases |run|
  {
    run == [] ||
    ((run[0].Advance? && run[0].s == s ==> Next(st, run[0]).db.(transfers := st.db.transfers) == st.db)
     && WroteOnlyStatus(Next(st, run[0]), run[1..], s))
  }

  predicate OnSuccessPath(pc: TransferPc) {
    PcRank(MarkCompleted) <= PcRank(pc) <= PcRank(FreeOldAlloc)
  }

  lemma OthersKeepTheTask(st: State, step: Step, s: ServerId)
    requires Enabled(st, step) && s in st.tasks && st.tasks[s].Moving? && !(step.Advance? && step.s == s)
    ensures s in Next(st, step).tasks && Next(st, step).tasks[s] == st.tasks[s]
  {
  }

  lemma {:induction false} SuccessPathStays(st: State, run: seq<Step>, s: ServerId, tid: TransferId)
    requires Legal(st, run) && WorksOn(st, run, s, tid) && OnSuccessPath(st.tasks[s].pc)
    ensures var post := Exec(st, run); s in post.tasks && post.tasks[s].Moving? && OnSuccessPath(post.tasks[s].pc)
    decreases |run|
  {
    if run != [] {
      if run[0].Advance? && run[0].s == s {
        OnlySuccessPathMoves(st.db, s, st.tasks[s], run[0].ok);
        RankFalls(st.db, s, st.tasks[s], run[0].ok);
      } else {
        OthersKeepTheTask(st, run[0], s);
      }
      SuccessPathStays(Next(st, run[0]), run[1..], s, tid);
    }
  }

  lemma OffPathWritesOnlyStatus(st: State, s: ServerId, ok: bool)
    requires Enabled(st, Advance(s, ok)) && st.tasks[s].Moving? && !OnSuccessPath(st.tasks[s].pc)
    ensures Next(st, Advance(s, ok)).db.(transfers := st.db.transfers) == st.db
  {
    OnlySuccessPathMoves(st.db, s, st.tasks[s], ok);
  }

  /**
    A transfer that stands in its catch block has written nothing but its own status, in every
    interleaving, whatever the agents replied.
   */
  lemma {:induction false} FailedTransferWroteOnlyStatus(st: State, run: seq<Step>, s: ServerId, tid: TransferId)
    requires Legal(st, run) && WorksOn(st, run, s, tid)
    requires var post := Exec(st, run);
             s in post.tasks && post.tasks[s].Moving? && PcRank(post.tasks[s].pc) <= PcRank(MarkFailed)
    ensures WroteOnlyStatus(st, run, s)
    decreases |run|
  {
    if run != [] {
      if run[0].Advance? && run[0].s == s {
        if OnSuccessPath(st.tasks[s].pc) {
          SuccessPathStays(st, run, s, tid);
        }
        OffPathWritesOnlyStatus(st, s, run[0].ok);
      }
      FailedTransferWroteOnlyStatus(Next(st, run[0]), run[1..], s, tid);
    }
  }
}
