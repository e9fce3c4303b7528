/**
  Conservation of the node counters: what a node's counter says minus what its servers are
  charged for is moved only by heartbeats and by settings changes, over any interleaving of
  the create, delete and transfer handlers.
 */
module Ledger {
  import opened Common
  import opened Placement

  /** The node whose counter includes server s at this point of its handler, if any. */
  function ChargedNode(st: State, s: ServerId): Option<NodeId>
    requires s in st.db.servers
  {
    if s !in st.tasks then Some(st.db.servers[s].node)
    else
      match st.tasks[s]
      case CreateAssign => None
      case CreateCharge => None
      case DeleteFree(row) => Some(row.node)
      case DeleteRelease(row) => Some(row.node)
      case Deleted => None
      case Moving(pc, row, target, _, _) =>
        if pc.ChargeNewNode? then None
        else if pc.Cleanup? || pc.MarkCompleted? then Some(target)
        else Some(row.node)
  }

  function Share(st: State, s: ServerId, n: NodeId, r: Resource): int
    requires s in st.db.servers
  {
    if ChargedNode(st, s) == Some(n) then st.db.servers[s].size.Of(r) else 0
  }

  function Shares(st: State, n: NodeId, r: Resource): map<ServerId, int> {
    map s | s in st.db.servers :: Share(st, s, n, r)
  }

  /** The counter of node n minus the charges of all servers. */
  ghost function Discrepancy(st: State, n: NodeId, r: Resource): int
    requires n in st.db.nodes
  {
    st.db.nodes[n].Of(r) - Total(Shares(st, n, r))
  }

  /** What a step adds to the discrepancy: an overwritten counter, or a size changed under it. */
  function Drift(st: State, step: Step, n: NodeId, r: Resource): int
    requires Enabled(st, step) && n in st.db.nodes
  {
    match step
    case Heartbeat(m, reported) => if m == n then reported.Of(r) - st.db.nodes[n].Of(r) else 0
    case Resize(s, size) =>
      if st.db.servers[s].node == n then st.db.servers[s].size.Of(r) - size.Of(r) else 0
    case _ => 0
  }

  /** A step that touches one server only changes that server's entry in the sum. */
  lemma OneShareChanges(st: State, post: State, s: ServerId, n: NodeId, r: Resource)
    requires s in post.db.servers && post.db.servers.Keys == st.db.servers.Keys + {s}
    requires forall x | x in st.db.servers && x != s :: post.db.servers[x] == st.db.servers[x]
    requires forall x | x in st.db.servers && x != s ::
               (x in post.tasks <==> x in st.tasks) && (x in st.tasks ==> post.tasks[x] == st.tasks[x])
    ensures Total(Shares(post, n, r)) ==
            Total(Shares(st, n, r)) + Share(post, s, n, r) - (if s in st.db.servers then Share(st, s, n, r) else 0)
  {
    assert Shares(post, n, r) == Shares(st, n, r)[s := Share(post, s, n, r)] by {
      forall x | x in st.db.servers && x != s ensures Share(post, x, n, r) == Share(st, x, n, r) {
        assert ChargedNode(post, x) == ChargedNode(st, x);
      }
    }
    TotalWrite(Shares(st, n, r), s, Share(post, s, n, r));
  }

  /** One statement of a handler moves the counter by exactly what it moves the charge. */
  lemma AdvanceBalances(st: State, s: ServerId, ok: bool, n: NodeId, r: Resource)
    requires Enabled(st, Advance(s, ok)) && n in st.db.nodes && TaskSound(st.db, s, st.tasks[s])
    ensures n in Next(st, Advance(s, ok)).db.nodes
    ensures Discrepancy(Next(st, Advance(s, ok)), n, r) == Discrepancy(st, n, r)
  {
    var post := Next(st, Advance(s, ok));
    AdvanceTouchesOnly(st, s, ok);
    OneShareChanges(st, post, s, n, r);
    if st.tasks[s].Moving? {
      TransferBalances(st, s, ok, n, r);
    } else {
      HandlerBalances(st, s, ok, n, r);
    }
  }

  lemma AdvanceTouchesOnly(st: State, s: ServerId, ok: bool)
    requires Enabled(st, Advance(s, ok))
    ensures var post := Next(st, Advance(s, ok));
            && post.db.servers.Keys == st.db.servers.Keys && post.db.nodes.Keys == st.db.nodes.Keys
            && (forall x | x in st.db.servers && x != s :: post.db.servers[x] == st.db.servers[x])
            && (forall x | x in st.db.servers && x != s ::
                  (x in post.tasks <==> x in st.tasks) && (x in st.tasks ==> post.tasks[x] == st.tasks[x]))
  {
  }

  lemma HandlerBalances(st: State, s: ServerId, ok: bool, n: NodeId, r: Resource)
    requires Enabled(st, Advance(s, ok)) && n in st.db.nodes
    requires TaskSound(st.db, s, st.tasks[s]) && !st.tasks[s].Moving?
    ensures var post := Next(st, Advance(s, ok));
            s in post.db.servers && n in post.db.nodes
            && post.db.nodes[n].Of(r) - st.db.nodes[n].Of(r) == Share(post, s, n, r) - Share(st, s, n, r)
  {
  }

  lemma TransferBalances(st: State, s: ServerId, ok: bool, n: NodeId, r: Resource)
    requires Enabled(st, Advance(s, ok)) && n in st.db.nodes
    requires TaskSound(st.db, s, st.tasks[s]) && st.tasks[s].Moving?
    ensures var post := Next(st, Advance(s, ok));
            s in post.db.servers && n in post.db.nodes
            && post.db.nodes[n].Of(r) - st.db.nodes[n].Of(r) == Share(post, s, n, r) - Share(st, s, n, r)
  {
    var post := Next(st, Advance(s, ok));
    var t := st.tasks[s];
    assert post.db.servers[s].size == t.row.size;
    if t.pc.ReleaseOldNode? || t.pc.ChargeNewNode? {
      assert ChargedNode(post, s) == (if t.pc.ReleaseOldNode? then None else Some(t.target));
    } else {
      assert post.db.nodes == st.db.nodes;
    }
  }

  /** Beginning a handler charges nothing; a settings change moves the charge under the counter. */
  lemma RowStepDrifts(st: State, step: Step, s: ServerId, n: NodeId, r: Resource)
    requires Enabled(st, step) && n in st.db.nodes
    requires (step.BeginCreate? && step.s == s) || (step.BeginDelete? && step.s == s)
             || (step.BeginTransfer? && step.s == s) || (step.Resize? && step.s == s)
    ensures var post := Next(st, step);
            n in post.db.nodes && Discrepancy(post, n, r) == Discrepancy(st, n, r) + Drift(st, step, n, r)
  {
    OneShareChanges(st, Next(st, step), s, n, r);
    RowStepShare(st, step, s, n, r);
  }

  lemma RowStepShare(st: State, step: Step, s: ServerId, n: NodeId, r: Resource)
    requires Enabled(st, step) && n in st.db.nodes
    requires (step.BeginCreate? && step.s == s) || (step.BeginDelete? && step.s == s)
             || (step.BeginTransfer? && step.s == s) || (step.Resize? && step.s == s)
    ensures var post := Next(st, step);
            && s in post.db.servers && post.db.nodes == st.db.nodes
            && Share(post, s, n, r) == (if s in st.db.servers then Share(st, s, n, r) else 0) - Drift(st, step, n, r)
  {
  }

  /** Steps on nodes and allocations leave every charge alone; a heartbeat overwrites a counter. */
  lemma TableStepDrifts(st: State, step: Step, n: NodeId, r: Resource)
    requires Enabled(st, step) && n in st.db.nodes && n in Next(st, step).db.nodes
    requires step.AddNode? || step.DropNode? || step.AddAlloc? || step.DropAlloc? || step.Heartbeat?
    ensures Discrepancy(Next(st, step), n, r) == Discrepancy(st, n, r) + Drift(st, step, n, r)
  {
    SharesUnchanged(st, Next(st, step), n, r);
  }

  /**
    Every step moves a node's discrepancy by its drift, which is zero for everything but a
    heartbeat of that node and a settings change of a server on it.
   */
  lemma LedgerStep(st: State, step: Step, n: NodeId, r: Resource)
    requires TasksSound(st) && Enabled(st, step)
    requires n in st.db.nodes && n in Next(st, step).db.nodes
    ensures Discrepancy(Next(st, step), n, r) == Discrepancy(st, n, r) + Drift(st, step, n, r)
  {
    if step.Advance? {
      assert TaskSound(st.db, step.s, st.tasks[step.s]);
      AdvanceBalances(st, step.s, step.ok, n, r);
    } else if step.RemoveServer? {
      RemovalBalances(st, step.s, n, r);
    } else if step.BeginCreate? || step.BeginDelete? || step.BeginTransfer? || step.Resize? {
      RowStepDrifts(st, step, step.s, n, r);
    } else {
      TableStepDrifts(st, step, n, r);
    }
  }

  lemma SharesUnchanged(st: State, post: State, n: NodeId, r: Resource)
    requires post.db.servers == st.db.servers && post.tasks == st.tasks
    ensures Shares(post, n, r) == Shares(st, n, r)
  {
    forall s | s in st.db.servers ensures Share(post, s, n, r) == Share(st, s, n, r) {
      assert ChargedNode(post, s) == ChargedNode(st, s);
    }
  }

  /** A deleted server's row goes without a charge to give back. */
  lemma RemovalBalances(st: State, s: ServerId, n: NodeId, r: Resource)
    requires Enabled(st, RemoveServer(s))
    ensures Total(Shares(Next(st, RemoveServer(s)), n, r)) == Total(Shares(st, n, r))
  {
    var post := Next(st, RemoveServer(s));
    assert Share(st, s, n, r) == 0;
    TotalExtract(Shares(st, n, r), s);
    assert Shares(post, n, r) == Shares(st, n, r) - {s} by {
      forall x | x in post.db.servers ensures Share(post, x, n, r) == Share(st, x, n, r) {
        assert ChargedNode(post, x) == ChargedNode(st, x);
      }
    }
  }

  /** Node n exists before every step of the run and after the last. */
  ghost predicate NodeStays(st: State, run: seq<Step>, n: NodeId)
    requires Legal(st, run)
    decreases |run|
  {
    n in st.db.nodes && (run == [] || NodeStays(Next(st, run[0]), run[1..], n))
  }

  ghost function DriftOf(st: State, run: seq<Step>, n: NodeId, r: Resource): int
    requires Legal(st, run) && NodeStays(st, run, n)
    decreases |run|
  {
    if run == [] then 0
    else Drift(st, run[0], n, r) + DriftOf(Next(st, run[0]), run[1..], n, r)
  }

  /** Over any run the discrepancy moves by the drift of the run's heartbeats and settings changes. */
  lemma {:induction false} LedgerRun(st: State, run: seq<Step>, n: NodeId, r: Resource)
    requires Sound(st) && Legal(st, run) && NodeStays(st, run, n)
    ensures n in Exec(st, run).db.nodes
    ensures Discrepancy(Exec(st, run), n, r) == Discrepancy(st, n, r) + DriftOf(st, run, n, r)
    decreases |run|
  {
    if run != [] {
      LedgerStep(st, run[0], n, r);
      SoundStep(st, run[0]);
      LedgerRun(Next(st, run[0]), run[1..], n, r);
    }
  }

  lemma {:induction false} QuietRunHasNoDrift(st: State, run: seq<Step>, n: NodeId, r: Resource)
    requires Legal(st, run) && NodeStays(st, run, n)
    requires forall i | 0 <= i < |run| :: !run[i].Resize? && !(run[i].Heartbeat? && run[i].n == n)
    ensures DriftOf(st, run, n, r) == 0
    decreases |run|
  {
    if run != [] {
      assert forall i | 0 <= i < |run[1..]| :: run[1..][i] == run[i + 1];
      QuietRunHasNoDrift(Next(st, run[0]), run[1..], n, r);
    }
  }

  /** Between two heartbeats of a node, without settings changes, its discrepancy is constant. */
  lemma ConstantBetweenHeartbeats(st: State, run: seq<Step>, n: NodeId, r: Resource)
    requires Sound(st) && Legal(st, run) && NodeStays(st, run, n)
    requires forall i | 0 <= i < |run| :: !run[i].Resize? && !(run[i].Heartbeat? && run[i].n == n)
    ensures n in Exec(st, run).db.nodes
    ensures Discrepancy(Exec(st, run), n, r) == Discrepancy(st, n, r)
  {
    LedgerRun(st, run, n, r);
    QuietRunHasNoDrift(st, run, n, r);
  }

  /** The servers on node n that no delete request has reached, with their sizes. */
  function LiveSizes(db: Db, tasks: map<ServerId, Task>, n: NodeId, r: Resource): map<ServerId, int> {
    map s | s in db.servers && db.servers[s].node == n && (s in tasks ==> tasks[s] != Deleted) :: db.servers[s].size.Of(r)
  }

  function Only(m: map<ServerId, int>, keep: set<ServerId>): map<ServerId, int> {
    map k | k in m && k in keep :: m[k]
  }

  /** A sum is unchanged by leaving out entries that are zero. */
  lemma {:induction false} TotalOfNonZero(m: map<ServerId, int>, keep: set<ServerId>)
    requires forall k | k in m && k !in keep :: m[k] == 0
    ensures Total(m) == Total(Only(m, keep))
    decreases m.Keys
  {
    if k :| k in m && k !in keep {
      TotalExtract(m, k);
      assert (m - {k}).Keys < m.Keys by { assert k !in (m - {k}); }
      TotalOfNonZero(m - {k}, keep);
      assert Only(m - {k}, keep) == Only(m, keep);
    } else {
      assert Only(m, keep) == m;
    }
  }

  /**
    With no create, delete or transfer between two statements, a counter is its discrepancy
    plus the sizes of the node's servers that have no delete request.
   */
  lemma QuiescentLedger(st: State, n: NodeId, r: Resource)
    requires n in st.db.nodes && forall s | s in st.tasks :: st.tasks[s] == Deleted
    ensures st.db.nodes[n].Of(r) == Discrepancy(st, n, r) + Total(LiveSizes(st.db, st.tasks, n, r))
  {
    var keep := LiveSizes(st.db, st.tasks, n, r).Keys;
    TotalOfNonZero(Shares(st, n, r), keep);
    forall s | s in st.db.servers
      ensures s in keep ==> Share(st, s, n, r) == st.db.servers[s].size.Of(r)
      ensures s !in keep ==> Share(st, s, n, r) == 0
    {
    }
    assert Only(Shares(st, n, r), keep) == LiveSizes(st.db, st.tasks, n, r);
  }

  /** A node just added is charged for nothing. */
  lemma NewNodeBalanced(st: State, n: NodeId, r: Resource)
    requires Sound(st) && Enabled(st, AddNode(n))
    ensures Discrepancy(Next(st, AddNode(n)), n, r) == 0
  {
    var post := Next(st, AddNode(n));
    forall s | s in post.db.servers ensures Share(post, s, n, r) == 0 {
      assert s in st.tasks ==> TaskSound(st.db, s, st.tasks[s]);
      assert st.db.servers[s].node in st.db.nodes;
    }
    TotalZero(Shares(post, n, r));
  }

  /**
    From the moment a node is added until its first heartbeat, its counter is the sum of the
    charges, whatever creates, deletes and transfers run in between.
   */
  lemma CounterIsSumUntilHeartbeat(st: State, n: NodeId, run: seq<Step>, r: Resource)
    requires Sound(st) && Enabled(st, AddNode(n))
    requires Legal(Next(st, AddNode(n)), run) && NodeStays(Next(st, AddNode(n)), run, n)
    requires forall i | 0 <= i < |run| :: !run[i].Resize? && !(run[i].Heartbeat? && run[i].n == n)
    ensures var post := Exec(Next(st, AddNode(n)), run);
            n in post.db.nodes && post.db.nodes[n].Of(r) == Total(Shares(post, n, r))
  {
    SoundStep(st, AddNode(n));
    NewNodeBalanced(st, n, r);
    ConstantBetweenHeartbeats(Next(st, AddNode(n)), run, n, r);
  }

  /**
    A settings change of a server keeps its node's balance exactly when it leaves the size of
    that resource alone: the handler writes the server's row and no counter.
   */
  lemma ResizeKeepsLedgerIff(st: State, s: ServerId, size: Amounts, r: Resource)
    requires Sound(st) && Enabled(st, Resize(s, size))
    ensures var n := st.db.servers[s].node;
            n in st.db.nodes
            && (Discrepancy(Next(st, Resize(s, size)), n, r) == Discrepancy(st, n, r)
                <==> size.Of(r) == st.db.servers[s].size.Of(r))
  {
    LedgerStep(st, Resize(s, size), st.db.servers[s].node, r);
  }
}
