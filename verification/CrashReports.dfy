/**
  The crash detector and the drain as the agent's methods over entry objects, the panel's
  heartbeat handler that counts the reported crashes, and how they meet.
 */
module CrashReports {
  import opened CrashWatch

  /** The tracked entry, updated in place by the detector, by Start and by the drain. */
  class ServerContainer {
    const serverID: ServerId
    var crashCount: nat
    var lastCrashedAt: Seconds
    var needsAttention: bool

    constructor (id: ServerId)
      ensures serverID == id && Fields() == NEW_ENTRY
    {
      serverID := id;
      crashCount, lastCrashedAt, needsAttention := 0, 0, false;
    }

    function Fields(): Entry
      reads this
    {
      Entry(crashCount, lastCrashedAt, needsAttention)
    }
  }

  /** One pass of the health check over one entry with nothing in between. */
  function AfterCheck(e: Entry, i: Inspection, recordedAt: Seconds, judgedAt: Seconds): (Entry, Verdict) {
    if !Crashed(i) then (e, LeaveAlone)
    else
      var e1 := Record(e, recordedAt);
      var verdict := Decide(e1, i.autoRestart, judgedAt);
      (e1.(needsAttention := verdict != Restart), verdict)
  }

  /** The pass is a run of the interleaved machine: look up, inspect, judge and, if so judged, start. */
  lemma CheckIsARun(w: Watch, s: ServerId, i: Inspection, recordedAt: Seconds, judgedAt: Seconds)
    requires IndexSound(w) && w.checker.Idle? && s in w.index && Crashed(i)
    ensures var (e, verdict) := AfterCheck(w.heap[w.index[s]], i, recordedAt, judgedAt);
            var run := [Lookup(s), Inspect(i, recordedAt), Judge(judgedAt)] + if verdict == Restart then [AutoStart] else [];
            Legal(w, run) && Exec(w, run).checker.Idle? && Exec(w, run).index == w.index
            && Exec(w, run).heap == w.heap[w.index[s] := e]
            && Count(Exec(w, run).caused, w.index[s]) ==
               Count(w.caused, w.index[s]) + (if verdict == Restart then 1 else 0)
  {
    var r := w.index[s];
    var verdict := AfterCheck(w.heap[r], i, recordedAt, judgedAt).1;
    var tail := if verdict == Restart then [AutoStart] else [];
    var w1 := Next(w, Lookup(s));
    var w2 := Next(w1, Inspect(i, recordedAt));
    var w3 := Next(w2, Judge(judgedAt));
    var run := [Lookup(s), Inspect(i, recordedAt), Judge(judgedAt)] + tail;
    assert run[1..] == [Inspect(i, recordedAt), Judge(judgedAt)] + tail;
    assert run[1..][1..] == [Judge(judgedAt)] + tail && run[1..][1..][1..] == tail;
    if verdict == Restart {
      var w4 := Next(w3, AutoStart);
      assert tail[1..] == [] && Legal(w3, tail) && Exec(w3, tail) == w4;
    } else {
      assert Legal(w3, tail) && Exec(w3, tail) == w3;
    }
    assert Legal(w2, [Judge(judgedAt)] + tail) && Exec(w2, [Judge(judgedAt)] + tail) == Exec(w3, tail);
    assert Legal(w1, run[1..]) && Exec(w1, run[1..]) == Exec(w3, tail);
  }

  class HealthMonitor {
    var containers: map<ServerId, ServerContainer>

    /** Every entry is filed under its own server, so no two servers share an entry object. */
    ghost predicate Valid()
      reads this
    {
      forall s | s in containers :: containers[s].serverID == s
    }

    constructor ()
      ensures Valid() && containers == map[]
    {
      containers := map[];
    }

    /** GetCrashedServers: report the flagged entries and clear their flags. */
    method GetCrashedServers() returns (crashed: seq<ServerId>)
      requires Valid()
      modifies containers.Values
      ensures forall s :: s in crashed <==> s in containers && old(containers[s].needsAttention)
      ensures forall i, j | 0 <= i < j < |crashed| :: crashed[i] != crashed[j]
      ensures forall s | s in containers :: containers[s].Fields() == old(containers[s].Fields()).(needsAttention := false)
    {
      crashed := [];
      var todo := containers.Keys;
      while todo != {}
        invariant todo <= containers.Keys
        invariant forall s | s in todo :: containers[s].Fields() == old(containers[s].Fields())
        invariant forall s | s in containers && s !in todo ::
                    containers[s].Fields() == old(containers[s].Fields()).(needsAttention := false)
        invariant forall s :: s in crashed <==> s in containers && s !in todo && old(containers[s].needsAttention)
        invariant forall i, j | 0 <= i < j < |crashed| :: crashed[i] != crashed[j]
        decreases todo
      {
        var id :| id in todo;
        var sc := containers[id];
        if sc.needsAttention {
          crashed := crashed + [id];
          sc.needsAttention := false;
        }
        todo := todo - {id};
      }
    }

    /** What runHealthCheck does to one entry, up to and including the flag that Start clears. */
    method CheckEntry(sc: ServerContainer, a: Answer) returns (verdict: Verdict)
      modifies sc
      ensures CheckedAs(old(sc.Fields()), a, sc.Fields(), verdict == Restart)
    {
      if !Crashed(a.inspection) {
        return LeaveAlone;
      }
      sc.crashCount := sc.crashCount + 1;
      sc.lastCrashedAt := a.recordedAt;
      sc.needsAttention := true;
      if !a.inspection.autoRestart {
        return LeaveAlone;
      }
      if sc.crashCount > RESTART_LIMIT {
        sc.needsAttention := true;
        return OverLimit;
      }
      if sc.crashCount > 1 && a.judgedAt - sc.lastCrashedAt < THROTTLE {
        return Throttled;
      }
      sc.needsAttention := false;
      return Restart;
    }

    /** The checks of one pass, the index aside: which entries the pass starts. */
    method CheckAll(tracked: map<ServerId, ServerContainer>, answers: map<ServerId, Answer>) returns (restarted: set<ServerId>)
      requires tracked.Keys <= answers.Keys && forall s | s in tracked :: tracked[s].serverID == s
      modifies tracked.Values
      ensures forall s | s in tracked ::
                CheckedAs(old(tracked[s].Fields()), answers[s], tracked[s].Fields(), s in restarted)
      ensures restarted <= tracked.Keys
    {
      ghost var was := map s | s in tracked :: tracked[s].Fields();
      restarted := {};
      var todo := tracked.Keys;
      while todo != {}
        invariant todo <= tracked.Keys
        invariant forall s | s in todo :: tracked[s].Fields() == was[s]
        invariant forall s | s in tracked && s !in todo ::
                    CheckedAs(was[s], answers[s], tracked[s].Fields(), s in restarted)
        invariant restarted <= tracked.Keys - todo
        decreases todo
      {
        var id :| id in todo;
        var verdict := CheckEntry(tracked[id], answers[id]);
        if verdict == Restart {
          restarted := restarted + {id};
        }
        todo := todo - {id};
      }
    }

    /**
      runHealthCheck: every server that was tracked when the pass began, once. A start that hears
      that the container is gone drops the entry from the index; no other check of the pass looks
      at that entry, so the drops are made together.
     */
    method RunHealthCheck(answers: map<ServerId, Answer>) returns (restarted: set<ServerId>)
      requires Valid() && containers.Keys <= answers.Keys
      modifies this, containers.Values
      ensures Valid()
      ensures forall s | s in old(containers) ::
                CheckedAs(old(containers[s].Fields()), answers[s], old(containers)[s].Fields(), s in restarted)
      ensures restarted <= old(containers).Keys
      ensures forall s :: s in containers <==> s in old(containers) && !(s in restarted && answers[s].gone)
      ensures forall s | s in containers :: containers[s] == old(containers)[s]
    {
      restarted := CheckAll(containers, answers);
      containers := map s | s in containers && !(s in restarted && answers[s].gone) :: containers[s];
    }
  }

  /** What Docker and the clock answer during one pass, for one server; `gone` is the answer to a start. */
  datatype Answer = Answer(inspection: Inspection, recordedAt: Seconds, judgedAt: Seconds, gone: bool)

  /**
    What one check of an entry must do, read off the answers alone. A server that could not be
    inspected, and one not killed for memory that has exited with 0 or still runs, is left as it
    is. Any other has crashed: that is counted and dated, and the server is restarted exactly if
    it is labelled for that, has crashed at most three times, and this is the first crash or the
    test comes ten minutes after it was recorded. Unless it is restarted its flag stays up.
   */
  predicate CheckedAs(before: Entry, a: Answer, after: Entry, restarted: bool) {
    match a.inspection
    case Unavailable => after == before && !restarted
    case Seen(oomKilled, exitCode, ended, autoRestart) =>
      if !oomKilled && (exitCode == 0 || !ended) then after == before && !restarted
      else
        && after.crashCount == before.crashCount + 1
        && after.lastCrashedAt == a.recordedAt
        && (restarted <==> autoRestart && before.crashCount + 1 <= 3
                           && (before.crashCount == 0 || a.judgedAt - a.recordedAt >= 600))
        && (after.needsAttention <==> !restarted)
  }

  /** Exactly the pass over the entry does that, so it decides every field and the restart. */
  lemma CheckedAsIff(before: Entry, a: Answer, after: Entry, restarted: bool)
    ensures CheckedAs(before, a, after, restarted) <==>
            var (e, verdict) := AfterCheck(before, a.inspection, a.recordedAt, a.judgedAt);
            after == e && (restarted <==> verdict == Restart)
  {
  }

  // ---------------------------------------------------------------- the panel's count

  type NodeId = nat

  datatype PanelStatus = CrashedStatus | OtherStatus
  datatype ServerRow = ServerRow(node: NodeId, status: PanelStatus, crashCount: nat, lastCrashedAt: Seconds)

  /** A heartbeat that reached the panel: its node, the crashes it reports, and when. */
  datatype Beat = Beat(node: NodeId, crashed: seq<ServerId>, now: Seconds)

  /** The guarded UPDATE for one reported server, after the SELECT that it is a server of that node. */
  function Count1(rows: map<ServerId, ServerRow>, node: NodeId, s: ServerId, now: Seconds): map<ServerId, ServerRow> {
    if s in rows && rows[s].node == node && rows[s].status != CrashedStatus
    then rows[s := rows[s].(status := CrashedStatus, crashCount := rows[s].crashCount + 1, lastCrashedAt := now)]
    else rows
  }

  function AfterReports(rows: map<ServerId, ServerRow>, node: NodeId, crashed: seq<ServerId>, now: Seconds): map<ServerId, ServerRow> {
    if crashed == [] then rows
    else Count1(AfterReports(rows, node, crashed[..|crashed| - 1], now), node, crashed[|crashed| - 1], now)
  }

  function AfterBeats(rows: map<ServerId, ServerRow>, beats: seq<Beat>): map<ServerId, ServerRow> {
    if beats == [] then rows
    else
      var b := beats[|beats| - 1];
      AfterReports(AfterBeats(rows, beats[..|beats| - 1]), b.node, b.crashed, b.now)
  }

  class ServersTable {
    var rows: map<ServerId, ServerRow>

    constructor (initial: map<ServerId, ServerRow>)
      ensures rows == initial
    {
      rows := initial;
    }

    /** The loop of POST /remote/heartbeat over the crashed servers. */
    method Heartbeat(b: Beat)
      modifies this
      ensures rows == AfterReports(old(rows), b.node, b.crashed, b.now)
    {
      for k := 0 to |b.crashed|
        invariant rows == AfterReports(old(rows), b.node, b.crashed[..k], b.now)
      {
        var s := b.crashed[k];
        assert b.crashed[..k + 1][..k] == b.crashed[..k];
        if s !in rows || rows[s].node != b.node {
          continue;
        }
        if rows[s].status != CrashedStatus {
          rows := rows[s := rows[s].(status := CrashedStatus, crashCount := rows[s].crashCount + 1, lastCrashedAt := b.now)];
        }
      }
      assert b.crashed[..|b.crashed|] == b.crashed;
    }
  }

  lemma {:induction false} ReportsRaiseOnce(rows: map<ServerId, ServerRow>, node: NodeId, crashed: seq<ServerId>, now: Seconds, s: ServerId)
    requires s in rows
    ensures var post := AfterReports(rows, node, crashed, now);
            post.Keys == rows.Keys
            && post[s] == if s in crashed && rows[s].node == node && rows[s].status != CrashedStatus
                          then ServerRow(node, CrashedStatus, rows[s].crashCount + 1, now) else rows[s]
    decreases |crashed|
  {
    if crashed != [] {
      var k := |crashed| - 1;
      ReportsRaiseOnce(rows, node, crashed[..k], now, s);
      assert crashed == crashed[..k] + [crashed[k]];
      assert s in crashed <==> s in crashed[..k] || s == crashed[k];
    }
  }

  /** Some heartbeat of the server's node reports it. */
  ghost predicate Reported(beats: seq<Beat>, node: NodeId, s: ServerId) {
    exists i | 0 <= i < |beats| :: beats[i].node == node && s in beats[i].crashed
  }

  /**
    Over any number of heartbeats with no job and no reset in between, a server's crash count
    rises by at most one: by one exactly when it was not marked crashed and its node reported it
    at least once, however often the agent raises the flag again.
   */
  lemma {:induction false} BeatsRaiseOnce(rows: map<ServerId, ServerRow>, beats: seq<Beat>, s: ServerId)
    requires s in rows
    ensures var post := AfterBeats(rows, beats);
            post.Keys == rows.Keys && post[s].node == rows[s].node
            && post[s].crashCount == rows[s].crashCount
                 + (if rows[s].status != CrashedStatus && Reported(beats, rows[s].node, s) then 1 else 0)
            && (post[s].status == CrashedStatus <==> rows[s].status == CrashedStatus || Reported(beats, rows[s].node, s))
    decreases |beats|
  {
    if beats != [] {
      var k := |beats| - 1;
      BeatsRaiseOnce(rows, beats[..k], s);
      var mid := AfterBeats(rows, beats[..k]);
      ReportsRaiseOnce(mid, beats[k].node, beats[k].crashed, beats[k].now, s);
      var n := rows[s].node;
      assert Reported(beats, n, s) <==> Reported(beats[..k], n, s) || (beats[k].node == n && s in beats[k].crashed) by {
        if Reported(beats[..k], n, s) {
          var i :| 0 <= i < k && beats[..k][i].node == n && s in beats[..k][i].crashed;
          assert beats[i].node == n && s in beats[i].crashed;
        }
        if Reported(beats, n, s) {
          var i :| 0 <= i < |beats| && beats[i].node == n && s in beats[i].crashed;
          assert i < k ==> beats[..k][i] == beats[i];
        }
      }
    }
  }

  // ---------------------------------------------------------------- agent and panel together

  /** A step of the agent's machine other than a drain, or a heartbeat: a drain whose report may not arrive. */
  datatype Event = Watched(step: Step) | Exchanged(report: seq<ServerId>, now: Seconds, arrives: bool)

  /** What the agent does along the run. */
  function AgentSteps(run: seq<Event>): (steps: seq<Step>)
    ensures |steps| == |run|
    ensures forall i | 0 <= i < |run| :: steps[i] == if run[i].Watched? then run[i].step else Drain
  {
    seq(|run|, i requires 0 <= i < |run| => if run[i].Watched? then run[i].step else Drain)
  }

  /** Only heartbeats drain, and a report holds exactly the servers that its drain returns. */
  ghost predicate Faithful(run: seq<Event>) {
    && Legal(FRESH_WATCH, AgentSteps(run))
    && (forall i | 0 <= i < |run| && run[i].Watched? :: run[i].step != Drain)
    && (forall i | 0 <= i < |run| && run[i].Exchanged? ::
          forall s :: s in run[i].report <==> s in Report(StateAt(AgentSteps(run), i)))
  }

  /** The heartbeats that reach the panel, all from one node. */
  function Arrived(run: seq<Event>, node: NodeId): seq<Beat> {
    if run == [] then []
    else
      var e := run[|run| - 1];
      Arrived(run[..|run| - 1], node) + if e.Exchanged? && e.arrives then [Beat(node, e.report, e.now)] else []
  }

  /** The i-th event brings a crash of server s to the panel. */
  ghost predicate Brings(run: seq<Event>, i: nat, s: ServerId)
    requires i < |run|
  {
    run[i].Exchanged? && run[i].arrives && s in run[i].report
  }

  lemma {:induction false} ReportedIffBrought(run: seq<Event>, n: nat, node: NodeId, s: ServerId)
    requires n <= |run|
    ensures Reported(Arrived(run[..n], node), node, s) <==> exists i :: 0 <= i < n && Brings(run, i, s)
  {
    if n > 0 {
      ReportedIffBrought(run, n - 1, node, s);
      var e := run[n - 1];
      var before, last := Arrived(run[..n - 1], node), if e.Exchanged? && e.arrives then [Beat(node, e.report, e.now)] else [];
      assert run[..n][..n - 1] == run[..n - 1];
      assert Arrived(run[..n], node) == before + last;
      ReportedConcat(before, last, node, s);
      assert Reported(last, node, s) <==> Brings(run, n - 1, s) by {
        if Brings(run, n - 1, s) {
          assert last[0].node == node && s in last[0].crashed;
        }
      }
    }
  }

  lemma ReportedConcat(a: seq<Beat>, b: seq<Beat>, node: NodeId, s: ServerId)
    ensures Reported(a + b, node, s) <==> Reported(a, node, s) || Reported(b, node, s)
  {
    if Reported(a, node, s) {
      var i :| 0 <= i < |a| && a[i].node == node && s in a[i].crashed;
      assert (a + b)[i].node == node && s in (a + b)[i].crashed;
    }
    if Reported(b, node, s) {
      var i :| 0 <= i < |b| && b[i].node == node && s in b[i].crashed;
      assert (a + b)[|a| + i].node == node && s in (a + b)[|a| + i].crashed;
    }
  }

  /** When a heartbeat is sent, the agent tracks s with a crash not yet drained or started over. */
  ghost predicate OwedAt(run: seq<Event>, i: nat, s: ServerId)
    requires i < |run|
  {
    var w := StateAt(AgentSteps(run), i);
    s in w.index && Owed(AgentSteps(run), i, w.index[s])
  }

  lemma ReportHoldsOwed(run: seq<Event>, i: nat, s: ServerId)
    requires Faithful(run) && i < |run| && run[i].Exchanged?
    ensures s in run[i].report <==> OwedAt(run, i, s)
  {
    var w := StateAt(AgentSteps(run), i);
    if s in w.index {
      FlaggedIsOwed(AgentSteps(run), i, w.index[s]);
    }
    assert s in run[i].report <==> s in Report(w);
  }

  /** A heartbeat that arrives, sent while a crash of s is owed. */
  ghost predicate Delivers(run: seq<Event>, i: nat, s: ServerId)
    requires i < |run|
  {
    run[i].Exchanged? && run[i].arrives && OwedAt(run, i, s)
  }

  /**
    Over any run of crashes, checks, starts, creates, removals and heartbeats, some of which are
    lost, with no job or reset on the panel: the panel counts a crash of an unmarked server of
    the node if and only if some heartbeat that arrives was sent while a crash of it was owed,
    and then one.
   */
  lemma CountedIffDelivered(run: seq<Event>, node: NodeId, rows: map<ServerId, ServerRow>, s: ServerId)
    requires Faithful(run) && s in rows && rows[s].node == node && rows[s].status != CrashedStatus
    ensures var post := AfterBeats(rows, Arrived(run, node));
            && s in post
            && post[s].crashCount == rows[s].crashCount + (if exists i :: 0 <= i < |run| && Delivers(run, i, s) then 1 else 0)
  {
    BeatsRaiseOnce(rows, Arrived(run, node), s);
    assert run[..|run|] == run;
    ReportedIffBrought(run, |run|, node, s);
    forall i | 0 <= i < |run| ensures Brings(run, i, s) <==> Delivers(run, i, s) {
      if run[i].Exchanged? {
        ReportHoldsOwed(run, i, s);
      }
    }
  }

  /**
    A report that is lost is not made again: unless the entry's flag is raised anew, no later
    heartbeat is sent while the crash is owed.
   */
  lemma LostReportIsNotRepeated(run: seq<Event>, lost: nat, i: nat, s: ServerId)
    requires Faithful(run) && lost < i < |run| && run[lost].Exchanged? && OwedAt(run, lost, s)
    requires s in StateAt(AgentSteps(run), i).index
    requires StateAt(AgentSteps(run), i).index[s] == StateAt(AgentSteps(run), lost).index[s]
    requires forall j | lost < j < i :: !RaisedAt(AgentSteps(run), j, StateAt(AgentSteps(run), lost).index[s])
    ensures !OwedAt(run, i, s)
  {
    var steps := AgentSteps(run);
    var w := StateAt(steps, lost);
    var r := w.index[s];
    assert steps[lost] == Drain && r in w.index.Values;
    assert SettledAt(steps, lost, r) && !RaisedAt(steps, lost, r);
    assert forall k | 0 <= k < i && RaisedAt(steps, k, r) :: k < lost;
  }
}
