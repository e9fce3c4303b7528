/**
  The scheduler: what one tick does to the schedules, and how often a schedule is executed over
  a whole run of ticks, with manual runs in between. Times are milliseconds since the epoch.
 */
module Scheduler {
  import opened Common
  import opened Cron

  type Ms = nat
  type ScheduleId = nat
  type ServerId = nat

  function Minute(t: Ms): nat {
    t / 60000
  }

  datatype Task = Task(kind: string, payload: string)

  datatype Job = Command(server: ServerId, command: string) | Power(server: ServerId, action: string) | Backup(server: ServerId)

  datatype ScheduleRow = ScheduleRow(server: ServerId, expr: string, tasks: seq<Task>, lastRun: Option<Ms>)

  const POWER_ACTIONS := ["start", "stop", "restart", "kill"]

  /** The job a task asks for; announcements and anything unknown ask for none. */
  function JobOf(server: ServerId, task: Task): Option<Job> {
    if task.kind == "command" then Some(Command(server, task.payload))
    else if task.kind == "power" && task.payload in POWER_ACTIONS then Some(Power(server, task.payload))
    else if task.kind == "backup" then Some(Backup(server))
    else None
  }

  /** The jobs that get into the queue, in order; an attempt that fails loses only its own job. */
  function JobsOf(server: ServerId, tasks: seq<Task>, queued: seq<bool>): seq<Job>
    requires |queued| == |tasks|
  {
    if tasks == [] then []
    else
      var k := |tasks| - 1;
      var job := JobOf(server, tasks[k]);
      JobsOf(server, tasks[..k], queued[..k]) + if job.Some? && queued[k] then [job.value] else []
  }

  /** The tick's two tests: not yet run in this minute, and the expression matches. */
  predicate Fires(lastRun: Option<Ms>, expr: string, now: Ms, date: Calendar) {
    !(lastRun.Some? && Minute(lastRun.value) == Minute(now)) && CronHits(expr, date)
  }

  /** How the executions of one tick turn out, by schedule. */
  datatype Execution = Execution(queued: seq<bool>, doneAt: Ms)

  /** The first k rows a tick works on are listed once each, with an outcome for every task. */
  predicate TickOk(rows: map<ScheduleId, ScheduleRow>, order: seq<ScheduleId>, k: nat, outcomes: map<ScheduleId, Execution>) {
    k == 0 ||
    (&& k <= |order| && TickOk(rows, order, k - 1, outcomes)
     && order[k - 1] in rows && order[k - 1] in outcomes && order[k - 1] !in order[..k - 1]
     && |outcomes[order[k - 1]].queued| == |rows[order[k - 1]].tasks|)
  }

  lemma {:induction false} TickOkBelow(rows: map<ScheduleId, ScheduleRow>, order: seq<ScheduleId>, n: nat, k: nat,
                                       outcomes: map<ScheduleId, Execution>)
    requires k <= n && TickOk(rows, order, n, outcomes)
    ensures TickOk(rows, order, k, outcomes)
  {
    if k < n {
      TickOkBelow(rows, order, n - 1, k, outcomes);
    }
  }

  /** The stamps and the jobs that a tick has added after its first k rows. */
  function AfterTick(rows: map<ScheduleId, ScheduleRow>, order: seq<ScheduleId>, k: nat, now: Ms, date: Calendar,
                     outcomes: map<ScheduleId, Execution>): (map<ScheduleId, ScheduleRow>, seq<Job>)
    requires TickOk(rows, order, k, outcomes)
  {
    if k == 0 then (rows, [])
    else
      var id := order[k - 1];
      var row, out := rows[id], outcomes[id];
      var (done, jobs) := AfterTick(rows, order, k - 1, now, date, outcomes);
      if Fires(row.lastRun, row.expr, now, date)
      then (done[id := row.(lastRun := Some(out.doneAt))], jobs + JobsOf(row.server, row.tasks, out.queued))
      else (done, jobs)
  }

  /** A tick stamps exactly the rows it lists that fire, and leaves every other row alone. */
  lemma {:induction false} TickStampsExactly(rows: map<ScheduleId, ScheduleRow>, order: seq<ScheduleId>, k: nat, now: Ms,
                                             date: Calendar, outcomes: map<ScheduleId, Execution>, id: ScheduleId)
    requires TickOk(rows, order, k, outcomes) && id in rows
    ensures k <= |order|
    ensures var done := AfterTick(rows, order, k, now, date, outcomes).0;
            done.Keys == rows.Keys
            && done[id] == if id in order[..k] && id in outcomes && Fires(rows[id].lastRun, rows[id].expr, now, date)
                           then rows[id].(lastRun := Some(outcomes[id].doneAt)) else rows[id]
  {
    if k > 0 {
      TickStampsExactly(rows, order, k - 1, now, date, outcomes, id);
      assert order[..k] == order[..k - 1] + [order[k - 1]];
    }
  }

  // ---------------------------------------------------------------- minutes and jobs, read off the clock and the tasks

  /** The first millisecond of the k-th minute since the epoch. */
  function MinuteStart(k: nat): Ms {
    60000 * k
  }

  lemma MinuteMeans(t: Ms, m: nat)
    ensures Minute(t) == m <==> MinuteStart(m) <= t < MinuteStart(m + 1)
  {
  }

  /** A minute begins after the one moment and not after the other. */
  ghost predicate MinuteBegins(after: Ms, until: Ms) {
    exists k: nat :: after < MinuteStart(k) <= until
  }

  lemma DifferentMinutesIff(t: Ms, now: Ms)
    ensures Minute(t) != Minute(now) <==> MinuteBegins(t, now) || MinuteBegins(now, t)
    ensures now - t >= 60000 ==> MinuteBegins(t, now)
  {
    var m, n := Minute(t), Minute(now);
    MinuteMeans(t, m);
    MinuteMeans(now, n);
    if m < n || now - t >= 60000 {
      assert t < MinuteStart(m + 1) <= now;
    } else if n < m {
      assert now < MinuteStart(n + 1) <= t;
    }
  }

  /** The row was never stamped, or a minute begins between its stamp and now, whichever is earlier. */
  ghost predicate NotInThisMinute(lastRun: Option<Ms>, now: Ms) {
    lastRun.None? || MinuteBegins(lastRun.value, now) || MinuteBegins(now, lastRun.value)
  }

  /**
    A row that the tick lists is stamped exactly if its expression matches and its last stamp is
    not of this minute, so always when that is 60000 milliseconds ago.
   */
  lemma StampedIff(rows: map<ScheduleId, ScheduleRow>, order: seq<ScheduleId>, now: Ms, date: Calendar,
                   outcomes: map<ScheduleId, Execution>, id: ScheduleId)
    requires TickOk(rows, order, |order|, outcomes) && id in order && id in rows && id in outcomes
    ensures var lastRun, done := rows[id].lastRun, AfterTick(rows, order, |order|, now, date, outcomes).0;
            && id in done
            && done[id] == (if CronHits(rows[id].expr, date) && NotInThisMinute(lastRun, now)
                            then rows[id].(lastRun := Some(outcomes[id].doneAt)) else rows[id])
            && (lastRun.Some? && now - lastRun.value >= 60000 ==> NotInThisMinute(lastRun, now))
  {
    TickStampsExactly(rows, order, |order|, now, date, outcomes, id);
    assert order[..|order|] == order;
    if rows[id].lastRun.Some? {
      DifferentMinutesIff(rows[id].lastRun.value, now);
    }
  }

  lemma {:induction false} TickKeys(rows: map<ScheduleId, ScheduleRow>, order: seq<ScheduleId>, k: nat, now: Ms, date: Calendar,
                                    outcomes: map<ScheduleId, Execution>)
    requires TickOk(rows, order, k, outcomes)
    ensures AfterTick(rows, order, k, now, date, outcomes).0.Keys == rows.Keys
  {
    if k > 0 {
      TickKeys(rows, order, k - 1, now, date, outcomes);
    }
  }

  lemma TickStamps(rows: map<ScheduleId, ScheduleRow>, order: seq<ScheduleId>, now: Ms, date: Calendar,
                   outcomes: map<ScheduleId, Execution>)
    requires TickOk(rows, order, |order|, outcomes)
    ensures var done := AfterTick(rows, order, |order|, now, date, outcomes).0;
            && done.Keys == rows.Keys
            && forall id | id in order && id in outcomes && id in rows ::
                 id in done && done[id] == if CronHits(rows[id].expr, date) && NotInThisMinute(rows[id].lastRun, now)
                                           then rows[id].(lastRun := Some(outcomes[id].doneAt)) else rows[id]
  {
    TickKeys(rows, order, |order|, now, date, outcomes);
    forall id | id in order && id in outcomes && id in rows
      ensures var done := AfterTick(rows, order, |order|, now, date, outcomes).0;
              id in done && done[id] == if CronHits(rows[id].expr, date) && NotInThisMinute(rows[id].lastRun, now)
                                        then rows[id].(lastRun := Some(outcomes[id].doneAt)) else rows[id]
    {
      StampedIff(rows, order, now, date, outcomes, id);
    }
  }

  lemma JobsLast(server: ServerId, tasks: seq<Task>, task: Task, queued: seq<bool>, q: bool, rest: seq<Task>, qRest: seq<bool>)
    requires |qRest| == |rest| && tasks == rest + [task] && queued == qRest + [q]
    ensures JobsOf(server, tasks, queued) ==
            JobsOf(server, rest, qRest) + if JobOf(server, task).Some? && q then [JobOf(server, task).value] else []
  {
    assert tasks[..|tasks| - 1] == rest && queued[..|tasks| - 1] == qRest;
  }

  lemma {:induction false} JobsConcat(server: ServerId, a: seq<Task>, b: seq<Task>, qa: seq<bool>, qb: seq<bool>)
    requires |qa| == |a| && |qb| == |b|
    ensures JobsOf(server, a + b, qa + qb) == JobsOf(server, a, qa) + JobsOf(server, b, qb)
    decreases |b|
  {
    if b == [] {
      assert a + b == a && qa + qb == qa;
    } else {
      var k := |b| - 1;
      assert b == b[..k] + [b[k]] && qb == qb[..k] + [qb[k]];
      JobsConcat(server, a, b[..k], qa, qb[..k]);
      JobsLast(server, b, b[k], qb, qb[k], b[..k], qb[..k]);
      assert a + b == (a + b[..k]) + [b[k]] && qa + qb == (qa + qb[..k]) + [qb[k]];
      JobsLast(server, a + b, b[k], qa + qb, qb[k], a + b[..k], qa + qb[..k]);
    }
  }

  /** What one task puts into the queue. */
  lemma JobOfOne(server: ServerId, task: Task, queued: bool)
    ensures JobsOf(server, [task], [queued]) ==
            if !queued then []
            else if task.kind == "command" then [Command(server, task.payload)]
            else if task.kind == "power" && (task.payload == "start" || task.payload == "stop"
                                             || task.payload == "restart" || task.payload == "kill")
                 then [Power(server, task.payload)]
            else if task.kind == "backup" then [Backup(server)]
            else []
  {
  }

  /** The queue gets the jobs of the tasks in their order, and a task's own job whatever becomes of the others. */
  lemma JobsInOrder(server: ServerId, before: seq<Task>, task: Task, after: seq<Task>, qBefore: seq<bool>, queued: bool, qAfter: seq<bool>)
    requires |qBefore| == |before| && |qAfter| == |after|
    ensures JobsOf(server, before + [task] + after, qBefore + [queued] + qAfter) ==
            JobsOf(server, before, qBefore) + JobsOf(server, [task], [queued]) + JobsOf(server, after, qAfter)
  {
    JobsConcat(server, before, [task], qBefore, [queued]);
    JobsConcat(server, before + [task], after, qBefore + [queued], qAfter);
  }

  class ScheduleTable {
    var rows: map<ScheduleId, ScheduleRow>
    var queue: seq<Job>

    constructor (initial: map<ScheduleId, ScheduleRow>)
      ensures rows == initial && queue == []
    {
      rows, queue := initial, [];
    }

    /** executeSchedule on the row as the tick read it. */
    method ExecuteSchedule(id: ScheduleId, schedule: ScheduleRow, out: Execution)
      requires |out.queued| == |schedule.tasks|
      modifies this
      ensures queue == old(queue) + JobsOf(schedule.server, schedule.tasks, out.queued)
      ensures rows == if id in old(rows) then old(rows)[id := old(rows)[id].(lastRun := Some(out.doneAt))] else old(rows)
    {
      for k := 0 to |schedule.tasks|
        invariant rows == old(rows)
        invariant queue == old(queue) + JobsOf(schedule.server, schedule.tasks[..k], out.queued[..k])
      {
        var task := schedule.tasks[k];
        assert schedule.tasks[..k + 1][..k] == schedule.tasks[..k] && out.queued[..k + 1][..k] == out.queued[..k];
        if task.kind == "command" {
          if out.queued[k] { queue := queue + [Command(schedule.server, task.payload)]; }
        } else if task.kind == "power" {
          if task.payload in POWER_ACTIONS && out.queued[k] {
            queue := queue + [Power(schedule.server, task.payload)];
          }
        } else if task.kind == "backup" {
          if out.queued[k] { queue := queue + [Backup(schedule.server)]; }
        }
      }
      assert schedule.tasks[..|schedule.tasks|] == schedule.tasks && out.queued[..|out.queued|] == out.queued;
      if id in rows {
        rows := rows[id := rows[id].(lastRun := Some(out.doneAt))];
      }
    }

    /** The manual trigger: the same jobs and the same stamp, with no test of the minute or the expression. */
    method RunNow(id: ScheduleId, out: Execution) returns (found: bool)
      requires id in rows ==> |out.queued| == |rows[id].tasks|
      modifies this
      ensures found <==> id in old(rows)
      ensures !found ==> rows == old(rows) && queue == old(queue)
      ensures found ==>
                queue == old(queue) + JobsOf(old(rows)[id].server, old(rows)[id].tasks, out.queued)
                && rows == old(rows)[id := old(rows)[id].(lastRun := Some(out.doneAt))]
    {
      if id !in rows {
        return false;
      }
      ExecuteSchedule(id, rows[id], out);
      return true;
    }

    /** The body of the tick's loop, for one row of the query's result. */
    method Consider(id: ScheduleId, schedule: ScheduleRow, now: Ms, date: Calendar, out: Execution)
      requires |out.queued| == |schedule.tasks|
      requires id in rows && rows[id] == schedule
      modifies this
      ensures if Fires(schedule.lastRun, schedule.expr, now, date)
              then rows == old(rows)[id := schedule.(lastRun := Some(out.doneAt))]
                   && queue == old(queue) + JobsOf(schedule.server, schedule.tasks, out.queued)
              else rows == old(rows) && queue == old(queue)
    {
      if schedule.lastRun.Some? && Minute(schedule.lastRun.value) == Minute(now) {
        return;
      }
      var hit := MatchesCron(schedule.expr, date);
      if hit {
        ExecuteSchedule(id, schedule, out);
      }
    }

    /** The k-th turn of the loop takes the table from the state after k rows to the state after k + 1. */
    method Turn(result: map<ScheduleId, ScheduleRow>, order: seq<ScheduleId>, k: nat, now: Ms, date: Calendar,
                outcomes: map<ScheduleId, Execution>, ghost before: seq<Job>)
      requires k < |order| && TickOk(result, order, k + 1, outcomes)
      requires rows == AfterTick(result, order, k, now, date, outcomes).0
      requires queue == before + AfterTick(result, order, k, now, date, outcomes).1
      modifies this
      ensures rows == AfterTick(result, order, k + 1, now, date, outcomes).0
      ensures queue == before + AfterTick(result, order, k + 1, now, date, outcomes).1
    {
      var id := order[k];
      TickStampsExactly(result, order, k, now, date, outcomes, id);
      Consider(id, result[id], now, date, outcomes[id]);
    }

    /** One tick over the active rows, in the order in which the query returned them. */
    method Tick(order: seq<ScheduleId>, now: Ms, date: Calendar, outcomes: map<ScheduleId, Execution>)
      requires TickOk(rows, order, |order|, outcomes)
      modifies this
      ensures var (done, jobs) := AfterTick(old(rows), order, |order|, now, date, outcomes);
              rows == done && queue == old(queue) + jobs
      ensures rows.Keys == old(rows).Keys
      ensures forall id | id in order && id in outcomes && id in rows ::
                rows[id] == if CronHits(old(rows)[id].expr, date) && NotInThisMinute(old(rows)[id].lastRun, now)
                            then old(rows)[id].(lastRun := Some(outcomes[id].doneAt)) else old(rows)[id]
    {
      TickStamps(rows, order, now, date, outcomes);
      var result := rows;
      for k := 0 to |order|
        invariant TickOk(result, order, k, outcomes)
        invariant rows == AfterTick(result, order, k, now, date, outcomes).0
        invariant queue == old(queue) + AfterTick(result, order, k, now, date, outcomes).1
      {
        TickOkBelow(result, order, |order|, k + 1, outcomes);
        Turn(result, order, k, now, date, outcomes, old(queue));
      }
    }
  }

  // ---------------------------------------------------------------- runs of ticks

  /** The life of one schedule: a tick reads its row, decides, and stamps it when done; or somebody runs it by hand. */
  datatype Event =
    | Read(at: Ms)
    | Decide(now: Ms)
    | Finish(at: Ms)
    | Manual(at: Ms)

  datatype Phase = Waiting | HasRow(seen: Option<Ms>) | Executing(now: Ms)

  /** The stamp in the table, where the tick stands, the clock, and the minutes of the scheduler's executions. */
  datatype Life = Life(lastRun: Option<Ms>, phase: Phase, clock: Ms, decided: Option<Ms>, log: seq<nat>)

  /** A schedule's expression with the calendar that its scheduler runs under, by minute. */
  datatype Plan = Plan(expr: string, calendar: nat -> Calendar) {
    predicate Due(minute: nat) {
      CronHits(expr, calendar(minute))
    }
  }

  function Time(e: Event): Ms {
    match e
    case Read(at) => at
    case Decide(now) => now
    case Finish(at) => at
    case Manual(at) => at
  }

  /** Ticks do not overlap, and time does not run backwards. */
  predicate Enabled(l: Life, e: Event) {
    && l.clock <= Time(e)
    && match e
       case Read(_) => l.phase.Waiting?
       case Decide(_) => l.phase.HasRow?
       case Finish(_) => l.phase.Executing?
       case Manual(_) => true
  }

  function Next(p: Plan, l: Life, e: Event): Life
    requires Enabled(l, e)
  {
    match e
    case Read(at) => l.(phase := HasRow(l.lastRun), clock := at)
    case Decide(now) =>
      if Fires(l.phase.seen, p.expr, now, p.calendar(Minute(now)))
      then l.(phase := Executing(now), clock := now, decided := Some(now), log := l.log + [Minute(now)])
      else l.(phase := Waiting, clock := now, decided := Some(now))
    case Finish(at) => l.(lastRun := Some(at), phase := Waiting, clock := at)
    case Manual(at) => l.(lastRun := Some(at), clock := at)
  }

  predicate Legal(p: Plan, l: Life, run: seq<Event>)
    decreases |run|
  {
    run == [] || (Enabled(l, run[0]) && Legal(p, Next(p, l, run[0]), run[1..]))
  }

  function Exec(p: Plan, l: Life, run: seq<Event>): Life
    requires Legal(p, l, run)
    decreases |run|
  {
    if run == [] then l else Exec(p, Next(p, l, run[0]), run[1..])
  }

  function Begin(lastRun: Option<Ms>, clock: Ms): Life {
    Life(lastRun, Waiting, clock, None, [])
  }

  function Times(l: Life, m: nat): nat {
    multiset(l.log)[m]
  }

  /** The last logged minute is guarded by the stamp, or by the execution that will write one. */
  predicate Guarded(l: Life) {
    && (forall i | 0 <= i < |l.log| - 1 :: l.log[i] < l.log[i + 1])
    && (l.log != [] ==>
          var last := l.log[|l.log| - 1];
          && last <= Minute(l.clock)
          && (l.phase.Executing? ==> Minute(l.phase.now) == last)
          && (!l.phase.Executing? ==> l.lastRun.Some? && last <= Minute(l.lastRun.value))
          && (l.phase.HasRow? ==> l.phase.seen.Some? && last <= Minute(l.phase.seen.value)))
    && (l.phase.HasRow? && l.phase.seen.Some? && l.log != [] ==> l.phase.seen.value <= l.clock)
    && (l.lastRun.Some? && l.log != [] && !l.phase.Executing? ==> l.lastRun.value <= l.clock)
  }

  lemma GuardedStep(p: Plan, l: Life, e: Event)
    requires Guarded(l) && Enabled(l, e)
    ensures Guarded(Next(p, l, e))
  {
    match e
    case Read(_) =>
    case Decide(now) => GuardedDecide(p, l, now);
    case Finish(at) => MinutesFollow(l.phase.now, at);
    case Manual(at) => MinutesFollow(l.clock, at);
  }

  lemma MinutesFollow(a: Ms, b: Ms)
    ensures a <= b ==> Minute(a) <= Minute(b)
  {
  }

  lemma GuardedDecide(p: Plan, l: Life, now: Ms)
    requires Guarded(l) && Enabled(l, Decide(now))
    ensures Guarded(Next(p, l, Decide(now)))
  {
    MinutesFollow(l.clock, now);
    if Fires(l.phase.seen, p.expr, now, p.calendar(Minute(now))) {
      GuardedFires(l, now);
    }
  }

  lemma GuardedFires(l: Life, now: Ms)
    requires Guarded(l) && l.phase.HasRow? && l.clock <= now
    requires !(l.phase.seen.Some? && Minute(l.phase.seen.value) == Minute(now))
    ensures Guarded(l.(phase := Executing(now), clock := now, decided := Some(now), log := l.log + [Minute(now)]))
  {
    if l.log != [] {
      MinutesFollow(l.phase.seen.value, now);
      assert l.log[|l.log| - 1] < Minute(now);
    }
  }

  lemma {:induction false} GuardedRun(p: Plan, l: Life, run: seq<Event>)
    requires Guarded(l) && Legal(p, l, run)
    ensures Guarded(Exec(p, l, run))
    decreases |run|
  {
    if run != [] {
      GuardedStep(p, l, run[0]);
      GuardedRun(p, Next(p, l, run[0]), run[1..]);
    }
  }

  lemma {:induction false} IncreasingAtMostOnce(log: seq<nat>, m: nat)
    requires forall i | 0 <= i < |log| - 1 :: log[i] < log[i + 1]
    ensures multiset(log)[m] <= 1
    ensures log != [] && m > log[|log| - 1] ==> multiset(log)[m] == 0
    decreases |log|
  {
    if log != [] {
      var k := |log| - 1;
      assert log == log[..k] + [log[k]];
      IncreasingAtMostOnce(log[..k], m);
      if k > 0 {
        assert log[..k][k - 1] < log[k];
      }
    }
  }

  /**
    With manual runs at any moment and executions of any length, the scheduler executes a
    schedule at most once in a minute.
   */
  lemma AtMostOncePerMinute(p: Plan, lastRun: Option<Ms>, clock: Ms, run: seq<Event>, m: nat)
    requires Legal(p, Begin(lastRun, clock), run)
    ensures Times(Exec(p, Begin(lastRun, clock), run), m) <= 1
  {
    GuardedRun(p, Begin(lastRun, clock), run);
    IncreasingAtMostOnce(Exec(p, Begin(lastRun, clock), run).log, m);
  }

  lemma OneEvent(p: Plan, l: Life, e: Event, rest: seq<Event>)
    requires Enabled(l, e) && Legal(p, Next(p, l, e), rest)
    ensures Legal(p, l, [e] + rest) && Exec(p, l, [e] + rest) == Exec(p, Next(p, l, e), rest)
  {
    assert ([e] + rest)[1..] == rest;
  }

  lemma TurnIsARun(p: Plan, l: Life, now: Ms, doneAt: Ms)
    requires l.phase.Waiting? && l.clock <= now <= doneAt
    ensures var fires := Fires(l.lastRun, p.expr, now, p.calendar(Minute(now)));
            var run := [Read(now), Decide(now)] + if fires then [Finish(doneAt)] else [];
            Legal(p, l, run) && Exec(p, l, run) ==
              Life(if fires then Some(doneAt) else l.lastRun, Waiting, if fires then doneAt else now, Some(now),
                   l.log + if fires then [Minute(now)] else [])
  {
    var l1 := Next(p, l, Read(now));
    var l2 := Next(p, l1, Decide(now));
    var tail := if l2.phase.Executing? then [Finish(doneAt)] else [];
    if tail != [] {
      OneEvent(p, l2, Finish(doneAt), []);
      assert [Finish(doneAt)] + [] == tail;
    }
    OneEvent(p, l1, Decide(now), tail);
    OneEvent(p, l, Read(now), [Decide(now)] + tail);
    assert [Read(now)] + ([Decide(now)] + tail) == [Read(now), Decide(now)] + tail;
  }

  /** What a tick of the table does to one schedule it lists is a run of that schedule's life. */
  lemma TickIsARun(p: Plan, l: Life, rows: map<ScheduleId, ScheduleRow>, order: seq<ScheduleId>, now: Ms,
                   outcomes: map<ScheduleId, Execution>, id: ScheduleId)
    requires TickOk(rows, order, |order|, outcomes) && id in order && id in outcomes && id in rows
    requires p.expr == rows[id].expr && l.lastRun == rows[id].lastRun
    requires l.phase.Waiting? && l.clock <= now <= outcomes[id].doneAt
    ensures var date := p.calendar(Minute(now));
            var fires := Fires(rows[id].lastRun, rows[id].expr, now, date);
            var run := [Read(now), Decide(now)] + if fires then [Finish(outcomes[id].doneAt)] else [];
            && id in AfterTick(rows, order, |order|, now, date, outcomes).0
            && Legal(p, l, run) && Exec(p, l, run).phase.Waiting?
            && Exec(p, l, run).lastRun == AfterTick(rows, order, |order|, now, date, outcomes).0[id].lastRun
            && Exec(p, l, run).log == l.log + if fires then [Minute(now)] else []
  {
    var date := p.calendar(Minute(now));
    TickStampsExactly(rows, order, |order|, now, date, outcomes, id);
    assert order[..|order|] == order;
    TurnIsARun(p, l, now, outcomes[id].doneAt);
  }

  // ---------------------------------------------------------------- exactly when

  predicate Stamped(stamp: Option<Ms>, m: nat) {
    stamp.Some? && Minute(stamp.value) == m
  }

  /**
    Read off the events alone: some tick decides in minute m, and the first that does had read
    the row before any stamp of minute m, be it of an execution or of a manual run. `stamped` says
    whether there has been such a stamp, `seen` whether there had been at the last reading.
   */
  predicate FirstTickUnstamped(run: seq<Event>, m: nat, stamped: bool, seen: bool)
    decreases |run|
  {
    run != [] &&
    match run[0]
    case Read(_) => FirstTickUnstamped(run[1..], m, stamped, stamped)
    case Decide(now) => if Minute(now) == m then !seen else FirstTickUnstamped(run[1..], m, stamped, seen)
    case Finish(at) => FirstTickUnstamped(run[1..], m, stamped || Minute(at) == m, seen)
    case Manual(at) => FirstTickUnstamped(run[1..], m, stamped || Minute(at) == m, seen)
  }

  /** Stamps only grow, and none is later than the clock. */
  predicate StampsOrdered(l: Life) {
    && (l.lastRun.Some? ==> l.lastRun.value <= l.clock)
    && (l.phase.HasRow? && l.phase.seen.Some? ==> l.lastRun.Some? && l.phase.seen.value <= l.lastRun.value)
  }

  /** From here on the table, and what a tick may have read from it, is stamped in minute m or later. */
  predicate Closed(l: Life, m: nat) {
    && l.lastRun.Some? && Minute(l.lastRun.value) >= m
    && (l.phase.HasRow? ==> l.phase.seen.Some? && Minute(l.phase.seen.value) >= m)
  }

  lemma {:induction false} ClosedStaysClosed(p: Plan, l: Life, run: seq<Event>, m: nat)
    requires StampsOrdered(l) && Closed(l, m) && Legal(p, l, run)
    ensures m in Exec(p, l, run).log <==> m in l.log
    decreases |run|
  {
    if run != [] {
      ClosedStaysClosed(p, Next(p, l, run[0]), run[1..], m);
    }
  }

  lemma {:induction false} LogGrows(p: Plan, l: Life, run: seq<Event>, m: nat)
    requires Legal(p, l, run)
    ensures m in l.log ==> m in Exec(p, l, run).log
    ensures m in Exec(p, l, run).log ==> m in l.log || p.Due(m)
    decreases |run|
  {
    if run != [] {
      LogGrows(p, Next(p, l, run[0]), run[1..], m);
    }
  }

  /** While no tick has decided in minute m, the flags say whether the table and the row read are stamped in it. */
  predicate FlagsTell(l: Life, m: nat, stamped: bool, seen: bool) {
    && (if stamped then l.lastRun.Some? && Minute(l.lastRun.value) >= m else !Stamped(l.lastRun, m))
    && (l.phase.HasRow? ==>
          if seen then l.phase.seen.Some? && Minute(l.phase.seen.value) >= m else !Stamped(l.phase.seen, m))
  }

  lemma {:induction false} ExecutedFrom(p: Plan, l: Life, run: seq<Event>, m: nat, stamped: bool, seen: bool)
    requires StampsOrdered(l) && FlagsTell(l, m, stamped, seen) && m !in l.log && Legal(p, l, run)
    ensures m in Exec(p, l, run).log <==> p.Due(m) && FirstTickUnstamped(run, m, stamped, seen)
    decreases |run|
  {
    if run != [] {
      var e, mid := run[0], Next(p, l, run[0]);
      if e.Decide? && Minute(e.now) == m {
        LogGrows(p, mid, run[1..], m);
        if seen {
          ClosedStaysClosed(p, mid, run[1..], m);
        }
      } else {
        var again := stamped || ((e.Finish? || e.Manual?) && Minute(e.at) == m);
        ExecutedFrom(p, mid, run[1..], m, again, if e.Read? then stamped else seen);
      }
    }
  }

  /**
    Over every run of ticks and manual runs, with any gaps and executions of any length, the
    scheduler executes a schedule in minute m if and only if m is due and the first tick that
    decides in m had read the row before anything was stamped in m.
   */
  lemma ExecutedIff(p: Plan, lastRun: Option<Ms>, clock: Ms, run: seq<Event>, m: nat)
    requires Legal(p, Begin(lastRun, clock), run) && (lastRun.Some? ==> lastRun.value <= clock)
    ensures Times(Exec(p, Begin(lastRun, clock), run), m) ==
            if p.Due(m) && FirstTickUnstamped(run, m, Stamped(lastRun, m), false) then 1 else 0
  {
    ExecutedFrom(p, Begin(lastRun, clock), run, m, Stamped(lastRun, m), false);
    AtMostOncePerMinute(p, lastRun, clock, run, m);
  }

  // ---------------------------------------------------------------- when nothing is missed

  /** No manual run, gaps of at most a minute, executions that end in their minute. */
  predicate Steady(l: Life, e: Event)
    requires Enabled(l, e)
  {
    match e
    case Read(_) => true
    case Decide(now) => l.decided.Some? ==> now <= l.decided.value + 60000
    case Finish(at) => Minute(at) == Minute(l.phase.now)
    case Manual(_) => false
  }

  predicate AllSteady(p: Plan, l: Life, run: seq<Event>)
    requires Legal(p, l, run)
    decreases |run|
  {
    run == [] || (Steady(l, run[0]) && AllSteady(p, Next(p, l, run[0]), run[1..]))
  }

  /** The minute of the first decision of a run. */
  function FirstDecision(run: seq<Event>): Option<nat> {
    if run == [] then None else if run[0].Decide? then Some(Minute(run[0].now)) else FirstDecision(run[1..])
  }

  /** A steady run has a tick in every minute it spans, and the first there finds no stamp of that minute. */
  lemma {:induction false} SteadyFirstTick(p: Plan, l: Life, run: seq<Event>, m: nat)
    requires Legal(p, l, run) && AllSteady(p, l, run)
    requires if l.decided.Some? then Minute(l.decided.value) < m
             else FirstDecision(run).Some? && FirstDecision(run).value <= m
    requires l.phase.Executing? ==> l.decided == Some(l.phase.now)
    requires Exec(p, l, run).decided.Some? && m <= Minute(Exec(p, l, run).decided.value)
    ensures FirstTickUnstamped(run, m, false, false)
    decreases |run|
  {
    if run != [] && !(run[0].Decide? && Minute(run[0].now) == m) {
      SteadyFirstTick(p, Next(p, l, run[0]), run[1..], m);
    }
  }

  /**
    Over every steady run a schedule is executed exactly once in each due minute from the first
    tick's to the last tick's, except a minute it had been stamped in before the run.
   */
  lemma ExactlyOnceWhenSteady(p: Plan, lastRun: Option<Ms>, clock: Ms, run: seq<Event>, m: nat)
    requires Legal(p, Begin(lastRun, clock), run) && AllSteady(p, Begin(lastRun, clock), run)
    requires lastRun.Some? ==> lastRun.value <= clock
    requires FirstDecision(run).Some? && FirstDecision(run).value <= m
    requires var post := Exec(p, Begin(lastRun, clock), run);
             post.decided.Some? && m <= Minute(post.decided.value)
    requires p.Due(m) && !Stamped(lastRun, m)
    ensures Times(Exec(p, Begin(lastRun, clock), run), m) == 1
  {
    SteadyFirstTick(p, Begin(lastRun, clock), run, m);
    ExecutedIff(p, lastRun, clock, run, m);
  }

  /**
    Why executions must end in their minute: whatever came before, an execution (or a manual run)
    that is stamped in minute m before the minute's first tick reads the row takes the minute away.
   */
  lemma {:induction false} StampTakesTheMinute(before: seq<Event>, stamp: Event, after: seq<Event>, m: nat, stamped: bool, seen: bool)
    requires (stamp.Finish? || stamp.Manual?) && Minute(stamp.at) == m
    requires forall i | 0 <= i < |before| && before[i].Decide? :: Minute(before[i].now) != m
    requires after != [] && after[0].Read?
    ensures !FirstTickUnstamped(before + [stamp] + after, m, stamped, seen)
    decreases |before|
  {
    var run := before + [stamp] + after;
    if before == [] {
      assert run == [stamp] + after && run[1..] == after;
      StampedStays(after[1..], m);
    } else {
      assert run[1..] == before[1..] + [stamp] + after;
      assert forall i | 0 <= i < |before[1..]| :: before[1..][i] == before[i + 1];
      StampTakesTheMinute(before[1..], stamp, after, m,
                          stamped || ((before[0].Finish? || before[0].Manual?) && Minute(before[0].at) == m),
                          if before[0].Read? then stamped else seen);
    }
  }

  lemma {:induction false} StampedStays(run: seq<Event>, m: nat)
    ensures !FirstTickUnstamped(run, m, true, true)
    decreases |run|
  {
    if run != [] {
      StampedStays(run[1..], m);
    }
  }

  /** So a due minute is skipped although ticks look at it. */
  lemma SlowExecutionSkipsAMinute(p: Plan, lastRun: Option<Ms>, clock: Ms, before: seq<Event>, stamp: Event, after: seq<Event>, m: nat)
    requires Legal(p, Begin(lastRun, clock), before + [stamp] + after) && (lastRun.Some? ==> lastRun.value <= clock)
    requires (stamp.Finish? || stamp.Manual?) && Minute(stamp.at) == m
    requires forall i | 0 <= i < |before| && before[i].Decide? :: Minute(before[i].now) != m
    requires after != [] && after[0].Read?
    ensures Times(Exec(p, Begin(lastRun, clock), before + [stamp] + after), m) == 0
  {
    StampTakesTheMinute(before, stamp, after, m, Stamped(lastRun, m), false);
    ExecutedIff(p, lastRun, clock, before + [stamp] + after, m);
  }

  // ---------------------------------------------------------------- ticks that overlap

  /** The timer does not wait for a tick to end: any number of them may stand anywhere at once. */
  datatype TickEvent =
    | TickRead(tick: nat, at: Ms)
    | TickDecide(tick: nat, at: Ms)
    | TickFinish(tick: nat, at: Ms)
    | ManualRun(at: Ms)

  datatype Ticks = Ticks(lastRun: Option<Ms>, phases: map<nat, Phase>, clock: Ms, log: seq<nat>)

  predicate CanHappen(l: Ticks, e: TickEvent) {
    && l.clock <= e.at
    && match e
       case TickRead(t, _) => t !in l.phases
       case TickDecide(t, _) => t in l.phases && l.phases[t].HasRow?
       case TickFinish(t, _) => t in l.phases && l.phases[t].Executing?
       case ManualRun(_) => true
  }

  function Happen(p: Plan, l: Ticks, e: TickEvent): Ticks
    requires CanHappen(l, e)
  {
    match e
    case TickRead(t, at) => l.(phases := l.phases[t := HasRow(l.lastRun)], clock := at)
    case TickDecide(t, at) =>
      if Fires(l.phases[t].seen, p.expr, at, p.calendar(Minute(at)))
      then l.(phases := l.phases[t := Executing(at)], clock := at, log := l.log + [Minute(at)])
      else l.(phases := l.phases - {t}, clock := at)
    case TickFinish(t, at) => l.(lastRun := Some(at), phases := l.phases - {t}, clock := at)
    case ManualRun(at) => l.(lastRun := Some(at), clock := at)
  }

  predicate CanRun(p: Plan, l: Ticks, run: seq<TickEvent>)
    decreases |run|
  {
    run == [] || (CanHappen(l, run[0]) && CanRun(p, Happen(p, l, run[0]), run[1..]))
  }

  function AfterTicks(p: Plan, l: Ticks, run: seq<TickEvent>): Ticks
    requires CanRun(p, l, run)
    decreases |run|
  {
    if run == [] then l else AfterTicks(p, Happen(p, l, run[0]), run[1..])
  }

  /**
    Read off the events alone: the decisions in minute m of ticks that had read the row before
    any stamp of minute m. `late` holds the ticks under way that had not.
   */
  function UnstampedDecisions(run: seq<TickEvent>, m: nat, stamped: bool, late: set<nat>): nat
    decreases |run|
  {
    if run == [] then 0
    else
      match run[0]
      case TickRead(t, _) => UnstampedDecisions(run[1..], m, stamped, if stamped then late + {t} else late - {t})
      case TickDecide(t, at) =>
        (if Minute(at) == m && t !in late then 1 else 0) + UnstampedDecisions(run[1..], m, stamped, late)
      case TickFinish(_, at) => UnstampedDecisions(run[1..], m, stamped || Minute(at) == m, late)
      case ManualRun(at) => UnstampedDecisions(run[1..], m, stamped || Minute(at) == m, late)
  }

  predicate StampAtLeast(stamp: Option<Ms>, m: nat) {
    stamp.Some? && Minute(stamp.value) >= m
  }

  /** The flags say which stamps, in the table or as a tick has read them, are of minute m or later. */
  ghost predicate LateTells(l: Ticks, m: nat, stamped: bool, late: set<nat>) {
    && (l.lastRun.Some? ==> l.lastRun.value <= l.clock)
    && (if stamped then StampAtLeast(l.lastRun, m) else !Stamped(l.lastRun, m))
    && (forall t | t in l.phases && l.phases[t].HasRow? ::
          && (l.phases[t].seen.Some? ==> l.phases[t].seen.value <= l.clock)
          && if t in late then StampAtLeast(l.phases[t].seen, m) else !Stamped(l.phases[t].seen, m))
  }

  lemma LateTellsStep(p: Plan, l: Ticks, e: TickEvent, m: nat, stamped: bool, late: set<nat>)
    requires LateTells(l, m, stamped, late) && CanHappen(l, e)
    ensures LateTells(Happen(p, l, e), m, stamped || ((e.TickFinish? || e.ManualRun?) && Minute(e.at) == m),
                      if e.TickRead? then (if stamped then late + {e.tick} else late - {e.tick}) else late)
  {
    match e
    case TickRead(_, _) =>
    case TickDecide(_, _) =>
    case TickFinish(_, at) => if l.lastRun.Some? { MinutesFollow(l.lastRun.value, at); }
    case ManualRun(at) => if l.lastRun.Some? { MinutesFollow(l.lastRun.value, at); }
  }

  /** A tick that decides in minute m executes exactly if m is due and its row was not stamped in m. */
  lemma DecisionFires(p: Plan, l: Ticks, e: TickEvent, m: nat, stamped: bool, late: set<nat>)
    requires LateTells(l, m, stamped, late) && CanHappen(l, e) && e.TickDecide? && Minute(e.at) == m
    ensures Fires(l.phases[e.tick].seen, p.expr, e.at, p.calendar(m)) <==> p.Due(m) && e.tick !in late
  {
    var seen := l.phases[e.tick].seen;
    if seen.Some? {
      MinutesFollow(seen.value, e.at);
    }
  }

  lemma {:induction false} DecisionsCounted(p: Plan, l: Ticks, run: seq<TickEvent>, m: nat, stamped: bool, late: set<nat>)
    requires LateTells(l, m, stamped, late) && CanRun(p, l, run)
    ensures multiset(AfterTicks(p, l, run).log)[m] ==
            multiset(l.log)[m] + if p.Due(m) then UnstampedDecisions(run, m, stamped, late) else 0
    decreases |run|
  {
    if run != [] {
      var e, mid := run[0], Happen(p, l, run[0]);
      LateTellsStep(p, l, e, m, stamped, late);
      if e.TickDecide? && Minute(e.at) == m {
        DecisionFires(p, l, e, m, stamped, late);
      }
      DecisionsCounted(p, mid, run[1..], m, stamped || ((e.TickFinish? || e.ManualRun?) && Minute(e.at) == m),
                       if e.TickRead? then (if stamped then late + {e.tick} else late - {e.tick}) else late);
    }
  }

  function NoTicks(lastRun: Option<Ms>, clock: Ms): Ticks {
    Ticks(lastRun, map[], clock, [])
  }

  /**
    With ticks that overlap in any way: in a due minute a schedule is executed as often as ticks
    decide in it that had read the row before any stamp of the minute; in no other minute at all.
    So it is at most once if and only if the minute is not due or at most one tick does.
   */
  lemma OverlappingTicksExecute(p: Plan, lastRun: Option<Ms>, clock: Ms, run: seq<TickEvent>, m: nat)
    requires CanRun(p, NoTicks(lastRun, clock), run) && (lastRun.Some? ==> lastRun.value <= clock)
    ensures multiset(AfterTicks(p, NoTicks(lastRun, clock), run).log)[m] ==
            if p.Due(m) then UnstampedDecisions(run, m, Stamped(lastRun, m), {}) else 0
  {
    DecisionsCounted(p, NoTicks(lastRun, clock), run, m, Stamped(lastRun, m), {});
  }

  /** Two ticks with nothing else: the second reads at `second`, the first stamps at `stamp`, and both decide in minute m. */
  function TwoTicks(first: Ms, second: Ms, stamp: Ms, last: Ms): seq<TickEvent> {
    if second < stamp
    then [TickRead(0, first), TickDecide(0, first), TickRead(1, second), TickFinish(0, stamp), TickDecide(1, last)]
    else [TickRead(0, first), TickDecide(0, first), TickFinish(0, stamp), TickRead(1, second), TickDecide(1, last)]
  }

  lemma {:induction false} OneTickEvent(p: Plan, l: Ticks, e: TickEvent, rest: seq<TickEvent>)
    requires CanHappen(l, e) && CanRun(p, Happen(p, l, e), rest)
    ensures CanRun(p, l, [e] + rest) && AfterTicks(p, l, [e] + rest) == AfterTicks(p, Happen(p, l, e), rest)
  {
    assert ([e] + rest)[1..] == rest;
  }

  lemma TwoTicksRun(p: Plan, clock: Ms, first: Ms, second: Ms, stamp: Ms, last: Ms)
    requires clock <= first <= second <= last && first <= stamp <= last
    requires Minute(first) == Minute(last) && p.Due(Minute(first))
    ensures CanRun(p, NoTicks(None, clock), TwoTicks(first, second, stamp, last))
  {
    var l1 := Happen(p, NoTicks(None, clock), TickRead(0, first));
    var l2 := Happen(p, l1, TickDecide(0, first));
    assert l2.phases[0] == Executing(first);
    if second < stamp {
      var l3 := Happen(p, l2, TickRead(1, second));
      var l4 := Happen(p, l3, TickFinish(0, stamp));
      OneTickEvent(p, l4, TickDecide(1, last), []);
      OneTickEvent(p, l3, TickFinish(0, stamp), [TickDecide(1, last)] + []);
      OneTickEvent(p, l2, TickRead(1, second), [TickFinish(0, stamp)] + ([TickDecide(1, last)] + []));
      OneTickEvent(p, l1, TickDecide(0, first), [TickRead(1, second)] + ([TickFinish(0, stamp)] + ([TickDecide(1, last)] + [])));
      OneTickEvent(p, NoTicks(None, clock), TickRead(0, first),
                   [TickDecide(0, first)] + ([TickRead(1, second)] + ([TickFinish(0, stamp)] + ([TickDecide(1, last)] + []))));
      assert TwoTicks(first, second, stamp, last) ==
             [TickRead(0, first)] + ([TickDecide(0, first)] + ([TickRead(1, second)] + ([TickFinish(0, stamp)] + ([TickDecide(1, last)] + []))));
    } else {
      var l3 := Happen(p, l2, TickFinish(0, stamp));
      var l4 := Happen(p, l3, TickRead(1, second));
      OneTickEvent(p, l4, TickDecide(1, last), []);
      OneTickEvent(p, l3, TickRead(1, second), [TickDecide(1, last)] + []);
      OneTickEvent(p, l2, TickFinish(0, stamp), [TickRead(1, second)] + ([TickDecide(1, last)] + []));
      OneTickEvent(p, l1, TickDecide(0, first), [TickFinish(0, stamp)] + ([TickRead(1, second)] + ([TickDecide(1, last)] + [])));
      OneTickEvent(p, NoTicks(None, clock), TickRead(0, first),
                   [TickDecide(0, first)] + ([TickFinish(0, stamp)] + ([TickRead(1, second)] + ([TickDecide(1, last)] + []))));
      assert TwoTicks(first, second, stamp, last) ==
             [TickRead(0, first)] + ([TickDecide(0, first)] + ([TickFinish(0, stamp)] + ([TickRead(1, second)] + ([TickDecide(1, last)] + []))));
    }
  }

  lemma DecisionsUnfold(run: seq<TickEvent>, m: nat, stamped: bool, late: set<nat>)
    requires run != []
    ensures UnstampedDecisions(run, m, stamped, late) ==
            (if run[0].TickDecide? && Minute(run[0].at) == m && run[0].tick !in late then 1 else 0)
            + UnstampedDecisions(run[1..], m, stamped || ((run[0].TickFinish? || run[0].ManualRun?) && Minute(run[0].at) == m),
                                 if run[0].TickRead? then (if stamped then late + {run[0].tick} else late - {run[0].tick}) else late)
  {
  }

  lemma TwoTicksDecisions(first: Ms, second: Ms, stamp: Ms, last: Ms, m: nat)
    requires Minute(first) == Minute(stamp) == Minute(last) == m
    ensures UnstampedDecisions(TwoTicks(first, second, stamp, last), m, false, {}) == if second < stamp then 2 else 1
  {
    var run := TwoTicks(first, second, stamp, last);
    var r1, r2, r3, r4 := run[1..], run[1..][1..], run[1..][1..][1..], run[1..][1..][1..][1..];
    assert r4 == [TickDecide(1, last)] && r4[1..] == [];
    var none: set<nat> := {};
    var stamped := second >= stamp;
    var late: set<nat> := if stamped then {1} else {};
    DecisionsUnfold(run, m, false, none);
    assert none - {0} == none && none - {1} == none && none + {1} == {1};
    DecisionsUnfold(r1, m, false, none);
    DecisionsUnfold(r2, m, false, none);
    DecisionsUnfold(r3, m, stamped, none);
    DecisionsUnfold(r4, m, true, late);
    assert r1[0] == TickDecide(0, first);
  }

  /** Two ticks that decide in the same due minute both execute if and only if the second read the row before the first's stamp. */
  lemma SecondTickRepeatsIff(p: Plan, clock: Ms, first: Ms, second: Ms, stamp: Ms, last: Ms)
    requires clock <= first <= second <= last && first <= stamp <= last
    requires Minute(first) == Minute(last) && p.Due(Minute(first))
    ensures CanRun(p, NoTicks(None, clock), TwoTicks(first, second, stamp, last))
    ensures multiset(AfterTicks(p, NoTicks(None, clock), TwoTicks(first, second, stamp, last)).log)[Minute(first)] == 2
            <==> second < stamp
  {
    MinutesFollow(first, stamp);
    MinutesFollow(stamp, last);
    TwoTicksRun(p, clock, first, second, stamp, last);
    TwoTicksDecisions(first, second, stamp, last, Minute(first));
    OverlappingTicksExecute(p, None, clock, TwoTicks(first, second, stamp, last), Minute(first));
  }
}
