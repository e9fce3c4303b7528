/**
  The agent's crash detector and restart limiter over its tracked entries, interleaved at the
  grain of its locked sections with everything else that touches the entries. An entry is an
  object: the health check keeps a reference to it while the index may forget or replace it.
 */
module CrashWatch {
  type ServerId = nat
  type Ref = nat
  type Seconds = int

  const RESTART_LIMIT := 3
  const THROTTLE: Seconds := 600

  /** The fields of a ServerContainer that the detector uses. */
  datatype Entry = Entry(crashCount: nat, lastCrashedAt: Seconds, needsAttention: bool)

  const NEW_ENTRY := Entry(0, 0, false)

  /** What an inspection says: Docker's flags, or that it could not be made. */
  datatype Inspection = Unavailable | Seen(oomKilled: bool, exitCode: int, ended: bool, autoRestart: bool)

  /** `ended` stands for the states exited and dead. */
  predicate Crashed(i: Inspection) {
    i.Seen? && (i.oomKilled || (i.exitCode != 0 && i.ended))
  }

  function Record(e: Entry, now: Seconds): Entry {
    e.(crashCount := e.crashCount + 1, lastCrashedAt := now, needsAttention := true)
  }

  datatype Verdict = LeaveAlone | OverLimit | Throttled | Restart

  function Decide(e: Entry, autoRestart: bool, now: Seconds): Verdict {
    if !autoRestart then LeaveAlone
    else if e.crashCount > RESTART_LIMIT then OverLimit
    else if e.crashCount > 1 && now - e.lastCrashedAt < THROTTLE then Throttled
    else Restart
  }

  // ---------------------------------------------------------------- interleavings

  /** Where the one health-check goroutine stands with the server it looks at. */
  datatype Checker =
    | Idle
    | Looked(server: ServerId, ref: Ref)
    | Recorded(server: ServerId, ref: Ref, autoRestart: bool)
    | Restarting(server: ServerId, ref: Ref)

  /**
    The index, every entry object ever made, the checker, and three histories: automatic restarts
    an entry caused, those that hit an entry another one caused, and the entries made while the
    checker was busy with their server.
   */
  datatype Watch = Watch(index: map<ServerId, Ref>, heap: map<Ref, Entry>, checker: Checker,
                         caused: map<Ref, nat>, stray: map<Ref, nat>, bornInCheck: set<Ref>)

  datatype Step =
    | Track(server: ServerId, ref: Ref)   // Create or Restore puts a new entry into the index
    | Untrack(server: ServerId)           // Remove, or a Start that finds the container gone
    | StartByPanel(server: ServerId)
    | Drain                               // GetCrashedServers
    | Lookup(server: ServerId)
    | Inspect(inspection: Inspection, now: Seconds)
    | Judge(now: Seconds)
    | AutoStart

  predicate Enabled(w: Watch, step: Step) {
    match step
    case Track(_, ref) => ref !in w.heap
    case Untrack(s) => s in w.index
    case StartByPanel(s) => s in w.index && w.index[s] in w.heap
    case Drain => true
    case Lookup(s) => w.checker.Idle? && s in w.index
    case Inspect(_, _) => w.checker.Looked? && w.checker.ref in w.heap
    case Judge(_) => w.checker.Recorded? && w.checker.ref in w.heap
    case AutoStart => w.checker.Restarting?
  }

  /** Start clears the flag of the entry that the index names at that moment. */
  function ClearFlag(w: Watch, r: Ref): Watch {
    if r in w.heap
    then w.(heap := w.heap[r := w.heap[r].(needsAttention := false)])
    else w
  }

  function Bump(m: map<Ref, nat>, r: Ref): map<Ref, nat> {
    m[r := Count(m, r) + 1]
  }

  function Count(m: map<Ref, nat>, r: Ref): nat {
    if r in m then m[r] else 0
  }

  function Busy(w: Watch, s: ServerId): bool {
    !w.checker.Idle? && w.checker.server == s
  }

  /** The servers a drain reports. */
  function Report(w: Watch): set<ServerId> {
    set s | s in w.index && w.index[s] in w.heap && w.heap[w.index[s]].needsAttention
  }

  function Next(w: Watch, step: Step): Watch
    requires Enabled(w, step)
  {
    match step
    case Track(s, ref) =>
      w.(index := w.index[s := ref], heap := w.heap[ref := NEW_ENTRY],
         bornInCheck := if Busy(w, s) then w.bornInCheck + {ref} else w.bornInCheck)
    case Untrack(s) => w.(index := w.index - {s})
    case StartByPanel(s) => ClearFlag(w, w.index[s])
    case Drain =>
      var reported := set s | s in Report(w) :: w.index[s];
      w.(heap := map r | r in w.heap :: if r in reported then w.heap[r].(needsAttention := false) else w.heap[r])
    case Lookup(s) => w.(checker := Looked(s, w.index[s]))
    case Inspect(i, now) =>
      var r := w.checker.ref;
      if Crashed(i)
      then w.(heap := w.heap[r := Record(w.heap[r], now)],
              checker := Recorded(w.checker.server, r, i.autoRestart))
      else w.(checker := Idle)
    case Judge(now) =>
      var r := w.checker.ref;
      (match Decide(w.heap[r], w.checker.autoRestart, now)
       case LeaveAlone => w.(checker := Idle)
       case OverLimit => w.(heap := w.heap[r := w.heap[r].(needsAttention := true)], checker := Idle)
       case Throttled => w.(checker := Idle)
       case Restart => w.(checker := Restarting(w.checker.server, r)))
    case AutoStart =>
      var r, s := w.checker.ref, w.checker.server;
      var w1 := w.(checker := Idle, caused := Bump(w.caused, r));
      if s !in w.index then w1 // nothing to start any more
      else
        var hit := w.index[s];
        ClearFlag(if hit == r then w1 else w1.(stray := Bump(w1.stray, hit)), hit)
  }

  const FRESH_WATCH := Watch(map[], map[], Idle, map[], map[], {})

  predicate Legal(w: Watch, run: seq<Step>)
    decreases |run|
  {
    run == [] || (Enabled(w, run[0]) && Legal(Next(w, run[0]), run[1..]))
  }

  function Exec(w: Watch, run: seq<Step>): Watch
    requires Legal(w, run)
    decreases |run|
  {
    if run == [] then w else Exec(Next(w, run[0]), run[1..])
  }

  // ---------------------------------------------------------------- the restart limit

  /** No restart caused by entry r is still to be counted, except one the checker is about to make. */
  function CausedSoon(w: Watch, r: Ref): nat {
    Count(w.caused, r) + if w.checker.Restarting? && w.checker.ref == r then 1 else 0
  }

  /** A stray restart may be under way for entry r: it replaced the one the checker holds. */
  predicate StrayPossible(w: Watch, r: Ref) {
    !w.checker.Idle? && w.checker.ref != r && w.checker.server in w.index && w.index[w.checker.server] == r
  }

  /** The restarts caused stay below the limit and, one crash each, below the crash count. */
  predicate CausesSound(w: Watch, r: Ref) {
    && CausedSoon(w, r) <= RESTART_LIMIT
    && CausedSoon(w, r) <= (if r in w.heap then w.heap[r].crashCount else 0)
    && (w.checker.Recorded? && w.checker.ref == r && r in w.heap ==> CausedSoon(w, r) < w.heap[r].crashCount)
  }

  predicate StraysSound(w: Watch, r: Ref) {
    && Count(w.stray, r) + (if StrayPossible(w, r) then 1 else 0) <= (if r in w.bornInCheck then 1 else 0)
    && (r !in w.heap ==> r !in w.bornInCheck)
  }

  predicate RefSound(w: Watch, r: Ref) {
    CausesSound(w, r) && StraysSound(w, r)
  }

  /** Index entries are distinct objects, and a reference is never put back into the index. */
  ghost predicate IndexSound(w: Watch) {
    && (forall s | s in w.index :: w.index[s] in w.heap)
    && (forall s, x | s in w.index && x in w.index && w.index[s] == w.index[x] :: s == x)
    && (!w.checker.Idle? ==> w.checker.ref in w.heap)
    && (!w.checker.Idle? ==> forall s | s in w.index && w.index[s] == w.checker.ref :: s == w.checker.server)
  }

  ghost predicate WatchSound(w: Watch) {
    IndexSound(w) && forall r: Ref :: RefSound(w, r)
  }

  lemma IndexSoundStep(w: Watch, step: Step)
    requires IndexSound(w) && Enabled(w, step)
    ensures IndexSound(Next(w, step))
  {
    assert w.heap.Keys <= Next(w, step).heap.Keys;
  }

  lemma CausesSoundStep(w: Watch, step: Step, r: Ref)
    requires IndexSound(w) && CausesSound(w, r) && Enabled(w, step)
    ensures CausesSound(Next(w, step), r)
  {
    if step.Judge? {
      CausesSoundJudge(w, step.now, r);
    } else if step.AutoStart? {
      CausesSoundAutoStart(w, r);
    } else if !step.Inspect? {
      OtherStepsCauseNothing(w, step, r);
    }
  }

  lemma CausesSoundJudge(w: Watch, now: Seconds, r: Ref)
    requires IndexSound(w) && CausesSound(w, r) && Enabled(w, Judge(now))
    ensures CausesSound(Next(w, Judge(now)), r)
  {
  }

  lemma CausesSoundAutoStart(w: Watch, r: Ref)
    requires IndexSound(w) && CausesSound(w, r) && Enabled(w, AutoStart)
    ensures CausesSound(Next(w, AutoStart), r)
  {
  }

  /** Only the checks count crashes and cause restarts. */
  lemma OtherStepsCauseNothing(w: Watch, step: Step, r: Ref)
    requires IndexSound(w) && Enabled(w, step) && !(step.Inspect? || step.Judge? || step.AutoStart?)
    ensures var post := Next(w, step);
            && post.caused == w.caused
            && (r in w.heap ==> r in post.heap && post.heap[r].crashCount == w.heap[r].crashCount)
  {
  }

  lemma StraysSoundStep(w: Watch, step: Step, r: Ref)
    requires IndexSound(w) && StraysSound(w, r) && Enabled(w, step)
    ensures StraysSound(Next(w, step), r)
  {
    var post := Next(w, step);
    if step.AutoStart? {
      StraySoundAutoStart(w, r);
    } else {
      assert post.stray == w.stray && w.heap.Keys <= post.heap.Keys;
      if step.Track? {
        assert !Busy(w, step.server) ==> (StrayPossible(post, step.ref) ==> false);
      }
    }
  }

  lemma StraySoundAutoStart(w: Watch, r: Ref)
    requires IndexSound(w) && StraysSound(w, r) && Enabled(w, AutoStart)
    ensures StraysSound(Next(w, AutoStart), r)
  {
  }

  lemma RefSoundStep(w: Watch, step: Step, r: Ref)
    requires IndexSound(w) && RefSound(w, r) && Enabled(w, step)
    ensures RefSound(Next(w, step), r)
  {
    CausesSoundStep(w, step, r);
    StraysSoundStep(w, step, r);
  }

  lemma {:induction false} WatchSoundRun(w: Watch, run: seq<Step>)
    requires WatchSound(w) && Legal(w, run)
    ensures WatchSound(Exec(w, run))
    decreases |run|
  {
    if run != [] {
      IndexSoundStep(w, run[0]);
      forall r: Ref ensures RefSound(Next(w, run[0]), r) {
        RefSoundStep(w, run[0], r);
      }
      WatchSoundRun(Next(w, run[0]), run[1..]);
    }
  }

  lemma FreshWatchSound()
    ensures WatchSound(FRESH_WATCH)
  {
  }

  /**
    Over every run an entry causes at most three automatic restarts, because its crash count
    only grows. One more can hit it if it was put in place of another entry while that one was
    being checked; otherwise none does.
   */
  lemma RestartsLimited(run: seq<Step>, r: Ref)
    requires Legal(FRESH_WATCH, run)
    ensures Count(Exec(FRESH_WATCH, run).caused, r) <= 3
    ensures Count(Exec(FRESH_WATCH, run).stray, r) <= (if r in Exec(FRESH_WATCH, run).bornInCheck then 1 else 0)
  {
    FreshWatchSound();
    WatchSoundRun(FRESH_WATCH, run);
    assert RefSound(Exec(FRESH_WATCH, run), r);
  }

  /** Every throttle test of the run is reached less than ten minutes after the crash was recorded. */
  predicate Prompt(w: Watch, run: seq<Step>)
    requires Legal(w, run)
    decreases |run|
  {
    run == [] ||
    ((run[0].Judge? ==> run[0].now - w.heap[w.checker.ref].lastCrashedAt < THROTTLE) && Prompt(Next(w, run[0]), run[1..]))
  }

  lemma {:induction false} PromptRunRestartsOnce(w: Watch, run: seq<Step>, r: Ref)
    requires WatchSound(w) && Legal(w, run) && Prompt(w, run)
    requires CausedSoon(w, r) <= 1
    ensures CausedSoon(Exec(w, run), r) <= 1
    decreases |run|
  {
    if run != [] {
      var step := run[0];
      assert RefSound(w, r);
      assert CausedSoon(Next(w, step), r) <= 1;
      WatchSoundRun(w, [step]) by {
        assert Legal(Next(w, step), [step][1..]);
      }
      assert Exec(w, [step]) == Next(w, step) by {
        assert Exec(Next(w, step), [step][1..]) == Next(w, step);
      }
      PromptRunRestartsOnce(Next(w, step), run[1..], r);
    }
  }

  /** In such a run an entry causes at most one automatic restart, whatever the limit of three says. */
  lemma PromptRestartsLimited(run: seq<Step>, r: Ref)
    requires Legal(FRESH_WATCH, run) && Prompt(FRESH_WATCH, run)
    ensures Count(Exec(FRESH_WATCH, run).caused, r) <= 1
  {
    FreshWatchSound();
    PromptRunRestartsOnce(FRESH_WATCH, run, r);
  }

  // ---------------------------------------------------------------- all restarts of an entry

  /** The entry that an automatic start finds in the index, whichever caused it. */
  predicate Hits(w: Watch, step: Step, r: Ref) {
    step.AutoStart? && w.checker.Restarting? && w.checker.server in w.index && w.index[w.checker.server] == r
  }

  function Received(w: Watch, run: seq<Step>, r: Ref): nat
    requires Legal(w, run)
    decreases |run|
  {
    if run == [] then 0 else (if Hits(w, run[0], r) then 1 else 0) + Received(Next(w, run[0]), run[1..], r)
  }

  /** A start that hits an entry is one that it caused itself, or a stray one. */
  lemma HitIsCounted(w: Watch, step: Step, r: Ref)
    requires Enabled(w, step)
    ensures (if Hits(w, step, r) then 1 else 0) + Count(w.caused, r) + Count(w.stray, r)
            <= Count(Next(w, step).caused, r) + Count(Next(w, step).stray, r)
  {
  }

  lemma {:induction false} ReceivedIsCounted(w: Watch, run: seq<Step>, r: Ref)
    requires Legal(w, run)
    ensures Received(w, run, r) + Count(w.caused, r) + Count(w.stray, r)
            <= Count(Exec(w, run).caused, r) + Count(Exec(w, run).stray, r)
    decreases |run|
  {
    if run != [] {
      HitIsCounted(w, run[0], r);
      ReceivedIsCounted(Next(w, run[0]), run[1..], r);
    }
  }

  /** Over every run an entry receives at most three automatic restarts, and a fourth only if it was made during a check. */
  lemma ReceivesLimited(run: seq<Step>, r: Ref)
    requires Legal(FRESH_WATCH, run)
    ensures Received(FRESH_WATCH, run, r) <= 3 + (if r in Exec(FRESH_WATCH, run).bornInCheck then 1 else 0)
  {
    ReceivedIsCounted(FRESH_WATCH, run, r);
    RestartsLimited(run, r);
  }

  /** In a prompt run at most one, and a second only if it was made during a check. */
  lemma PromptReceivesLimited(run: seq<Step>, r: Ref)
    requires Legal(FRESH_WATCH, run) && Prompt(FRESH_WATCH, run)
    ensures Received(FRESH_WATCH, run, r) <= 1 + (if r in Exec(FRESH_WATCH, run).bornInCheck then 1 else 0)
  {
    ReceivedIsCounted(FRESH_WATCH, run, r);
    RestartsLimited(run, r);
    PromptRestartsLimited(run, r);
  }

  // ---------------------------------------------------------------- the bounds are reached

  /** A throttle test reached within ten minutes of the crash. */
  predicate InTime(w: Watch, step: Step)
    requires Enabled(w, step)
  {
    step.Judge? ==> step.now - w.heap[w.checker.ref].lastCrashedAt < THROTTLE
  }

  lemma {:induction false} OneStep(w: Watch, step: Step, rest: seq<Step>, r: Ref)
    requires Enabled(w, step) && Legal(Next(w, step), rest)
    ensures Legal(w, [step] + rest) && Exec(w, [step] + rest) == Exec(Next(w, step), rest)
    ensures Received(w, [step] + rest, r) == (if Hits(w, step, r) then 1 else 0) + Received(Next(w, step), rest, r)
    ensures Prompt(w, [step] + rest) <==> InTime(w, step) && Prompt(Next(w, step), rest)
  {
    assert ([step] + rest)[1..] == rest;
  }

  /** A crash is recorded for one entry, a create replaces it during the check, and then the start comes. */
  function StrayRun(s: ServerId, first: Ref, second: Ref, i: Inspection, now: Seconds, rest: seq<Step>): seq<Step> {
    [Track(s, first)] + ([Lookup(s)] + ([Inspect(i, now)] + ([Judge(now)] + ([Track(s, second)] + ([AutoStart] + rest)))))
  }

  function AfterStray(s: ServerId, first: Ref, second: Ref, now: Seconds): Watch {
    Watch(map[s := second], map[first := Entry(1, now, true), second := NEW_ENTRY], Idle,
          map[first := 1], map[second := 1], {second})
  }

  lemma {:induction false} StrayRunEnds(s: ServerId, first: Ref, second: Ref, i: Inspection, now: Seconds, rest: seq<Step>, r: Ref)
    requires Crashed(i) && i.autoRestart && first != second
    requires Legal(AfterStray(s, first, second, now), rest)
    ensures var run, post := StrayRun(s, first, second, i, now, rest), AfterStray(s, first, second, now);
            && Legal(FRESH_WATCH, run) && Exec(FRESH_WATCH, run) == Exec(post, rest)
            && Received(FRESH_WATCH, run, r) == (if r == second then 1 else 0) + Received(post, rest, r)
            && (Prompt(FRESH_WATCH, run) <==> Prompt(post, rest))
  {
    var w1 := Next(FRESH_WATCH, Track(s, first));
    var w2 := Next(w1, Lookup(s));
    var w3 := Next(w2, Inspect(i, now));
    var w4 := Next(w3, Judge(now));
    assert w4.checker == Restarting(s, first);
    var w5 := Next(w4, Track(s, second));
    assert Next(w5, AutoStart) == AfterStray(s, first, second, now);
    var r1 := [AutoStart] + rest;
    var r2 := [Track(s, second)] + r1;
    var r3 := [Judge(now)] + r2;
    var r4 := [Inspect(i, now)] + r3;
    OneStep(w5, AutoStart, rest, r);
    OneStep(w4, Track(s, second), r1, r);
    OneStep(w3, Judge(now), r2, r);
    OneStep(w2, Inspect(i, now), r3, r);
    OneStep(w1, Lookup(s), r4, r);
    OneStep(FRESH_WATCH, Track(s, first), [Lookup(s)] + r4, r);
  }

  /** The stray restart is no artefact of the bound: the start hits the entry that took the crashed one's place. */
  lemma StrayRestartHappens(s: ServerId, first: Ref, second: Ref, i: Inspection, now: Seconds)
    requires Crashed(i) && i.autoRestart && first != second
    ensures var run := StrayRun(s, first, second, i, now, []);
            && Legal(FRESH_WATCH, run) && second in Exec(FRESH_WATCH, run).bornInCheck
            && Count(Exec(FRESH_WATCH, run).stray, second) == 1
            && Received(FRESH_WATCH, run, second) == 1 && Received(FRESH_WATCH, run, first) == 0
  {
    StrayRunEnds(s, first, second, i, now, [], first);
    StrayRunEnds(s, first, second, i, now, [], second);
  }

  /** One undisturbed check that ends in a restart. */
  function Round(s: ServerId, i: Inspection, recordedAt: Seconds, judgedAt: Seconds, rest: seq<Step>): seq<Step> {
    [Lookup(s)] + ([Inspect(i, recordedAt)] + ([Judge(judgedAt)] + ([AutoStart] + rest)))
  }

  function AfterRound(w: Watch, s: ServerId, recordedAt: Seconds): Watch
    requires s in w.index && w.index[s] in w.heap
  {
    var r := w.index[s];
    w.(heap := w.heap[r := Entry(w.heap[r].crashCount + 1, recordedAt, false)], caused := Bump(w.caused, r))
  }

  lemma {:induction false} RoundRestarts(w: Watch, s: ServerId, i: Inspection, recordedAt: Seconds, judgedAt: Seconds, rest: seq<Step>)
    requires w.checker.Idle? && s in w.index && w.index[s] in w.heap && Crashed(i) && i.autoRestart
    requires w.heap[w.index[s]].crashCount < RESTART_LIMIT
    requires w.heap[w.index[s]].crashCount == 0 || judgedAt - recordedAt >= THROTTLE
    requires Legal(AfterRound(w, s, recordedAt), rest)
    ensures var run, r := Round(s, i, recordedAt, judgedAt, rest), w.index[s];
            && Legal(w, run) && Exec(w, run) == Exec(AfterRound(w, s, recordedAt), rest)
            && Received(w, run, r) == 1 + Received(AfterRound(w, s, recordedAt), rest, r)
            && (Prompt(w, run) <==> judgedAt - recordedAt < THROTTLE && Prompt(AfterRound(w, s, recordedAt), rest))
  {
    var r := w.index[s];
    var w1 := Next(w, Lookup(s));
    var w2 := Next(w1, Inspect(i, recordedAt));
    var w3 := Next(w2, Judge(judgedAt));
    assert w3.checker == Restarting(s, r);
    assert Next(w3, AutoStart) == AfterRound(w, s, recordedAt);
    OneStep(w3, AutoStart, rest, r);
    OneStep(w2, Judge(judgedAt), [AutoStart] + rest, r);
    OneStep(w1, Inspect(i, recordedAt), [Judge(judgedAt)] + ([AutoStart] + rest), r);
    OneStep(w, Lookup(s), [Inspect(i, recordedAt)] + ([Judge(judgedAt)] + ([AutoStart] + rest)), r);
  }

  /** The stray run and three restarts of the entry's own, the later two with their test ten minutes after the crash. */
  function FourRestarts(s: ServerId, first: Ref, second: Ref, i: Inspection, t: Seconds): seq<Step> {
    StrayRun(s, first, second, i, t, Round(s, i, t, t, Round(s, i, t, t + 600, Round(s, i, t + 600, t + 1200, []))))
  }

  /** An entry can receive four automatic restarts. */
  lemma FourthRestartHappens(s: ServerId, first: Ref, second: Ref, i: Inspection, t: Seconds)
    requires Crashed(i) && i.autoRestart && first != second
    ensures Legal(FRESH_WATCH, FourRestarts(s, first, second, i, t))
    ensures Received(FRESH_WATCH, FourRestarts(s, first, second, i, t), second) == 4
  {
    var w0 := AfterStray(s, first, second, t);
    var w1 := AfterRound(w0, s, t);
    var w2 := AfterRound(w1, s, t);
    var r3 := Round(s, i, t + 600, t + 1200, []);
    var r2 := Round(s, i, t, t + 600, r3);
    RoundRestarts(w2, s, i, t + 600, t + 1200, []);
    RoundRestarts(w1, s, i, t, t + 600, r3);
    RoundRestarts(w0, s, i, t, t, r2);
    StrayRunEnds(s, first, second, i, t, Round(s, i, t, t, r2), second);
  }

  /** And two, when every throttle test is prompt. */
  lemma SecondPromptRestartHappens(s: ServerId, first: Ref, second: Ref, i: Inspection, t: Seconds)
    requires Crashed(i) && i.autoRestart && first != second
    ensures var run := StrayRun(s, first, second, i, t, Round(s, i, t, t, []));
            Legal(FRESH_WATCH, run) && Prompt(FRESH_WATCH, run) && Received(FRESH_WATCH, run, second) == 2
  {
    RoundRestarts(AfterStray(s, first, second, t), s, i, t, t, []);
    StrayRunEnds(s, first, second, i, t, Round(s, i, t, t, []), second);
  }

  // ---------------------------------------------------------------- the drain

  /** The state after i steps of a run. */
  function StateAt(run: seq<Step>, i: nat): Watch
    requires i <= |run|
  {
    if i == 0 then FRESH_WATCH
    else
      var w := StateAt(run, i - 1);
      if Enabled(w, run[i - 1]) then Next(w, run[i - 1]) else w
  }

  /** The step raises the flag of entry r: a crash is recorded, or found over the limit. */
  predicate Raises(w: Watch, step: Step, r: Ref) {
    Enabled(w, step) &&
    match step
    case Inspect(i, _) => Crashed(i) && w.checker.ref == r
    case Judge(now) => w.checker.ref == r && Decide(w.heap[r], w.checker.autoRestart, now) == OverLimit
    case _ => false
  }

  /** The step drains entry r or starts it: the panel's start, or the automatic one. */
  predicate Settles(w: Watch, step: Step, r: Ref) {
    Enabled(w, step) &&
    match step
    case Drain => r in w.index.Values
    case StartByPanel(s) => w.index[s] == r
    case AutoStart => Hits(w, step, r)
    case _ => false
  }

  ghost predicate RaisedAt(run: seq<Step>, i: nat, r: Ref)
    requires i < |run|
  {
    Raises(StateAt(run, i), run[i], r)
  }

  ghost predicate SettledAt(run: seq<Step>, i: nat, r: Ref)
    requires i < |run|
  {
    Settles(StateAt(run, i), run[i], r)
  }

  /** One of the first n steps raised the entry's flag, and none of them drained or started it later. */
  ghost predicate Owed(run: seq<Step>, n: nat, r: Ref)
    requires n <= |run|
  {
    exists i :: 0 <= i < n && RaisedAt(run, i, r) && forall j | i < j < n :: !SettledAt(run, j, r)
  }

  lemma OwedGrows(run: seq<Step>, n: nat, r: Ref)
    requires n < |run|
    ensures Owed(run, n + 1, r) <==> RaisedAt(run, n, r) || (Owed(run, n, r) && !SettledAt(run, n, r))
  {
  }

  predicate Flagged(w: Watch, r: Ref) {
    r in w.heap && w.heap[r].needsAttention
  }

  lemma FlagStep(w: Watch, step: Step, r: Ref)
    requires IndexSound(w) && Enabled(w, step)
    ensures Flagged(Next(w, step), r) <==> Raises(w, step, r) || (Flagged(w, r) && !Settles(w, step, r))
  {
    match step
    case Drain => assert r in w.index.Values && Flagged(w, r) ==> exists s :: s in Report(w) && w.index[s] == r;
    case Inspect(_, _) =>
    case Judge(_) =>
    case AutoStart =>
    case _ =>
  }

  lemma {:induction false} FlaggedIsOwed(run: seq<Step>, n: nat, r: Ref)
    requires n <= |run|
    ensures IndexSound(StateAt(run, n)) && (Flagged(StateAt(run, n), r) <==> Owed(run, n, r))
  {
    if n > 0 {
      var w, step := StateAt(run, n - 1), run[n - 1];
      FlaggedIsOwed(run, n - 1, r);
      OwedGrows(run, n - 1, r);
      if Enabled(w, step) {
        IndexSoundStep(w, step);
        FlagStep(w, step, r);
      }
    }
  }

  lemma {:induction false} ExecIsStateAt(run: seq<Step>, n: nat)
    requires n <= |run| && Legal(StateAt(run, n), run[n..])
    ensures Exec(StateAt(run, n), run[n..]) == StateAt(run, |run|)
    decreases |run| - n
  {
    if n < |run| {
      assert run[n..][0] == run[n] && run[n..][1..] == run[n + 1..];
      ExecIsStateAt(run, n + 1);
    }
  }

  /**
    After every run a drain reports a server exactly when it is tracked and its entry's flag was
    raised since it was last drained or started: nothing older, and nothing forgotten.
   */
  lemma DrainReportsWhatIsOwed(run: seq<Step>, s: ServerId)
    requires Legal(FRESH_WATCH, run)
    ensures var w := Exec(FRESH_WATCH, run);
            s in Report(w) <==> s in w.index && Owed(run, |run|, w.index[s])
  {
    assert run[0..] == run && run[..|run|] == run;
    ExecIsStateAt(run, 0);
    var w := Exec(FRESH_WATCH, run);
    if s in w.index {
      FlaggedIsOwed(run, |run|, w.index[s]);
    }
  }
}
