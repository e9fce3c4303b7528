/**
  The migration runner: a list of applied files read once, then one transaction a file. Any
  number of runners may compete, fail or lose their connection; what the files' SQL does to the
  data is a parameter.
 */
module Migrations {
  import opened Common

  /** What one file's SQL makes of the data, or None when it fails. */
  type Effect<!D> = (D, string) -> Option<D>

  /** The database as committed; applied is the _migrations table in the order of its ids. */
  datatype Store<D> = Store(data: D, applied: seq<string>)

  predicate Distinct(files: seq<string>) {
    forall i, j | 0 <= i < j < |files| :: files[i] != files[j]
  }

  /** The meaning of a list of files: their effects one after the other. */
  function Fold<D>(effect: Effect<D>, data: D, files: seq<string>): Option<D>
    decreases |files|
  {
    if files == [] then Some(data)
    else
      match Fold(effect, data, files[..|files| - 1])
      case None => None
      case Some(before) => effect(before, files[|files| - 1])
  }

  /** The reference: the first k files are applied, in order, and the data is what they make of the empty database. */
  predicate Migrated<D(==)>(effect: Effect<D>, empty: D, files: seq<string>, s: Store<D>) {
    && |s.applied| <= |files|
    && s.applied == files[..|s.applied|]
    && Fold(effect, empty, s.applied) == Some(s.data)
  }

  lemma PrefixIn(files: seq<string>, i: nat, k: nat)
    requires Distinct(files) && i < |files| && k <= |files|
    ensures files[i] in files[..k] <==> i < k
  {
    if i < k {
      assert files[..k][i] == files[i];
    }
  }

  lemma FoldOneMore<D>(effect: Effect<D>, empty: D, files: seq<string>, k: nat, before: D)
    requires k < |files| && Fold(effect, empty, files[..k]) == Some(before)
    ensures Fold(effect, empty, files[..k + 1]) == effect(before, files[k])
    ensures files[..k + 1] == files[..k] + [files[k]]
  {
    assert files[..k + 1][..k] == files[..k];
  }

  // ---------------------------------------------------------------- competing runners

  datatype Pc<D> = Scanning | Begun | Ran(work: D) | Inserted(work: D) | Done | Failed

  /** snapshot is what getAppliedMigrations returned; work is the transaction's own copy of the data. */
  datatype Runner<D> = Runner(pc: Pc<D>, snapshot: seq<string>, i: nat)

  datatype System<D> = System(store: Store<D>, runners: map<nat, Runner<D>>)

  datatype Step =
    | Start(r: nat)
    | Skip(r: nat)
    | Begin(r: nat)
    | RunSql(r: nat)
    | Insert(r: nat)
    | Commit(r: nat, heard: bool)
    | Abort(r: nat)
    | Finish(r: nat)

  /** An uncommitted row with the same filename makes the INSERT wait. */
  predicate Waits<D>(files: seq<string>, s: System<D>, r: nat)
    requires r in s.runners && s.runners[r].i < |files|
  {
    exists other | other in s.runners ::
      other != r && s.runners[other].pc.Inserted? && s.runners[other].i < |files|
      && files[s.runners[other].i] == files[s.runners[r].i]
  }

  predicate Enabled<D>(files: seq<string>, s: System<D>, e: Step) {
    if e.Start? then e.r !in s.runners
    else if e.r !in s.runners then false
    else
      var me := s.runners[e.r];
      match e
      case Skip(_) => me.pc.Scanning? && me.i < |files| && files[me.i] in me.snapshot
      case Begin(_) => me.pc.Scanning? && me.i < |files| && files[me.i] !in me.snapshot
      case RunSql(_) => me.pc.Begun? && me.i < |files|
      case Insert(r) => me.pc.Ran? && me.i < |files| && !Waits(files, s, r)
      case Commit(_, _) => me.pc.Inserted? && me.i < |files|
      case Abort(_) => !me.pc.Done? && !me.pc.Failed?
      case Finish(_) => me.pc.Scanning? && me.i >= |files|
      case _ => false
  }

  function Next<D>(effect: Effect<D>, files: seq<string>, s: System<D>, e: Step): System<D>
    requires Enabled(files, s, e)
  {
    if e.Start? then s.(runners := s.runners[e.r := Runner(Scanning, s.store.applied, 0)])
    else
      var me := s.runners[e.r];
      match e
      case Skip(r) => s.(runners := s.runners[r := me.(i := me.i + 1)])
      case Begin(r) => s.(runners := s.runners[r := me.(pc := Begun)])
      case RunSql(r) =>
        var pc := match effect(s.store.data, files[me.i]) case Some(d) => Ran(d) case None => Failed;
        s.(runners := s.runners[r := me.(pc := pc)])
      case Insert(r) =>
        var pc := if files[me.i] in s.store.applied then Failed else Inserted(me.pc.work);
        s.(runners := s.runners[r := me.(pc := pc)])
      case Commit(r, heard) =>
        System(Store(me.pc.work, s.store.applied + [files[me.i]]),
               s.runners[r := if heard then Runner(Scanning, me.snapshot, me.i + 1) else me.(pc := Failed)])
      case Abort(r) => s.(runners := s.runners[r := me.(pc := Failed)])
      case Finish(r) => s.(runners := s.runners[r := me.(pc := Done)])
      case _ => s
  }

  predicate Legal<D>(effect: Effect<D>, files: seq<string>, s: System<D>, run: seq<Step>)
    decreases |run|
  {
    run == [] || (Enabled(files, s, run[0]) && Legal(effect, files, Next(effect, files, s, run[0]), run[1..]))
  }

  function Exec<D>(effect: Effect<D>, files: seq<string>, s: System<D>, run: seq<Step>): System<D>
    requires Legal(effect, files, s, run)
    decreases |run|
  {
    if run == [] then s else Exec(effect, files, Next(effect, files, s, run[0]), run[1..])
  }

  /** What holds of one runner while k files are applied. */
  predicate RunnerOk<D(==)>(effect: Effect<D>, files: seq<string>, s: Store<D>, me: Runner<D>) {
    var k := |s.applied|;
    && |me.snapshot| <= k <= |files| && me.snapshot == files[..|me.snapshot|]
    && (!me.pc.Failed? ==> me.i <= k)
    && (me.pc.Begun? || me.pc.Ran? || me.pc.Inserted? ==> me.i < |files|)
    && (me.pc.Ran? && me.i == k ==> me.i < |files| && effect(s.data, files[me.i]) == Some(me.pc.work))
    && (me.pc.Inserted? ==> me.i == k && me.i < |files| && effect(s.data, files[me.i]) == Some(me.pc.work))
    && (me.pc.Done? ==> k == |files|)
  }

  ghost predicate Sound<D>(effect: Effect<D>, empty: D, files: seq<string>, s: System<D>) {
    && Migrated(effect, empty, files, s.store)
    && (forall r | r in s.runners :: RunnerOk(effect, files, s.store, s.runners[r]))
    && (forall r, q | r in s.runners && q in s.runners && s.runners[r].pc.Inserted? && s.runners[q].pc.Inserted? :: r == q)
  }

  lemma SoundCommit<D>(effect: Effect<D>, empty: D, files: seq<string>, s: System<D>, r: nat, heard: bool)
    requires Distinct(files) && Sound(effect, empty, files, s) && Enabled(files, s, Commit(r, heard))
    ensures Sound(effect, empty, files, Next(effect, files, s, Commit(r, heard)))
    ensures s.runners[r].i == |s.store.applied|
  {
    var t := Next(effect, files, s, Commit(r, heard));
    var k := |s.store.applied|;
    assert RunnerOk(effect, files, s.store, s.runners[r]);
    FoldOneMore(effect, empty, files, k, s.store.data);
    assert t.store.applied == files[..k + 1];
    forall q | q in t.runners ensures RunnerOk(effect, files, t.store, t.runners[q]) {
      assert q in s.runners && RunnerOk(effect, files, s.store, s.runners[q]);
    }
  }

  lemma SoundInsert<D>(effect: Effect<D>, empty: D, files: seq<string>, s: System<D>, r: nat)
    requires Distinct(files) && Sound(effect, empty, files, s) && Enabled(files, s, Insert(r))
    ensures Sound(effect, empty, files, Next(effect, files, s, Insert(r)))
  {
    var t := Next(effect, files, s, Insert(r));
    assert RunnerOk(effect, files, s.store, s.runners[r]);
    PrefixIn(files, s.runners[r].i, |s.store.applied|);
    forall q | q in t.runners ensures RunnerOk(effect, files, t.store, t.runners[q]) {
      assert q in s.runners && RunnerOk(effect, files, s.store, s.runners[q]);
    }
    forall q | q in t.runners && t.runners[q].pc.Inserted? && t.runners[r].pc.Inserted? ensures q == r {
      assert RunnerOk(effect, files, t.store, t.runners[q]) && RunnerOk(effect, files, t.store, t.runners[r]);
    }
  }

  lemma SoundOther<D>(effect: Effect<D>, empty: D, files: seq<string>, s: System<D>, e: Step)
    requires Distinct(files) && Sound(effect, empty, files, s) && Enabled(files, s, e)
    requires !e.Commit? && !e.Insert?
    ensures Sound(effect, empty, files, Next(effect, files, s, e))
    ensures Next(effect, files, s, e).store == s.store
  {
    var t := Next(effect, files, s, e);
    if !e.Start? {
      assert RunnerOk(effect, files, s.store, s.runners[e.r]);
      if s.runners[e.r].i < |files| {
        PrefixIn(files, s.runners[e.r].i, |s.runners[e.r].snapshot|);
      }
    }
    forall q | q in t.runners ensures RunnerOk(effect, files, t.store, t.runners[q]) {
      if q != e.r {
        assert RunnerOk(effect, files, s.store, s.runners[q]);
      }
    }
  }

  /** A step appends the next file of the list to the applied ones, or leaves the database alone. */
  lemma SoundStep<D>(effect: Effect<D>, empty: D, files: seq<string>, s: System<D>, e: Step)
    requires Distinct(files) && Sound(effect, empty, files, s) && Enabled(files, s, e)
    ensures Sound(effect, empty, files, Next(effect, files, s, e))
    ensures var t, k := Next(effect, files, s, e), |s.store.applied|;
            if e.Commit? then k < |files| && t.store.applied == s.store.applied + [files[k]] else t.store == s.store
  {
    match e
    case Commit(r, heard) => SoundCommit(effect, empty, files, s, r, heard);
    case Insert(r) => SoundInsert(effect, empty, files, s, r);
    case _ => SoundOther(effect, empty, files, s, e);
  }

  function Commits(run: seq<Step>): nat {
    if run == [] then 0 else (if run[0].Commit? then 1 else 0) + Commits(run[1..])
  }

  /**
    Over any run of any number of runners that fail or compete, the applied files are a prefix
    of the sorted files, the data is the fold of that prefix, and each commit has added exactly
    one more file of it.
   */
  lemma {:induction false} MigratedRun<D>(effect: Effect<D>, empty: D, files: seq<string>, s: System<D>, run: seq<Step>)
    requires Distinct(files) && Sound(effect, empty, files, s) && Legal(effect, files, s, run)
    ensures Sound(effect, empty, files, Exec(effect, files, s, run))
    ensures var t := Exec(effect, files, s, run);
            && Migrated(effect, empty, files, t.store)
            && s.store.applied <= t.store.applied
            && |t.store.applied| == |s.store.applied| + Commits(run)
    decreases |run|
  {
    if run != [] {
      SoundStep(effect, empty, files, s, run[0]);
      MigratedRun(effect, empty, files, Next(effect, files, s, run[0]), run[1..]);
    }
  }

  /** A fresh database, before any runner: every run from here keeps the theorem's claims. */
  lemma FreshIsSound<D>(effect: Effect<D>, empty: D, files: seq<string>)
    ensures Sound(effect, empty, files, System(Store(empty, []), map[]))
  {
  }

  /** On a fresh database: the applied files are the first ones of the list, as many as there were commits. */
  lemma MigratedFromFresh<D>(effect: Effect<D>, empty: D, files: seq<string>, run: seq<Step>)
    requires Distinct(files) && Legal(effect, files, System(Store(empty, []), map[]), run)
    ensures var t := Exec(effect, files, System(Store(empty, []), map[]), run).store;
            && Commits(run) <= |files| && t.applied == files[..Commits(run)]
            && Fold(effect, empty, files[..Commits(run)]) == Some(t.data)
  {
    FreshIsSound(effect, empty, files);
    MigratedRun(effect, empty, files, System(Store(empty, []), map[]), run);
  }

  /** Once any run has completed, no step of any runner changes the database again, and a new runner only skips. */
  lemma {:induction false} CompletedRunIsFinal<D>(effect: Effect<D>, empty: D, files: seq<string>, s: System<D>, run: seq<Step>)
    requires Distinct(files) && Sound(effect, empty, files, s) && Legal(effect, files, s, run)
    requires exists r :: r in s.runners && s.runners[r].pc.Done?
    ensures Exec(effect, files, s, run).store == s.store
    ensures s.store.applied == files
    ensures forall i, r | 0 <= i < |run| && run[i].Start? && r == run[i].r && r in Exec(effect, files, s, run).runners ::
              var pc := Exec(effect, files, s, run).runners[r].pc; pc.Scanning? || pc.Done? || pc.Failed?
  {
    var r :| r in s.runners && s.runners[r].pc.Done?;
    assert RunnerOk(effect, files, s.store, s.runners[r]);
    MigratedRun(effect, empty, files, s, run);
    var t := Exec(effect, files, s, run);
    assert |t.store.applied| <= |files|;
    AllAppliedFinal(effect, empty, files, s, run, s.runners.Keys);
  }

  /** With every file applied the store stays, and runners other than the given ones never open a transaction. */
  lemma {:induction false} AllAppliedFinal<D>(effect: Effect<D>, empty: D, files: seq<string>, s: System<D>, run: seq<Step>,
                                              earlier: set<nat>)
    requires Distinct(files) && Sound(effect, empty, files, s) && Legal(effect, files, s, run)
    requires s.store.applied == files && earlier <= s.runners.Keys
    requires forall r | r in s.runners && r !in earlier :: OnlySkips(files, s.runners[r])
    ensures Exec(effect, files, s, run).store == s.store
    ensures var t := Exec(effect, files, s, run);
            forall r | r in t.runners && r !in earlier :: OnlySkips(files, t.runners[r])
    ensures forall i | 0 <= i < |run| && run[i].Start? :: run[i].r !in earlier
    decreases |run|
  {
    if run != [] {
      var t := Next(effect, files, s, run[0]);
      SoundStep(effect, empty, files, s, run[0]);
      forall r | r in t.runners && r !in earlier ensures OnlySkips(files, t.runners[r]) {
        SkipperStep(effect, files, s, run[0], r);
      }
      AllAppliedFinal(effect, empty, files, t, run[1..], earlier);
    }
  }

  predicate OnlySkips<D>(files: seq<string>, me: Runner<D>) {
    me.snapshot == files && (me.pc.Scanning? || me.pc.Done? || me.pc.Failed?)
  }

  lemma SkipperStep<D>(effect: Effect<D>, files: seq<string>, s: System<D>, e: Step, r: nat)
    requires Enabled(files, s, e) && s.store.applied == files
    requires r in s.runners ==> OnlySkips(files, s.runners[r])
    ensures r in Next(effect, files, s, e).runners ==> OnlySkips(files, Next(effect, files, s, e).runners[r])
  {
  }

  // ---------------------------------------------------------------- one runner alone

  class Database<D(==)> {
    var data: D
    var applied: seq<string>

    constructor (empty: D)
      ensures data == empty && applied == []
    {
      data, applied := empty, [];
    }

    ghost function Contents(): Store<D>
      reads this
    {
      Store(data, applied)
    }

    /** runMigrations without a competitor; a file in faults loses its connection before the commit. */
    method RunMigrations(effect: Effect<D>, files: seq<string>, faults: set<string>) returns (ok: bool)
      modifies this
      ensures (Contents(), ok) == Applied(effect, old(Contents()), Pending(files, old(applied)), faults)
    {
      var snapshot := applied;
      for i := 0 to |files|
        invariant Applied(effect, Contents(), Pending(files[i..], snapshot), faults) ==
                  Applied(effect, old(Contents()), Pending(files, old(applied)), faults)
      {
        var file := files[i];
        assert files[i..][1..] == files[i + 1..];
        ghost var others := Pending(files[i + 1..], snapshot);
        assert Pending(files[i..], snapshot) == if file in snapshot then others else [file] + others;
        if file !in snapshot {
          assert ([file] + others)[1..] == others;
          match effect(data, file) {
            case None => return false;
            case Some(work) =>
              if file in applied || file in faults { return false; }
              data, applied := work, applied + [file];
          }
        }
      }
      return true;
    }
  }

  function Pending(files: seq<string>, snapshot: seq<string>): seq<string> {
    if files == [] then [] else (if files[0] in snapshot then [] else [files[0]]) + Pending(files[1..], snapshot)
  }

  /** One transaction a file, up to the first that fails. */
  function Applied<D>(effect: Effect<D>, s: Store<D>, pending: seq<string>, faults: set<string>): (Store<D>, bool)
    decreases |pending|
  {
    if pending == [] then (s, true)
    else
      match effect(s.data, pending[0])
      case None => (s, false)
      case Some(work) =>
        if pending[0] in s.applied || pending[0] in faults then (s, false)
        else Applied(effect, Store(work, s.applied + [pending[0]]), pending[1..], faults)
  }

  lemma {:induction false} PendingOfPrefix(files: seq<string>, k: nat, from: nat)
    requires Distinct(files) && k <= |files| && from <= |files|
    ensures Pending(files[from..], files[..k]) == files[if from < k then k else from..]
    decreases |files| - from
  {
    if from < |files| {
      PrefixIn(files, from, k);
      PendingOfPrefix(files, k, from + 1);
      assert files[from..][1..] == files[from + 1..];
      assert files[from..] == [files[from]] + files[from + 1..];
    }
  }

  /**
    A run over a migrated database leaves a migrated database; it completes if and only if every
    file is applied afterwards, and otherwise it stopped at the first file that failed.
   */
  lemma {:induction false} RunCompletesIff<D>(effect: Effect<D>, empty: D, files: seq<string>, s: Store<D>, faults: set<string>)
    requires Distinct(files) && Migrated(effect, empty, files, s)
    ensures var (t, ok) := Applied(effect, s, files[|s.applied|..], faults);
            var k := |t.applied|;
            && Migrated(effect, empty, files, t)
            && s.applied <= t.applied
            && (ok <==> t.applied == files)
            && (!ok ==> k < |files| && (effect(t.data, files[k]) == None || files[k] in faults))
    decreases |files| - |s.applied|
  {
    var k := |s.applied|;
    if k < |files| {
      PrefixIn(files, k, k);
      assert files[k..][0] == files[k] && files[k..][1..] == files[k + 1..];
      match effect(s.data, files[k]) {
        case None =>
        case Some(work) =>
          if files[k] !in faults {
            FoldOneMore(effect, empty, files, k, s.data);
            RunCompletesIff(effect, empty, files, Store(work, s.applied + [files[k]]), faults);
          }
      }
    }
  }

  /** The whole run on one object: from a migrated database, exactly the missing files, and nothing the second time. */
  lemma SecondRunIsNoOp<D>(effect: Effect<D>, empty: D, files: seq<string>, s: Store<D>, faults: set<string>, again: set<string>)
    requires Distinct(files) && Migrated(effect, empty, files, s)
    requires Applied(effect, s, Pending(files, s.applied), faults).1
    ensures var t := Applied(effect, s, Pending(files, s.applied), faults).0;
            && t.applied == files && Fold(effect, empty, files) == Some(t.data)
            && Applied(effect, t, Pending(files, t.applied), again) == (t, true)
  {
    assert files[0..] == files && files[..|files|] == files;
    PendingOfPrefix(files, |s.applied|, 0);
    RunCompletesIff(effect, empty, files, s, faults);
    PendingOfPrefix(files, |files|, 0);
  }
}
