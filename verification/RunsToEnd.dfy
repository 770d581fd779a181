/** Runs of the crash machine, made step by step and carried to their end. */
module RunsToEnd {
  import BuddyPositions
  import opened BuddyStatus
  import opened BuddyCuts
  import opened RedoLog
  import opened MetaStores
  import opened StoreSteps
  import opened StoreWork
  import opened CrashRecovery
  import CrashPoints

  /** The run `more` goes on from `run`. */
  ghost predicate Extends(x: Context, run: seq<Machine>, more: seq<Machine>)
    requires Start(x)
  {
    IsRun(x, more) && |run| <= |more| && more[..|run|] == run
  }

  /** And it does so without a crash. */
  ghost predicate GoesOn(x: Context, run: seq<Machine>, more: seq<Machine>)
    requires Start(x)
  {
    Extends(x, run, more) && forall k :: |run| <= k < |more| ==> !more[k].phase.Down?
  }

  lemma OneOn(x: Context, run: seq<Machine>, m': Machine)
    requires Start(x) && IsRun(x, run) && Next(x.o, x.csum, x.ops, run[|run| - 1], m')
    ensures IsRun(x, run + [m']) && Extends(x, run, run + [m'])
    ensures !m'.phase.Down? ==> GoesOn(x, run, run + [m'])
  {
    hide Start, IsRun, Next;
    CrashPoints.RunMore(x, run, m');
  }

  lemma ExtendsOn(x: Context, a: seq<Machine>, b: seq<Machine>, c: seq<Machine>)
    requires Start(x) && Extends(x, a, b) && Extends(x, b, c)
    ensures Extends(x, a, c)
    ensures GoesOn(x, a, b) && GoesOn(x, b, c) ==> GoesOn(x, a, c)
  {
    hide Start, IsRun;
    assert c[..|a|] == c[..|b|][..|a|];
    assert forall k :: |a| <= k < |b| ==> c[..|b|][k] == c[k];
  }

  lemma ExtendsFacts(x: Context, a: seq<Machine>, b: seq<Machine>)
    requires Start(x) && IsRun(x, a) && Extends(x, a, b)
    ensures IsRun(x, b) && |b| > 0 && b[0] == a[0]
    ensures (Took(x, a) ==> Took(x, b)) && (Spoilt(x.o, a) ==> Spoilt(x.o, b))
    ensures GoesOn(x, a, b) && !Spoilt(x.o, a) ==> !Spoilt(x.o, b)
  {
    assert |a| > 0;
    hide Start, IsRun, TookAt, InsideChain;
    assert forall i :: 0 <= i < |a| ==> a[i] == b[i] by {
      assert forall i :: 0 <= i < |a| ==> b[..|a|][i] == b[i];
    }
    if i :| 0 <= i < |a| && TookAt(x, a[i]) {
      assert TookAt(x, b[i]);
    }
    if i :| 0 <= i < |a| - 1 && SpoilsAt(x.o, a[i], a[i + 1]) {
      assert SpoilsAt(x.o, b[i], b[i + 1]);
    }
    if GoesOn(x, a, b) && Spoilt(x.o, b) {
      var i :| 0 <= i < |b| - 1 && SpoilsAt(x.o, b[i], b[i + 1]);
      assert i + 1 < |a| && SpoilsAt(x.o, a[i], a[i + 1]);
    }
  }

  /** A crash with no buddy operation under way spoils nothing. */
  lemma GroundCrashOn(x: Context, a: seq<Machine>, down: Machine)
    requires Start(x) && IsRun(x, a) && down == a[|a| - 1].(phase := Down) && ClimbOf(a[|a| - 1].phase).Ground?
    requires !Spoilt(x.o, a) && Shape(x.o, a[|a| - 1].meta.tree)
    ensures IsRun(x, a + [down]) && Extends(x, a, a + [down]) && !Spoilt(x.o, a + [down])
  {
    assert |a| > 0;
    hide Start, IsRun, Spoilt, BuildStep, WipeStep, ExecuteStep, ReplayStep, ScanStep;
    OneOn(x, a, down);
    assert (a + [down])[..|a|] == a;
    SpoiltSplit(x.o, a + [down]);
  }

  // Making the stores ----------------------------------------------------------------------------------

  /** At work, by executing or by recovering. */
  function Working(recovers: bool, w: Work): Phase {
    if recovers then Recovering(w) else Executing(w)
  }

  function Ended(recovers: bool): Phase {
    if recovers then Recovered(false) else Done
  }

  /** Stores that can all be made, the first of them perhaps under way. */
  predicate Makeable(o: nat, w: Work) {
    AllStorable(o, w.todo) && (w.climb.At? ==> w.todo != [] && Climbable(o, w.climb, w.todo[0]))
  }

  function Height(o: nat, climb: Climb): nat {
    if climb.At? then climb.q.index else BuddyPositions.Pow2(o)
  }

  lemma StepDescends(o: nat, m: Meta, climb: Climb, s: Store)
    requires Shape(o, m.tree) && Climbable(o, climb, s)
    ensures var r := StoreNext(o, m, climb, s); !r.done ==> Height(o, r.climb) < Height(o, climb)
  {
    if climb.Ground? && OnTree(s) {
      BuddyPositions.IndexBound(o, s.pos);
    }
    if climb.At? {
      BuddyPositions.IndexOneIsRoot(o, climb.q);
    }
  }

  lemma WorkIsNext(x: Context, m: Machine, m': Machine)
    requires Shape(x.o, m.meta.tree) && (ExecuteStep(x.o, m, m') || ReplayStep(x.o, m, m'))
    ensures Next(x.o, x.csum, x.ops, m, m')
  {
    hide BuildStep, WipeStep, ExecuteStep, CrashStep, ScanStep, ReplayStep;
  }

  /** One more write. */
  lemma OneWrite(x: Context, recovers: bool, m: Machine, w: Work) returns (m': Machine, w': Work)
    requires m.phase == Working(recovers, w) && Shape(x.o, m.meta.tree) && Makeable(x.o, w) && w.todo != []
    ensures Next(x.o, x.csum, x.ops, m, m')
    ensures m'.phase == Working(recovers, w') && Shape(x.o, m'.meta.tree) && Makeable(x.o, w')
    ensures |w'.todo| < |w.todo| || (w'.todo == w.todo && Height(x.o, w'.climb) < Height(x.o, w.climb))
  {
    hide StoreNext, Height, Next;
    var s := w.todo[0];
    assert Storable(x.o, s);
    var r := StoreNext(x.o, m.meta, w.climb, s);
    StepDescends(x.o, m.meta, w.climb, s);
    w' := Work(if r.done then w.todo[1..] else w.todo, r.climb);
    m' := Machine(m.log, r.meta, Working(recovers, w'));
    WorkIsNext(x, m, m');
  }

  lemma LastStep(x: Context, recovers: bool, m: Machine, w: Work)
    requires m.phase == Working(recovers, w) && Shape(x.o, m.meta.tree) && w.todo == []
    ensures Next(x.o, x.csum, x.ops, m, m.(phase := Ended(recovers))) && !Ended(recovers).Down?
  {
    hide Next;
    WorkIsNext(x, m, m.(phase := Ended(recovers)));
  }

  lemma WorkingIsUp(recovers: bool, w: Work)
    ensures !Working(recovers, w).Down?
  {
  }

  /** Stores that can be made are made: a machine that executes or recovers gets to its end. */
  lemma {:induction false} WorkFinishes(x: Context, recovers: bool, run: seq<Machine>, m: Machine, w: Work)
    returns (more: seq<Machine>)
    requires Start(x) && IsRun(x, run) && run[|run| - 1] == m && m.phase == Working(recovers, w)
    requires Shape(x.o, m.meta.tree) && Makeable(x.o, w)
    ensures Extends(x, run, more) && GoesOn(x, run, more)
    ensures |more| > 0 && more[|more| - 1].phase == Ended(recovers)
    decreases |w.todo|, Height(x.o, w.climb)
  {
    hide *;
    RunIsSome(x, run);
    if w.todo == [] {
      LastStep(x, recovers, m, w);
      OneOn(x, run, m.(phase := Ended(recovers)));
      more := run + [m.(phase := Ended(recovers))];
    } else {
      var m', w' := OneWrite(x, recovers, m, w);
      WorkingIsUp(recovers, w');
      OneOn(x, run, m');
      more := WorkFinishes(x, recovers, run + [m'], m', w');
      ExtendsOn(x, run, run + [m'], more);
    }
  }

  // Committing -----------------------------------------------------------------------------------------

  lemma LastErase(csum: Checksum, ops: seq<Op>, m: Machine) returns (m': Machine)
    requires Loggable(ops) && m.phase == Building(|ops|, 2)
    ensures BuildStep(csum, ops, m, m') && m'.phase == Executing(Work(AllStores(ops), Ground))
    ensures m'.log == m.log[|ops| + 1 := EMPTY]
  {
    m' := Machine(Put(m.log, Erase(|ops| + 1)), m.meta, Executing(Work(AllStores(ops), Ground)));
  }

  /** The update commits and stands before its first store. */
  lemma Commits(x: Context, log: Log, wipes: bool) returns (run: seq<Machine>)
    requires Start(x) && Records(x.csum, log, x.last, x.stale) && !Revives(x, log)
    ensures |run| > 0 && IsRun(x, run) && run[0].log == log && run[0].phase == (if wipes then Wiping else Building(0, 0))
    ensures CrashPoints.Stored(x, run) && Took(x, run) && !Spoilt(x.o, run)
    ensures run[|run| - 1].meta == x.pre && run[|run| - 1].phase == Executing(Work(AllStores(x.ops), Ground))
  {
    hide Start, Records, Revives, IsRun, BuildStep, Next, Loggable, AllStores, Spoilt;
    StartFacts(x);
    var before := CrashPoints.ReachChecksum(x, log, wipes);
    var m := before[|before| - 1];
    var m' := LastErase(x.csum, x.ops, m);
    CrashPoints.BuildOnlyLogs(x, m, m');
    CrashPoints.BuildIsNext(x, m, m');
    OneOn(x, before, m');
    run := before + [m'];
    assert AtCommitPoint(x, run[|before| - 1]);
    CrashPoints.StoredTook(x, run);
    ExtendsFacts(x, before, run);
  }

  /** The scan of an update that has committed. */
  lemma Rescans(x: Context, run: seq<Machine>, m: Machine) returns (more: seq<Machine>)
    requires Start(x) && IsRun(x, run) && run[|run| - 1] == m && m.phase.Down? && Shape(x.o, m.meta.tree)
    requires |x.ops| < REDOLOG_ENTRIES && LogCommitted(x.csum, m.log, x.ops)
    ensures |more| > 0 && IsRun(x, more) && Extends(x, run, more) && GoesOn(x, run, more)
    ensures more[|more| - 1] == m.(phase := Recovering(Work(AllStores(x.ops), Ground)))
  {
    hide Start, IsRun, AllStores, BuildStep, WipeStep, ReplayStep, ExecuteStep, CrashStep, Scan, LogCommitted, GoesOn,
         Extends;
    var again := m.(phase := Recovering(Work(AllStores(x.ops), Ground)));
    ScanCommitted(x, m.log);
    assert ScanStep(x.csum, m, again);
    OneOn(x, run, again);
    more := run + [again];
  }
}
