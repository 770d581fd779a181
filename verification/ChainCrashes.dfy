/**
 Crashes strictly inside the chain of a buddy operation do happen: runs of the machine in which
 recovery finishes without an error and the tree is left with statuses missing.
 */
module ChainCrashes {
  import BuddyPositions
  import opened BuddyStatus
  import opened BuddyCuts
  import opened RedoLog
  import opened MetaStores
  import opened StoreSteps
  import opened StoreWork
  import opened CrashRecovery
  import opened RunsToEnd

  /** A buddy operation on which a crash can fall inside its chain. */
  predicate Cuttable(o: nat, t: seq<nat>, s: Store)
    requires Shape(o, t)
  {
    && OnTree(s) && BuddyPositions.Wf(o, s.pos) && s.pos.index < |t|
    && if s.TreeMark? then MarkWrites(o, t, s.pos) >= 2
       else t[s.pos.index] == BuddyPositions.Width(o, s.pos) && ReleaseWrites(o, t, s.pos) >= 1
  }

  lemma TwoWrites(o: nat, t: seq<nat>, p: BuddyPositions.Pos)
    requires Shape(o, t) && BuddyPositions.Wf(o, p) && ChainWrites(o, t, p) >= 2
    ensures Pending(o, t, p) && BuddyPositions.Wf(o, BuddyPositions.Parent(p)) && BuddyPositions.Parent(p) != p
    ensures Pending(o, ParentWritten(o, t, p), BuddyPositions.Parent(p))
  {
    OneIteration(o, t, p);
    BuddyPositions.IndexOneIsRoot(o, p);
  }

  /** Its writes up to the first point inside the chain. */
  function CutState(o: nat, m: Meta, s: Store): (r: Progress)
    requires Shape(o, m.tree) && Cuttable(o, m.tree, s)
    ensures Shape(o, r.meta.tree) && r.climb.At? && Climbable(o, r.climb, s) && Inside(o, r.meta.tree, s, r.climb.q)
  {
    BuddyPositions.IndexBound(o, s.pos);
    var r := StoreNext(o, m, Ground, s);
    if s.TreeRelease? then r
    else
      TwoWrites(o, r.meta.tree, s.pos);
      StoreNext(o, r.meta, r.climb, s)
  }

  /** From there to the first point inside the chain of the first store. */
  lemma RunsInside(x: Context, run: seq<Machine>) returns (more: seq<Machine>)
    requires Start(x) && IsRun(x, run) && AllStores(x.ops) != [] && Shape(x.o, x.pre.tree)
    requires run[|run| - 1].meta == x.pre && run[|run| - 1].phase == Executing(Work(AllStores(x.ops), Ground))
    requires Cuttable(x.o, x.pre.tree, AllStores(x.ops)[0])
    ensures Extends(x, run, more) && InsideChain(x.o, more[|more| - 1])
  {
    assert |run| > 0;
    hide Start, IsRun, AllStores, BuildStep, WipeStep, ReplayStep, ScanStep, CrashStep, Inside, Cuttable;
    var m, ss := run[|run| - 1], AllStores(x.ops);
    var s, c := ss[0], CutState(x.o, x.pre, ss[0]);
    CutFirst(x.o, x.pre, s);
    var r := StoreNext(x.o, x.pre, Ground, s);
    var m1 := Machine(m.log, r.meta, Executing(Work(ss, r.climb)));
    OneOn(x, run, m1);
    more := run + [m1];
    if s.TreeMark? {
      var m2 := Machine(m.log, c.meta, Executing(Work(ss, c.climb)));
      assert WorkStep(x.o, m1.meta, m1.phase.work, m2.meta, m2.phase.work);
      OneOn(x, more, m2);
      ExtendsOn(x, run, more, more + [m2]);
      more := more + [m2];
    }
  }

  lemma CutFirst(o: nat, m: Meta, s: Store)
    requires Shape(o, m.tree) && Cuttable(o, m.tree, s)
    ensures Storable(o, s) && OnTree(s)
    ensures var r, c := StoreNext(o, m, Ground, s), CutState(o, m, s);
            && !r.done && r.climb.At? && Climbable(o, r.climb, s) && !c.done
            && c == if s.TreeRelease? then r else StoreNext(o, r.meta, r.climb, s)
  {
    BuddyPositions.IndexBound(o, s.pos);
  }

  /**
   An update without a halt whose first store is a buddy operation with ancestors to write can be cut
   inside its chain so that recovery finishes without an error and the tree is not that of the update.
   */
  lemma SpoiltRun(x: Context, log: Log, wipes: bool) returns (run: seq<Machine>)
    requires Start(x) && Records(x.csum, log, x.last, x.stale) && !Revives(x, log) && x.stale == x.last
    requires Halt !in AllStores(x.ops) && AllStores(x.ops) != [] && Shape(x.o, x.pre.tree)
    requires Cuttable(x.o, x.pre.tree, AllStores(x.ops)[0])
    ensures IsRun(x, run) && run[0].log == log && run[0].phase == (if wipes then Wiping else Building(0, 0))
    ensures Took(x, run) && Spoilt(x.o, run)
    ensures run[|run| - 1].phase == Recovered(false)
    ensures Differs(x.o, run[|run| - 1].meta.tree, Post(x).tree)
  {
    hide Start, Records, Revives, IsRun, AllStores, Cuttable, Took, Spoilt, InsideChain, Differs, Post, Extends, GoesOn;
    var a := Commits(x, log, wipes);
    var b := RunsInside(x, a);
    ExtendsFacts(x, a, b);
    var c := CrashesInside(x, b);
    ExtendsFacts(x, b, c);
    PostSettled(x);
    var d := Rescans(x, c, c[|c| - 1]);
    ExtendsFacts(x, c, d);
    run := WorkFinishes(x, true, d, d[|d| - 1], d[|d| - 1].phase.work);
    ExtendsFacts(x, d, run);
    TookIsCommit(x, run);
    CrashAtomic(x, run);
  }

  /** The crash inside the chain. The log is that of the committed update. */
  lemma CrashesInside(x: Context, run: seq<Machine>) returns (more: seq<Machine>)
    requires Start(x) && IsRun(x, run) && x.stale == x.last && Took(x, run) && InsideChain(x.o, run[|run| - 1])
    ensures IsRun(x, more) && Extends(x, run, more) && Spoilt(x.o, more)
    ensures var m := more[|more| - 1]; m.phase.Down? && Shape(x.o, m.meta.tree)
                                       && |x.ops| < REDOLOG_ENTRIES && LogCommitted(x.csum, m.log, x.ops)
  {
    assert |run| > 0;
    hide Start, IsRun, AllStores, BuildStep, WipeStep, ReplayStep, ExecuteStep, ScanStep, Took, Trusted, InvAt,
         Extends, LogCommitted;
    var m := run[|run| - 1];
    var down := m.(phase := Down);
    OneOn(x, run, down);
    more := run + [down];
    ExtendsFacts(x, run, more);
    assert SpoilsAt(x.o, more[|run| - 1], more[|run| - 1 + 1]);
    TookIsCommit(x, more);
    RunInvariant(x, more);
    LogOfTaken(x, down, Spoilt(x.o, more));
  }
}
