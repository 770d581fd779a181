/**
 Two histories of the pool that show what crashes can do: an allocation whose recovery finishes and
 leaves no pool, and an allocation that takes effect although it never stored a commit record.
 */
module PoolRuns {
  import opened Sequences
  import opened BuddyPositions
  import opened BuddyStatus
  import opened BuddyCuts
  import opened BuddyArena
  import opened BuddyVirtual
  import opened RedoLog
  import opened MetaStores
  import StoreSteps
  import StoreWork
  import CrashRecovery
  import CrashPoints
  import RunsToEnd
  import ChainCrashes
  import opened ObjectPool
  import opened ObjectFree
  import opened LogDraft
  import opened StaleLog
  import opened PoolHistory

  /** A run of the update that gets to its end is an episode. */
  lemma RunPlays(l: Layout, csum: CrashRecovery.Checksum, r: Rest, e: Episode, last: seq<Entry>, stale: seq<Entry>)
    requires CanTry(l, r, e)
    requires var x := UpdateOf(l, csum, r, e, last, stale);
             CrashRecovery.Start(x) && CrashRecovery.IsRun(x, e.run)
    requires e.run[0].log == r.log
    requires e.run[0].phase == if e.Allocs? then CrashRecovery.Building(0, 0) else CrashRecovery.Wiping
    requires e.run[|e.run| - 1].phase.Done? || e.run[|e.run| - 1].phase.Recovered?
    ensures Plays(l, csum, r, e)
  {
    hide CanTry, UpdateOf, CrashRecovery.Start, CrashRecovery.Next, CrashRecovery.Records, CrashRecovery.Revives,
         CrashRecovery.Update;
    OpsAre(l, csum, r, e, last, stale);
  }

  lemma AllocFirstStore(l: Layout, m: Meta, p: Pos, slot: nat, name: seq<nat>, length: nat)
    requires l.Wf() && BuddyPositions.Wf(l.Order(), p) && Rd(m.words, l.rec + OFF_AVAILABLE) >= 1
    ensures var ss := AllStores(AllocOps(l, m, p, slot, name, length)); ss != [] && ss[0] == TreeMark(p)
  {
  }

  /** An allocation has no halt. */
  lemma AllocNeverHalts(l: Layout, csum: CrashRecovery.Checksum, r: Rest, e: Episode, last: seq<Entry>, stale: seq<Entry>)
    requires CanTry(l, r, e) && e.Allocs?
    ensures Halt !in AllStores(UpdateOf(l, csum, r, e, last, stale).ops)
  {
    hide CanAlloc, AllocOps, AllStores, CrashRecovery.Update, InsideArena;
    AllocIsUpdate(l, r.meta, r.chain, r.blocks, e.p, e.slot, e.name, e.length);
  }

  /** The same attempt with another run. */
  function WithRun(e: Episode, run: seq<CrashRecovery.Machine>): Episode {
    match e
    case Allocs(machine, p, slot, name, length, _) => Allocs(machine, p, slot, name, length, run)
    case Frees(machine, i, _) => Frees(machine, i, run)
  }

  /** What an episode tries does not depend on its run. */
  lemma SameTry(l: Layout, csum: CrashRecovery.Checksum, r: Rest, e: Episode, run: seq<CrashRecovery.Machine>,
                last: seq<Entry>, stale: seq<Entry>)
    requires CanTry(l, r, e)
    ensures CanTry(l, r, WithRun(e, run)) && WithRun(e, run).run == run && (WithRun(e, run).Allocs? <==> e.Allocs?)
    ensures UpdateOf(l, csum, r, WithRun(e, run), last, stale) == UpdateOf(l, csum, r, e, last, stale)
  {
    hide CanAlloc, PoolInv, InsideArena, AllocOps, FreeOps;
  }

  /** A run of the update that gets to its end is an episode. */
  lemma EpisodeOf(l: Layout, csum: CrashRecovery.Checksum, r: Rest, e: Episode, run: seq<CrashRecovery.Machine>,
                  last: seq<Entry>, stale: seq<Entry>)
    requires CanTry(l, r, e)
    requires var x := UpdateOf(l, csum, r, e, last, stale);
             CrashRecovery.Start(x) && CrashRecovery.IsRun(x, run)
    requires run[0].log == r.log
    requires run[0].phase == if e.Allocs? then CrashRecovery.Building(0, 0) else CrashRecovery.Wiping
    requires run[|run| - 1].phase.Done? || run[|run| - 1].phase.Recovered?
    ensures Plays(l, csum, r, WithRun(e, run)) && WithRun(e, run).run == run && |run| > 0
  {
    assert |run| > 0;
    hide CanTry, UpdateOf, CrashRecovery.Start, CrashRecovery.IsRun, WithRun, Plays;
    SameTry(l, csum, r, e, run, last, stale);
    RunPlays(l, csum, r, WithRun(e, run), last, stale);
  }

  lemma AllocCuttable(l: Layout, csum: CrashRecovery.Checksum, r: Rest, e: Episode, last: seq<Entry>)
    requires CanTry(l, r, e) && e.Allocs?
    requires Shape(l.Order(), r.meta.tree) && MarkWrites(l.Order(), r.meta.tree, e.p) >= 2
    ensures var x := UpdateOf(l, csum, r, e, last, last);
            && x.o == l.Order() && x.pre == r.meta && x.last == x.stale == last && x.csum == csum && AllStores(x.ops) != []
            && ChainCrashes.Cuttable(x.o, x.pre.tree, AllStores(x.ops)[0])
  {
    hide CanAlloc, AllocOps, AllStores, InsideArena, MarkWrites;
    AllocFirstStore(l, r.meta, e.p, e.slot, e.name, e.length);
    IndexBound(l.Order(), e.p);
  }

  lemma TryLayout(l: Layout, r: Rest, e: Episode)
    requires CanTry(l, r, e)
    ensures l.Wf() && (e.Allocs? ==> BuddyPositions.Wf(l.Order(), e.p))
  {
    hide CanAlloc, PoolInv, InsideArena;
  }

  /**
   On a pool with one commit record, every allocation whose mark writes two ancestors or more can be
   cut so that recovery reports success and the state is no pool any more.
   */
  lemma SpoiltAllocation(l: Layout, csum: CrashRecovery.Checksum, r: Rest, e0: Episode, last: seq<Entry>)
    returns (e: Episode)
    requires Sound(l, csum, r, last, last) && CanTry(l, r, e0) && e0.Allocs?
    requires Shape(l.Order(), r.meta.tree) && MarkWrites(l.Order(), r.meta.tree, e0.p) >= 2
    ensures e == WithRun(e0, e.run) && Plays(l, csum, r, e) && e.run[|e.run| - 1].phase == CrashRecovery.Recovered(false)
    ensures CutInside(l, e) && !IsPool(l, After(l, csum, r, e).meta)
  {
    hide Sound, CanTry, Plays, After, CrashRecovery.Start, CrashRecovery.Records, CrashRecovery.Revives, AllStores,
         CrashRecovery.IsRun, CrashRecovery.Spoilt, CrashRecovery.Took, CrashRecovery.Post, UpdateOf, Differs, DirStep,
         IsPool, WithRun, MarkWrites, ChainCrashes.Cuttable;
    TryLayout(l, r, e0);
    AllocCuttable(l, csum, r, e0, last);
    AllocNeverHalts(l, csum, r, e0, last, last);
    TryStarts(l, csum, r, e0, last, last);
    var run := ChainCrashes.SpoiltRun(UpdateOf(l, csum, r, e0, last, last), r.log, false);
    EpisodeOf(l, csum, r, e0, run, last, last);
    e := WithRun(e0, run);
    var last', stale' := EpisodeKeepsSound(l, csum, r, e, last, last);
  }

  // An allocation without a record of its own ------------------------------------------------------------

  /** The record of the last update is the one at |ops|, and no other can check unless it is a stale one of four. */
  lemma LastIs(l: Layout, csum: CrashRecovery.Checksum, r: Rest, last: seq<Entry>, stale: seq<Entry>,
               x: CrashRecovery.Context)
    requires Sound(l, csum, r, last, stale) && CrashRecovery.Start(x) && x.csum == csum
    requires |x.ops| < REDOLOG_ENTRIES && CrashRecovery.LogCommitted(csum, r.log, x.ops)
    ensures last == r.log[..|x.ops|] && CrashRecovery.Ops(last) == x.ops
    ensures r.log[|x.ops|].tp == COMMIT && CrashRecovery.Names(csum, r.log[|x.ops|], |x.ops|, last)
    ensures |x.ops| == 4 ==> stale == last && AllocLog(l, last)
  {
    hide PoolInv, CrashRecovery.Start, CrashRecovery.Settled, CrashRecovery.Records, AllocLog, Dormant, Clean,
         CrashRecovery.FirstCommit, CrashRecovery.Written;
    CrashRecovery.ScanCommitted(x, r.log);
  }

  /** An update with one record that took effect has its own record in the log. */
  lemma TakenCommits(x: CrashRecovery.Context, run: seq<CrashRecovery.Machine>)
    requires CrashRecovery.Start(x) && CrashRecovery.IsRun(x, run) && x.stale == x.last && CrashRecovery.Took(x, run)
    ensures |run| > 0 && |x.ops| < REDOLOG_ENTRIES && CrashRecovery.LogCommitted(x.csum, run[|run| - 1].log, x.ops)
  {
    assert |run| > 0;
    hide CrashRecovery.Start, CrashRecovery.IsRun, CrashRecovery.Took, CrashRecovery.Trusted, CrashRecovery.InvAt,
         CrashRecovery.LogCommitted, CrashRecovery.Spoilt;
    CrashRecovery.TookIsCommit(x, run);
    CrashRecovery.RunInvariant(x, run);
    CrashRecovery.LogOfTaken(x, run[|run| - 1], CrashRecovery.Spoilt(x.o, run));
  }

  /** A run of an update without crashes, to its end. */
  lemma RunsThrough(x: CrashRecovery.Context, log: Log, wipes: bool) returns (run: seq<CrashRecovery.Machine>)
    requires CrashRecovery.Start(x) && CrashRecovery.Records(x.csum, log, x.last, x.stale) && !CrashRecovery.Revives(x, log)
    requires Halt !in AllStores(x.ops)
    ensures |run| > 0 && CrashRecovery.IsRun(x, run) && run[0].log == log
    ensures run[0].phase == if wipes then CrashRecovery.Wiping else CrashRecovery.Building(0, 0)
    ensures run[|run| - 1].phase.Done? && CrashRecovery.Took(x, run) && !CrashRecovery.Spoilt(x.o, run)
  {
    hide CrashRecovery.Start, CrashRecovery.IsRun, CrashRecovery.Records, CrashRecovery.Revives, AllStores,
         CrashRecovery.Took, CrashRecovery.Spoilt, RunsToEnd.Extends, RunsToEnd.GoesOn, CrashRecovery.Post,
         CrashPoints.Stored;
    CrashRecovery.StartFacts(x);
    CrashRecovery.PostSettled(x);
    var a := RunsToEnd.Commits(x, log, wipes);
    run := RunsToEnd.WorkFinishes(x, false, a, a[|a| - 1], StoreWork.Work(AllStores(x.ops), StoreSteps.Ground));
    RunsToEnd.ExtendsFacts(x, a, run);
  }

  /** A run of an update that is cut right after its checksum and recovered. Behind its record the log stays. */
  lemma CutAtChecksum(x: CrashRecovery.Context, log: Log, wipes: bool) returns (run: seq<CrashRecovery.Machine>)
    requires CrashRecovery.Start(x) && CrashRecovery.Records(x.csum, log, x.last, x.stale) && !CrashRecovery.Revives(x, log)
    requires Halt !in AllStores(x.ops) && x.stale == x.last
    ensures |x.ops| < REDOLOG_ENTRIES && |run| > 0 && CrashRecovery.IsRun(x, run) && run[0].log == log
    ensures run[0].phase == if wipes then CrashRecovery.Wiping else CrashRecovery.Building(0, 0)
    ensures run[|run| - 1].phase.Recovered? && CrashRecovery.Took(x, run) && !CrashRecovery.Spoilt(x.o, run)
    ensures forall c :: |x.ops| < c < REDOLOG_ENTRIES ==> run[|run| - 1].log[c] == log[c]
  {
    hide CrashRecovery.Start, CrashRecovery.IsRun, CrashRecovery.Records, CrashRecovery.Revives, AllStores,
         CrashRecovery.Took, CrashRecovery.Spoilt, RunsToEnd.Extends, RunsToEnd.GoesOn, CrashRecovery.Post,
         CrashRecovery.LogCommitted, CrashRecovery.AtCommitPoint;
    CrashRecovery.StartFacts(x);
    CrashRecovery.PostSettled(x);
    var a := CrashPoints.ReachChecksum(x, log, wipes);
    var m := a[|a| - 1];
    var down := m.(phase := CrashRecovery.Down);
    CommitIsGround(x, m);
    RunsToEnd.GroundCrashOn(x, a, down);
    var b := a + [down];
    RunsToEnd.ExtendsFacts(x, a, b);
    assert CrashPoints.Stored(x, b) by { assert b[|a| - 1] == m; }
    CrashPoints.StoredTook(x, b);
    TakenCommits(x, b);
    var c := RunsToEnd.Rescans(x, b, down);
    RunsToEnd.ExtendsFacts(x, b, c);
    run := RunsToEnd.WorkFinishes(x, true, c, c[|c| - 1], StoreWork.Work(AllStores(x.ops), StoreSteps.Ground));
    RunsToEnd.ExtendsFacts(x, c, run);
    LogKept(x, b, c, run);
  }

  lemma CommitIsGround(x: CrashRecovery.Context, m: CrashRecovery.Machine)
    requires CrashRecovery.AtCommitPoint(x, m)
    ensures CrashRecovery.ClimbOf(m.phase).Ground?
  {
  }

  /** After a crash the log stays as it is. */
  lemma LogKept(x: CrashRecovery.Context, a: seq<CrashRecovery.Machine>, b: seq<CrashRecovery.Machine>,
                run: seq<CrashRecovery.Machine>)
    requires CrashRecovery.Start(x) && CrashRecovery.IsRun(x, a) && a[|a| - 1].phase.Down?
    requires RunsToEnd.Extends(x, a, b) && RunsToEnd.Extends(x, b, run)
    ensures |run| > 0 && run[|run| - 1].log == a[|a| - 1].log
  {
    assert |a| > 0;
    hide CrashRecovery.Start, CrashRecovery.IsRun;
    assert run[..|a|] == run[..|b|][..|a|];
    assert run[|a| - 1] == run[..|a|][|a| - 1];
    CrashPoints.OutToEnd(x, run, |a| - 1, |run| - 1);
  }

  /** The entries of an allocation depend on the pool's list and slots only. */
  lemma SameOps(l: Layout, m: Meta, m': Meta, chain: seq<nat>, blocks: seq<Pos>, p: Pos, slot: nat, name: seq<nat>,
                length: nat)
    requires CanAlloc(l, m, chain, blocks, p, slot, name, length) && chain == [] && PoolInv(l, m', chain, blocks)
    ensures CanAlloc(l, m', chain, blocks, p, slot, name, length)
    ensures Rd(m.words, l.rec + OFF_AVAILABLE) == Rd(m'.words, l.rec + OFF_AVAILABLE) >= 1
    ensures AllocOps(l, m', p, slot, name, length) == AllocOps(l, m, p, slot, name, length)
  {
    hide TreeOk, NamesDiffer, HeaderOk, Address, CString, FitsDepth, Free;
  }

  /** An episode that took effect and was not cut past repair leaves a pool with the update's own record. */
  lemma TakenEpisode(l: Layout, csum: CrashRecovery.Checksum, r: Rest, e: Episode, last: seq<Entry>)
    returns (last': seq<Entry>, stale': seq<Entry>)
    requires Sound(l, csum, r, last, last) && Plays(l, csum, r, e) && l.Wf() && !CutInside(l, e) && CanTry(l, r, e)
    requires CrashRecovery.Took(UpdateOf(l, csum, r, e, last, last), e.run)
    ensures var ops, r' := UpdateOf(l, csum, r, e, last, last).ops, After(l, csum, r, e);
            && Sound(l, csum, r', last', stale') && r'.meta != r.meta && r'.log == e.run[|e.run| - 1].log
            && |ops| == (if e.Allocs? then 4 else 3) && |last'| == |ops| && CrashRecovery.Ops(last') == ops
            && r'.log[|ops|].tp == COMMIT && CrashRecovery.Names(csum, r'.log[|ops|], |ops|, last')
            && (e.Allocs? ==> stale' == last' && AllocLog(l, last'))
  {
    hide Sound, CanTry, Plays, After, CrashRecovery.Start, CrashRecovery.Records, CrashRecovery.IsRun,
         CrashRecovery.Took, UpdateOf, DirStep, IsPool, CutInside, Held, CrashRecovery.Trusted, CrashRecovery.LogCommitted,
         CrashRecovery.Update, AllocLog, CrashRecovery.Names;
    EpisodeEnds(l, csum, r, e);
    LeavesPool(l, csum, r, e, last, last);
    last', stale' := EpisodeKeepsSound(l, csum, r, e, last, last);
    OpsAre(l, csum, r, e, last, last);
    EpisodeStarts(l, csum, r, e, last, last);
    var x := UpdateOf(l, csum, r, e, last, last);
    TakenCommits(x, e.run);
    LastIs(l, csum, After(l, csum, r, e), last', stale', x);
  }

  /** The allocation, without a crash. */
  lemma FirstAllocation(l: Layout, csum: CrashRecovery.Checksum, r: Rest, e0: Episode, last: seq<Entry>)
    returns (e: Episode, last': seq<Entry>)
    requires Sound(l, csum, r, last, last) && CanTry(l, r, e0) && e0.Allocs?
    ensures e == WithRun(e0, e.run) && Plays(l, csum, r, e)
    ensures var ops, r' := UpdateOf(l, csum, r, e0, last, last).ops, After(l, csum, r, e);
            && Sound(l, csum, r', last', last') && r'.chain == r.chain + [e0.slot] && r'.blocks == r.blocks + [e0.p]
            && |last'| == 4 && AllocLog(l, last') && CrashRecovery.Ops(last') == ops
            && r'.log[4].tp == COMMIT && CrashRecovery.Names(csum, r'.log[4], 4, last')
  {
    hide Sound, CanTry, Plays, CrashRecovery.Start, CrashRecovery.Records, CrashRecovery.Revives, AllStores, AllocLog,
         CrashRecovery.IsRun, CrashRecovery.Spoilt, CrashRecovery.Took, UpdateOf, WithRun, CrashRecovery.Names,
         CrashRecovery.Update;
    TryLayout(l, r, e0);
    AllocNeverHalts(l, csum, r, e0, last, last);
    TryStarts(l, csum, r, e0, last, last);
    OpsAre(l, csum, r, e0, last, last);
    var run := RunsThrough(UpdateOf(l, csum, r, e0, last, last), r.log, false);
    EpisodeOf(l, csum, r, e0, run, last, last);
    SameTry(l, csum, r, e0, run, last, last);
    e := WithRun(e0, run);
    WithRunIs(e0, run);
    var stale';
    last', stale' := TakenEpisode(l, csum, r, e, last);
  }

  lemma WithRunIs(e: Episode, run: seq<CrashRecovery.Machine>)
    ensures var e' := WithRun(e, run);
            && (e.Allocs? ==> e'.Allocs? && e'.slot == e.slot && e'.p == e.p && e'.name == e.name)
            && (e.Frees? ==> e'.Frees? && e'.i == e.i)
            && e'.run == run && e'.machine == e.machine
  {
  }

  /** The free of the only header, cut right after its checksum: the record of the allocation stays behind its own. */
  lemma CutFree(l: Layout, csum: CrashRecovery.Checksum, r: Rest, e0: Episode, last: seq<Entry>)
    returns (e: Episode, last': seq<Entry>)
    requires Sound(l, csum, r, last, last) && CanTry(l, r, e0) && e0.Frees? && |r.chain| == |r.blocks| == 1 && e0.i == 0
    requires |last| == 4 && r.log[4].tp == COMMIT && CrashRecovery.Names(csum, r.log[4], 4, last)
    ensures e == WithRun(e0, e.run) && Plays(l, csum, r, e)
    ensures var r' := After(l, csum, r, e);
            && Sound(l, csum, r', last', last) && r'.chain == [] && r'.blocks == [] && |last'| == 3
            && r'.log[4].tp == COMMIT && CrashRecovery.Names(csum, r'.log[4], 4, last)
  {
    hide Sound, CanTry, Plays, CrashRecovery.Start, CrashRecovery.Records, CrashRecovery.Revives, AllStores,
         CrashRecovery.IsRun, CrashRecovery.Spoilt, CrashRecovery.Took, UpdateOf, WithRun, CrashRecovery.Update;
    TryLayout(l, r, e0);
    OnlyNeverHalts(l, csum, r, e0, last, last);
    TryStarts(l, csum, r, e0, last, last);
    OpsAre(l, csum, r, e0, last, last);
    var run := CutAtChecksum(UpdateOf(l, csum, r, e0, last, last), r.log, true);
    EpisodeOf(l, csum, r, e0, run, last, last);
    SameTry(l, csum, r, e0, run, last, last);
    e := WithRun(e0, run);
    WithRunIs(e0, run);
    var stale';
    last', stale' := TakenEpisode(l, csum, r, e, last);
    StaleIs(l, csum, After(l, csum, r, e), last', stale', last);
  }

  lemma OnlyNeverHalts(l: Layout, csum: CrashRecovery.Checksum, r: Rest, e: Episode, last: seq<Entry>, stale: seq<Entry>)
    requires CanTry(l, r, e) && e.Frees? && |r.chain| == 1 && e.i == 0
    ensures Halt !in AllStores(UpdateOf(l, csum, r, e, last, stale).ops)
  {
    hide PoolInv, AllStores, FreeOps, CrashRecovery.Update;
    SlotFacts(l, r.meta, r.chain, r.blocks, 0);
    FreeIsUpdate(l, r.meta, r.chain, r.blocks[0], 0);
  }

  /** A record of four entries behind one of three is the stale one. */
  lemma StaleIs(l: Layout, csum: CrashRecovery.Checksum, r: Rest, last: seq<Entry>, stale: seq<Entry>, es: seq<Entry>)
    requires Sound(l, csum, r, last, stale) && |last| == 3
    requires r.log[4].tp == COMMIT && CrashRecovery.Names(csum, r.log[4], 4, es)
    ensures stale == es
  {
    hide PoolInv, CrashRecovery.Settled, Dormant, Clean, AllocLog, Quiet;
  }

  /** The same allocation again, cut before it erases the stale record: recovery completes it. */
  lemma SecondAllocation(l: Layout, csum: CrashRecovery.Checksum, r: Rest, e0: Episode, last: seq<Entry>, stale: seq<Entry>)
    returns (e: Episode)
    requires Sound(l, csum, r, last, stale) && CanTry(l, r, e0) && e0.Allocs? && |last| == 3
    requires AllocLog(l, stale) && CrashRecovery.Ops(stale) == UpdateOf(l, csum, r, e0, last, stale).ops
    requires r.log[4].tp == COMMIT && CrashRecovery.Names(csum, r.log[4], 4, stale)
    ensures e == WithRun(e0, e.run) && Plays(l, csum, r, e) && e.run[|e.run| - 1].phase == CrashRecovery.Recovered(false)
    ensures !CrashPoints.Stored(UpdateOf(l, csum, r, e0, last, stale), e.run)
    ensures DirStep(l, r, e, After(l, csum, r, e))
  {
    hide Sound, CanTry, Plays, After, CrashRecovery.Start, CrashRecovery.Records, CrashRecovery.Revives, AllStores,
         CrashRecovery.IsRun, CrashRecovery.Spoilt, CrashRecovery.Took, UpdateOf, WithRun, CrashPoints.Stored, AllocLog,
         CrashRecovery.Post, DirStep, RunsToEnd.Extends, RunsToEnd.GoesOn, CrashRecovery.Update, IsPool, CutInside, Held,
         CrashRecovery.Names, AreCanon, Clean;
    TryLayout(l, r, e0);
    AllocNeverHalts(l, csum, r, e0, last, stale);
    TryStarts(l, csum, r, e0, last, stale);
    OpsAre(l, csum, r, e0, last, stale);
    SoundClean(l, csum, r, last, stale);
    AllocLogHead(l, stale);
    var x := UpdateOf(l, csum, r, e0, last, stale);
    CrashRecovery.StartFacts(x);
    CrashRecovery.PostSettled(x);
    var a := StaleRecordRevives(x, r.log);
    CrashRecovery.RunIsSome(x, a);
    var run := RunsToEnd.WorkFinishes(x, true, a, a[|a| - 1], StoreWork.Work(AllStores(x.ops), StoreSteps.Ground));
    RunsToEnd.ExtendsFacts(x, a, run);
    StillNotStored(x, a, run);
    EpisodeOf(l, csum, r, e0, run, last, stale);
    SameTry(l, csum, r, e0, run, last, stale);
    e := WithRun(e0, run);
    LeavesPool(l, csum, r, e, last, stale);
  }

  lemma SoundClean(l: Layout, csum: CrashRecovery.Checksum, r: Rest, last: seq<Entry>, stale: seq<Entry>)
    requires Sound(l, csum, r, last, stale)
    ensures Clean(r.log[0])
  {
    hide PoolInv, CrashRecovery.Settled, Dormant, Clean, AllocLog, Quiet;
  }

  lemma AllocLogHead(l: Layout, es: seq<Entry>)
    requires AllocLog(l, es)
    ensures |es| == 4 && AreCanon(es, CrashRecovery.Ops(es)) && CrashRecovery.Ops(es)[0].BuddyAlloc?
  {
    hide AreCanon, HeaderShape;
  }

  /** A recovery stores no checksum. */
  lemma StillNotStored(x: CrashRecovery.Context, a: seq<CrashRecovery.Machine>, run: seq<CrashRecovery.Machine>)
    requires CrashRecovery.Start(x) && CrashRecovery.IsRun(x, a) && a[|a| - 1].phase.Recovering?
    requires RunsToEnd.Extends(x, a, run) && !CrashPoints.Stored(x, a)
    ensures !CrashPoints.Stored(x, run)
  {
    assert |a| > 0;
    hide CrashRecovery.Start, CrashRecovery.IsRun;
    assert forall k :: 0 <= k < |a| ==> run[..|a|][k] == run[k];
    forall k | 0 <= k < |run| ensures !CrashRecovery.AtCommitPoint(x, run[k]) {
      if k < |a| {
        assert run[k] == a[k];
      } else {
        CrashPoints.OutToEnd(x, run, |a| - 1, k);
      }
    }
  }

  /** A pool without headers has no blocks. */
  lemma EmptyBlocks(l: Layout, csum: CrashRecovery.Checksum, r: Rest, last: seq<Entry>, stale: seq<Entry>)
    requires Sound(l, csum, r, last, stale)
    ensures |r.blocks| == |r.chain| && PoolInv(l, r.meta, r.chain, r.blocks)
  {
    hide LogSound, CrashRecovery.Settled, Linked, SlotsOk, TreeOk, HeaderOk, NamesDiffer;
  }

  lemma TryFree(l: Layout, csum: CrashRecovery.Checksum, r: Rest, last: seq<Entry>)
    requires Sound(l, csum, r, last, last) && |r.chain| == 1
    ensures CanTry(l, r, Frees(l.machine, 0, []))
  {
    hide Sound, PoolInv;
    EmptyBlocks(l, csum, r, last, last);
    SoundLayout(l, csum, r, last, last);
  }

  /** On an empty pool again, the same allocation logs the same entries. */
  lemma TryAgain(l: Layout, csum: CrashRecovery.Checksum, r: Rest, r': Rest, e: Episode, last: seq<Entry>,
                 last': seq<Entry>, stale': seq<Entry>)
    requires CanTry(l, r, e) && e.Allocs? && r.chain == r'.chain == [] && r.blocks == r'.blocks
    requires Sound(l, csum, r', last', stale')
    ensures CanTry(l, r', e)
    ensures UpdateOf(l, csum, r', e, last', stale').ops == UpdateOf(l, csum, r, e, last, last).ops
  {
    hide Sound, PoolInv, CanAlloc, AllocOps, InsideArena;
    EmptyBlocks(l, csum, r', last', stale');
    SameOps(l, r.meta, r'.meta, r.chain, r.blocks, e.p, e.slot, e.name, e.length);
  }

  lemma PlaysThree(l: Layout, csum: CrashRecovery.Checksum, r: Rest, e1: Episode, e2: Episode, e3: Episode)
    requires e1.machine == e2.machine == e3.machine == l.machine && Plays(l, csum, r, e1)
    requires var r1 := After(l, csum, r, e1);
             Plays(l, csum, r1, e2) && Plays(l, csum, After(l, csum, r1, e2), e3)
    ensures PlaysAll(l, csum, r, [e1, e2, e3])
    ensures AfterAll(l, csum, r, [e1, e2, e3]) == After(l, csum, After(l, csum, After(l, csum, r, e1), e2), e3)
  {
    hide Plays, After;
    var r1 := After(l, csum, r, e1);
    var r2 := After(l, csum, r1, e2);
    var r3 := After(l, csum, r2, e3);
    assert [e1, e2, e3][1..] == [e2, e3] && [e2, e3][1..] == [e3] && [e3][1..] == [];
    assert PlaysAll(l, csum, r3, []) && AfterAll(l, csum, r3, []) == r3;
    assert PlaysAll(l, csum, r2, [e3]) && AfterAll(l, csum, r2, [e3]) == r3;
    assert PlaysAll(l, csum, r1, [e2, e3]) && AfterAll(l, csum, r1, [e2, e3]) == r3;
  }

  lemma NameIsThere(l: Layout, r: Rest, e: Episode, r': Rest)
    requires CanTry(l, r, e) && e.Allocs? && DirStep(l, r, e, r')
    ensures e.name in Dir(l, r'.meta.words, r'.chain)
  {
    hide CanAlloc, InsideArena, Dir, Address;
  }

  /**
   An allocation can take effect without a commit record of its own, on every pool without objects and
   for every object: allocate it, free it with a crash right after the checksum, and allocate it again
   with a crash before the erasure of the record left from the first time. Recovery then completes the
   second allocation.
   */
  lemma AllocatesWithoutRecord(l: Layout, csum: CrashRecovery.Checksum, r: Rest, e0: Episode, last: seq<Entry>)
    returns (e1: Episode, e2: Episode, e3: Episode)
    requires Sound(l, csum, r, last, last) && r.chain == [] && CanTry(l, r, e0) && e0.Allocs? && e0.machine == l.machine
    ensures PlaysAll(l, csum, r, [e1, e2, e3]) && e2.Frees? && e1 == WithRun(e0, e1.run) && e3 == WithRun(e0, e3.run)
    ensures |e3.run| > 0 && e3.run[|e3.run| - 1].phase == CrashRecovery.Recovered(false)
    ensures forall k :: 0 <= k < |e3.run| ==> e3.run[k].phase != CrashRecovery.Building(4, 2)
    ensures var end := AfterAll(l, csum, r, [e1, e2, e3]); e0.name in Dir(l, end.meta.words, end.chain)
  {
    hide Sound, CanTry, UpdateOf, AllocLog, CrashRecovery.Names, Plays, After, PlaysAll, AfterAll, WithRun, DirStep,
         Dir,
         CrashRecovery.Update;
    EmptyBlocks(l, csum, r, last, last);
    var last1;
    e1, last1 := FirstAllocation(l, csum, r, e0, last);
    var r1 := After(l, csum, r, e1);
    var f := Frees(l.machine, 0, []);
    TryFree(l, csum, r1, last1);
    var last2;
    e2, last2 := CutFree(l, csum, r1, f, last1);
    var r2 := After(l, csum, r1, e2);
    TryAgain(l, csum, r, r2, e0, last, last2, last1);
    OpsAre(l, csum, r2, e0, last2, last1);
    e3 := SecondAllocation(l, csum, r2, e0, last2, last1);
    WithRunIs(e0, e1.run);
    WithRunIs(f, e2.run);
    WithRunIs(e0, e3.run);
    PlaysThree(l, csum, r, e1, e2, e3);
    EpisodeEnds(l, csum, r2, e3);
    NameIsThere(l, r2, e3, After(l, csum, r2, e3));
  }
}
