/**
 Any number of allocations and frees, each cut by crashes and recovered from any number of times.
 */
module PoolHistory {
  import opened Sequences
  import opened BuddyPositions
  import opened BuddyStatus
  import opened BuddyArena
  import opened BuddyVirtual
  import opened RedoLog
  import opened MetaStores
  import CrashRecovery
  import CrashPoints
  import opened ObjectPool
  import opened ListRemoval
  import opened ObjectFree
  import opened LogDraft
  import opened StaleLog

  /** The pool between two updates: its log, its protected state, its headers and their blocks. */
  datatype Rest = Rest(log: Log, meta: Meta, chain: seq<nat>, blocks: seq<Pos>)

  /** One attempted allocation or free by a machine, with everything that happened until it was done or recovered. */
  datatype Episode =
    | Allocs(machine: nat, p: Pos, slot: nat, name: seq<nat>, length: nat, run: seq<CrashRecovery.Machine>)
    | Frees(machine: nat, i: nat, run: seq<CrashRecovery.Machine>)

  // What holds between two updates ----------------------------------------------------------------------------

  /** The stale record is there, and its entries are not. */
  ghost predicate Waiting(l: Layout, csum: CrashRecovery.Checksum, log: Log, words: map<nat, nat>, last: seq<Entry>,
                          stale: seq<Entry>) {
    && |last| == 3 && log[4].tp == COMMIT && CrashRecovery.Names(csum, log[4], 4, stale)
    && Dormant(l, words, log, stale)
  }

  ghost predicate LogSound(l: Layout, csum: CrashRecovery.Checksum, log: Log, words: map<nat, nat>, last: seq<Entry>,
                           stale: seq<Entry>) {
    && |last| <= 4 && Clean(log[0]) && (|last| == 4 ==> AllocLog(l, last))
    && CrashRecovery.Records(csum, log, last, stale) && Quiet(csum, log, last)
    && (stale != last ==> Waiting(l, csum, log, words, last, stale))
  }

  /** A pool, a log in which at most two records can check, and nothing that a recovery would change. */
  ghost predicate Sound(l: Layout, csum: CrashRecovery.Checksum, r: Rest, last: seq<Entry>, stale: seq<Entry>) {
    && CrashRecovery.Ideal(csum) && PoolInv(l, r.meta, r.chain, r.blocks) && PoolShape(l, r.meta)
    && LogSound(l, csum, r.log, r.meta.words, last, stale) && CrashRecovery.Settled(l.Order(), last, r.meta)
  }

  ghost predicate PoolShape(l: Layout, m: Meta) {
    l.Wf() && Shape(l.Order(), m.tree)
  }

  // One update ------------------------------------------------------------------------------------------------

  ghost predicate CanTry(l: Layout, r: Rest, e: Episode) {
    match e
    case Allocs(_, p, slot, name, length, _) =>
      && l.Wf() && BuddyPositions.Wf(l.Order(), p) && Rd(r.meta.words, l.rec + OFF_AVAILABLE) >= 1
      && CanAlloc(l, r.meta, r.chain, r.blocks, p, slot, name, length) && InsideArena(l.arena, p) && l.machine >= 1
    case Frees(_, i, _) =>
      && l.Wf() && |r.blocks| == |r.chain| && i < |r.chain| && Removable(r.chain, i)
      && PoolInv(l, r.meta, r.chain, r.blocks)
  }

  ghost function UpdateOf(l: Layout, csum: CrashRecovery.Checksum, r: Rest, e: Episode, last: seq<Entry>,
                          stale: seq<Entry>): CrashRecovery.Context
    requires CanTry(l, r, e)
  {
    match e
    case Allocs(_, p, slot, name, length, _) => AllocContext(l, csum, last, stale, r.meta, p, slot, name, length)
    case Frees(_, i, _) => FreeContext(l, csum, last, stale, r.meta, r.blocks[i], r.chain[i])
  }

  /** A run of the machine from `r` that ends done or recovered. */
  ghost predicate Plays(l: Layout, csum: CrashRecovery.Checksum, r: Rest, e: Episode) {
    && CanTry(l, r, e) && |e.run| > 0
    && e.run[0].log == r.log && e.run[0].meta == r.meta
    && e.run[0].phase == (if e.Allocs? then CrashRecovery.Building(0, 0) else CrashRecovery.Wiping)
    && (var ops := UpdateOf(l, csum, r, e, [], []).ops;
        forall k :: 0 <= k < |e.run| - 1 ==> CrashRecovery.Next(l.Order(), csum, ops, e.run[k], e.run[k + 1]))
    && (e.run[|e.run| - 1].phase.Done? || e.run[|e.run| - 1].phase.Recovered?)
  }

  /** The pool an episode leaves: changed or not. */
  ghost function After(l: Layout, csum: CrashRecovery.Checksum, r: Rest, e: Episode): Rest
    requires Plays(l, csum, r, e)
  {
    var end := e.run[|e.run| - 1];
    if end.meta == r.meta then r.(log := end.log)
    else
      match e
      case Allocs(_, p, slot, name, length, _) => Rest(end.log, end.meta, r.chain + [slot], r.blocks + [p])
      case Frees(_, i, _) => Rest(end.log, end.meta, Without(r.chain, i), Without(r.blocks, i))
  }

  /** The pool as the machine of the episode sees it. */
  function By(l: Layout, e: Episode): Layout {
    l.(machine := e.machine)
  }

  ghost predicate PlaysAll(l: Layout, csum: CrashRecovery.Checksum, r: Rest, es: seq<Episode>)
    decreases |es|
  {
    || es == []
    || (Plays(By(l, es[0]), csum, r, es[0]) && PlaysAll(l, csum, After(By(l, es[0]), csum, r, es[0]), es[1..]))
  }

  ghost function AfterAll(l: Layout, csum: CrashRecovery.Checksum, r: Rest, es: seq<Episode>): Rest
    requires PlaysAll(l, csum, r, es)
    decreases |es|
  {
    if es == [] then r else AfterAll(l, csum, After(By(l, es[0]), csum, r, es[0]), es[1..])
  }

  /** The episode is a run of an update in the sense of `CrashRecovery`. */
  ghost predicate IsUpdateRun(l: Layout, csum: CrashRecovery.Checksum, r: Rest, e: Episode, last: seq<Entry>,
                              stale: seq<Entry>) {
    && CanTry(l, r, e)
    && var x := UpdateOf(l, csum, r, e, last, stale);
       && CrashRecovery.Start(x) && CrashRecovery.IsRun(x, e.run)
       && |x.ops| == if e.Allocs? then 4 else 3
  }

  lemma OpsAre(l: Layout, csum: CrashRecovery.Checksum, r: Rest, e: Episode, last: seq<Entry>, stale: seq<Entry>)
    requires CanTry(l, r, e)
    ensures var x, y := UpdateOf(l, csum, r, e, last, stale), UpdateOf(l, csum, r, e, [], []);
            && x.o == l.Order() && x.csum == csum && x.ops == y.ops && x.pre == r.meta && x.last == last && x.stale == stale
            && |x.ops| == (if e.Allocs? then 4 else 3) && CrashRecovery.Update(x.o, x.ops)
  {
    hide AllStores, Kept, Independent, AllPlaced, CrashRecovery.Loggable;
    match e {
      case Allocs(_, p, slot, name, length, _) =>
        hide CanAlloc;
        AllocIsUpdate(l, r.meta, r.chain, r.blocks, p, slot, name, length);
      case Frees(_, i, _) =>
        hide PoolInv, FreeOps;
        SlotFacts(l, r.meta, r.chain, r.blocks, i);
        FreeIsUpdate(l, r.meta, r.chain, r.blocks[i], i);
    }
  }

  lemma SlotFacts(l: Layout, m: Meta, chain: seq<nat>, blocks: seq<Pos>, i: nat)
    requires PoolInv(l, m, chain, blocks) && i < |chain|
    ensures Linked(l, m.words, chain) && BuddyPositions.Wf(l.Order(), blocks[i]) && Shape(l.Order(), m.tree)
  {
    hide PoolInv, HeaderOk, Linked, SlotsOk, TreeOk, NamesDiffer;
    PoolParts(l, m, chain, blocks);
  }

  /** An update can start on a sound pool. */
  lemma TryStarts(l: Layout, csum: CrashRecovery.Checksum, r: Rest, e: Episode, last: seq<Entry>, stale: seq<Entry>)
    requires Sound(l, csum, r, last, stale) && CanTry(l, r, e)
    ensures var x := UpdateOf(l, csum, r, e, last, stale);
            && CrashRecovery.Start(x) && CrashRecovery.Records(csum, r.log, last, stale) && !CrashRecovery.Revives(x, r.log)
            && |x.ops| == if e.Allocs? then 4 else 3
  {
    hide PoolInv, CanTry, UpdateOf, CrashRecovery.Update, CrashRecovery.Settled, CrashRecovery.Records, Waiting,
         CrashRecovery.Scan, CrashRecovery.Ideal, Clean, AllocLog;
    OpsAre(l, csum, r, e, last, stale);
  }

  lemma EpisodeStarts(l: Layout, csum: CrashRecovery.Checksum, r: Rest, e: Episode, last: seq<Entry>, stale: seq<Entry>)
    requires Sound(l, csum, r, last, stale) && Plays(l, csum, r, e)
    ensures IsUpdateRun(l, csum, r, e, last, stale)
  {
    hide Sound, CanTry, UpdateOf, CrashRecovery.Update, CrashRecovery.Records, CrashRecovery.Next,
         CrashRecovery.Revives, CrashRecovery.Start;
    OpsAre(l, csum, r, e, last, stale);
    TryStarts(l, csum, r, e, last, stale);
  }

  // Trust -----------------------------------------------------------------------------------------------------

  lemma FirstIsNoCommit(csum: CrashRecovery.Checksum, log: Log, last: seq<Entry>, stale: seq<Entry>)
    requires CrashRecovery.Records(csum, log, last, stale)
    ensures log[0].tp != COMMIT
  {
  }

  /** The draft of an allocation in the terms of `StaleLog`. */
  lemma AllocDrafts(l: Layout, csum: CrashRecovery.Checksum, r: Rest, e: Episode, last: seq<Entry>, stale: seq<Entry>,
                    log: Log, i: nat, j: nat)
    requires CanTry(l, r, e) && e.Allocs? && Clean(r.log[0])
    requires Draft(r.log, r.log[0], UpdateOf(l, csum, r, e, last, stale).ops, log, i, j)
    ensures AllocDraft(l, r.meta.words, r.log, r.log[0], UpdateOf(l, csum, r, e, last, stale).ops, log, i, j)
  {
    hide CanAlloc, Draft, AllocShape, LinkNow, InsideArena;
    AllocOpsShape(l, r.meta, r.chain, r.blocks, e.p, e.slot, e.name, e.length);
  }

  lemma FreeHead(l: Layout, csum: CrashRecovery.Checksum, r: Rest, e: Episode, last: seq<Entry>, stale: seq<Entry>)
    requires CanTry(l, r, e) && e.Frees? && |UpdateOf(l, csum, r, e, last, stale).ops| == 3
    ensures var ops := UpdateOf(l, csum, r, e, last, stale).ops;
            ops[0].BuddyFree? && (ops[1].Val? || ops[1].TwoVal?) && ops[2].HdrFree?
  {
    hide PoolInv, Removable;
    RemoveHead(l, r.meta.words, l.Hdr(r.chain[e.i]));
    hide RemoveOps;
  }

  lemma RemoveHead(l: Layout, words: map<nat, nat>, h: nat)
    ensures var ops := RemoveOps(l, words, h); ops != [] && (ops[0].Val? || ops[0].TwoVal?)
  {
  }

  lemma PointIsTrusted(l: Layout, csum: CrashRecovery.Checksum, r: Rest, e: Episode, last: seq<Entry>,
                       stale: seq<Entry>, k: nat)
    requires Sound(l, csum, r, last, stale) && Plays(l, csum, r, e) && IsUpdateRun(l, csum, r, e, last, stale)
    requires k < |e.run| && stale != last && e.run[k].phase.Building?
    ensures CrashRecovery.Honest(UpdateOf(l, csum, r, e, last, stale), e.run[k].log)
  {
    var x := UpdateOf(l, csum, r, e, last, stale);
    OpsAre(l, csum, r, e, last, stale);
    FirstIsNoCommit(csum, r.log, last, stale);
    hide PoolInv, CanTry, UpdateOf, CrashRecovery.Start, CrashRecovery.IsRun, CrashRecovery.Settled,
         CrashRecovery.Records,
         CrashRecovery.Next, CrashRecovery.Honest, Draft, Dormant, AllocDraft;
    var first, i, j := RunDrafts(x, e.run, k);
    if e.Allocs? {
      AllocDrafts(l, csum, r, e, last, stale, e.run[k].log, i, j);
      AllocIsHonest(l, x, r.log, first, e.run[k].log, i, j);
    } else {
      FreeHead(l, csum, r, e, last, stale);
      DormantLog(l, r.meta.words, r.log, stale);
      FreeIsHonest(l, x, r.log, e.run[k].log, i, j);
    }
  }

  /** Nothing is revived while an episode builds its log, except its own update. */
  lemma EpisodeIsTrusted(l: Layout, csum: CrashRecovery.Checksum, r: Rest, e: Episode, last: seq<Entry>,
                         stale: seq<Entry>)
    requires Sound(l, csum, r, last, stale) && Plays(l, csum, r, e) && IsUpdateRun(l, csum, r, e, last, stale)
    ensures CrashRecovery.Trusted(UpdateOf(l, csum, r, e, last, stale), e.run)
  {
    hide Sound, Plays, UpdateOf, CrashRecovery.Honest, CrashRecovery.IsRun, CrashRecovery.Start, CanTry,
         CrashRecovery.Update;
    OpsAre(l, csum, r, e, last, stale);
    forall k | 0 <= k < |e.run| ensures CrashRecovery.TrustedAt(UpdateOf(l, csum, r, e, last, stale), e.run[k]) {
      if stale != last && e.run[k].phase.Building? {
        PointIsTrusted(l, csum, r, e, last, stale, k);
      }
    }
  }

  // The pool after one update -----------------------------------------------------------------------------------

  ghost predicate Held(l: Layout, r: Rest) {
    PoolInv(l, r.meta, r.chain, r.blocks) && PoolShape(l, r.meta)
  }

  lemma HeldShape(l: Layout, r: Rest)
    ensures Held(l, r) <==> PoolInv(l, r.meta, r.chain, r.blocks)
  {
    hide Linked, SlotsOk, HeaderOk, NamesDiffer;
  }

  /** What an episode may do to the directory: nothing, or what its update says. */
  ghost predicate DirStep(l: Layout, r: Rest, e: Episode, r': Rest)
    requires CanTry(l, r, e)
  {
    var before, after := Dir(l, r.meta.words, r.chain), Dir(l, r'.meta.words, r'.chain);
    match e
    case Allocs(_, p, _, name, length, _) => 
      after == before[name := Region(l.main + Address(l.arena, p), length, l.machine)]
    case Frees(_, i, _) => after == before - {NameAt(r.meta.words, l.Hdr(r.chain[i]))}
  }

  /** The episode was cut inside its buddy operation, past repair. */
  ghost predicate CutInside(l: Layout, e: Episode)
    requires l.Wf()
  {
    CrashRecovery.Spoilt(l.Order(), e.run)
  }

  /** What an episode leaves, if its update has the context x. */
  ghost predicate Leaves(l: Layout, csum: CrashRecovery.Checksum, r: Rest, e: Episode, x: CrashRecovery.Context)
    requires Plays(l, csum, r, e) && l.Wf()
  {
    var r' := After(l, csum, r, e);
    && (Held(l, r') <==> !CutInside(l, e)) && (IsPool(l, r'.meta) <==> !CutInside(l, e))
    && (r'.meta == r.meta <==> !CrashRecovery.Took(x, e.run)) && (r'.meta != r.meta ==> DirStep(l, r, e, r'))
  }

  /** Every slot in use has its bit set. */
  lemma SlotBits(l: Layout, r: Rest)
    requires PoolInv(l, r.meta, r.chain, r.blocks)
    ensures forall s :: s in r.chain ==> (l.rec, s) in r.meta.slots
  {
    hide Linked, TreeOk, HeaderOk, NamesDiffer;
  }

  /** Where an episode of which the update took effect ends, and where one of which it did not. */
  ghost predicate EndsAs(l: Layout, r: Rest, e: Episode, x: CrashRecovery.Context, chain: seq<nat>, blocks: seq<Pos>)
    requires l.Wf() && CanTry(l, r, e) && |e.run| > 0
  {
    var end := e.run[|e.run| - 1];
    if CrashRecovery.Took(x, e.run) then
      && (PoolInv(l, end.meta, chain, blocks) <==> !CutInside(l, e)) && (IsPool(l, end.meta) <==> !CutInside(l, e))
      && end.meta.slots != r.meta.slots && DirStep(l, r, e, Rest(end.log, end.meta, chain, blocks))
    else end.meta == r.meta && !CutInside(l, e)
  }

  lemma EndLeaves(l: Layout, csum: CrashRecovery.Checksum, r: Rest, e: Episode, x: CrashRecovery.Context, chain: seq<nat>,
                  blocks: seq<Pos>)
    requires l.Wf() && Plays(l, csum, r, e) && PoolInv(l, r.meta, r.chain, r.blocks)
    requires EndsAs(l, r, e, x, chain, blocks)
    requires var end := e.run[|e.run| - 1];
             After(l, csum, r, e) == if end.meta == r.meta then r.(log := end.log) else Rest(end.log, end.meta, chain, blocks)
    ensures Leaves(l, csum, r, e, x)
  {
    hide Plays, After, PoolInv, IsPool, Held, CrashRecovery.Took, CutInside, DirStep;
    PoolIsPool(l, r.meta, r.chain, r.blocks);
    HeldShape(l, After(l, csum, r, e));
  }

  lemma AllocEnds(l: Layout, csum: CrashRecovery.Checksum, r: Rest, e: Episode, last: seq<Entry>, stale: seq<Entry>)
    requires e.Allocs? && l.Wf() && CanTry(l, r, e) && IsUpdateRun(l, csum, r, e, last, stale)
    requires CrashRecovery.Trusted(UpdateOf(l, csum, r, e, last, stale), e.run)
    requires |e.run| > 0 && (e.run[|e.run| - 1].phase.Done? || e.run[|e.run| - 1].phase.Recovered?)
    requires PoolInv(l, r.meta, r.chain, r.blocks)
    ensures EndsAs(l, r, e, UpdateOf(l, csum, r, e, last, stale), r.chain + [e.slot], r.blocks + [e.p])
  {
    hide PoolInv, CrashRecovery.Took, CrashRecovery.Spoilt, CrashRecovery.Start, CrashRecovery.IsRun,
         CrashRecovery.Trusted, IsPool, CanAlloc, InsideArena, Dir, AllocOps, Address, Rd, Layout.Wf, BuddyPositions.Wf;
    AllocationIsAtomic(l, r.meta, r.chain, r.blocks, e.p, e.slot, e.name, e.length, csum, last, stale, e.run);
    NewSlot(l, r.meta, r.chain, r.blocks, e.p, e.slot, e.name, e.length);
  }

  lemma FreeEnds(l: Layout, csum: CrashRecovery.Checksum, r: Rest, e: Episode, last: seq<Entry>, stale: seq<Entry>)
    requires e.Frees? && l.Wf() && CanTry(l, r, e) && IsUpdateRun(l, csum, r, e, last, stale)
    requires CrashRecovery.Trusted(UpdateOf(l, csum, r, e, last, stale), e.run)
    requires |e.run| > 0 && (e.run[|e.run| - 1].phase.Done? || e.run[|e.run| - 1].phase.Recovered?)
    ensures EndsAs(l, r, e, UpdateOf(l, csum, r, e, last, stale), Without(r.chain, e.i), Without(r.blocks, e.i))
  {
    hide PoolInv, CrashRecovery.Took, CrashRecovery.Spoilt, CrashRecovery.Start, CrashRecovery.IsRun,
         CrashRecovery.Trusted, IsPool, Dir, FreeOps, NameAt;
    FreeingIsAtomic(l, r.meta, r.chain, r.blocks, e.i, csum, last, stale, e.run);
    SlotBits(l, r);
  }

  lemma NewSlot(l: Layout, m: Meta, chain: seq<nat>, blocks: seq<Pos>, p: Pos, slot: nat, name: seq<nat>, length: nat)
    requires CanAlloc(l, m, chain, blocks, p, slot, name, length)
    ensures (l.rec, slot) !in m.slots
  {
    hide Linked, TreeOk, HeaderOk, NamesDiffer, Free, LiveBlocks, FitsDepth, CString, NameAt;
  }

  // The log after one update --------------------------------------------------------------------------------------

  /** The log an update leaves: untouched, or a draft at some point. */
  ghost predicate Left(r: Rest, e: Episode, ops: seq<Op>, log: Log, i: nat, j: nat) {
    (e.Frees? && log == r.log) || Draft(r.log, if e.Frees? then EMPTY else r.log[0], ops, log, i, j)
  }

  lemma EpisodeLeaves(l: Layout, csum: CrashRecovery.Checksum, r: Rest, e: Episode, last: seq<Entry>, stale: seq<Entry>)
    returns (i: nat, j: nat)
    requires Plays(l, csum, r, e) && IsUpdateRun(l, csum, r, e, last, stale)
    ensures Left(r, e, UpdateOf(l, csum, r, e, last, stale).ops, e.run[|e.run| - 1].log, i, j)
  {
    hide CanTry, UpdateOf, CrashRecovery.Start, CrashRecovery.IsRun, CrashRecovery.Next, Draft;
    var first;
    first, i, j := RunDrafts(UpdateOf(l, csum, r, e, last, stale), e.run, |e.run| - 1);
  }

  lemma LeftIsClean(l: Layout, csum: CrashRecovery.Checksum, r: Rest, e: Episode, last: seq<Entry>,
                    stale: seq<Entry>, log: Log, i: nat, j: nat)
    requires IsUpdateRun(l, csum, r, e, last, stale) && Clean(r.log[0])
    requires Left(r, e, UpdateOf(l, csum, r, e, last, stale).ops, log, i, j)
    ensures Clean(log[0])
  {
    var ops := UpdateOf(l, csum, r, e, last, stale).ops;
    assert ops[0].BuddyAlloc? || ops[0].BuddyFree?;
    hide CanTry, UpdateOf, CrashRecovery.Start, CrashRecovery.IsRun, EntryDone, EntryDraft, Clean;
    if log != r.log {
      var first := if e.Frees? then EMPTY else r.log[0];
      EmptyIsClean();
      if i > 0 {
        assert WfOp(ops[0]) && EntryDone(log[0], Base(first, 0), ops[0]);
        CleanIsCanon(log[0], first, ops[0]);
      } else if j > 0 {
        DraftIsClean(log[0], first, ops[0], j);
      }
    }
  }

  lemma EmptyIsClean()
    ensures Clean(EMPTY)
  {
  }

  // An allocation that took effect

  /** The log of an allocation that took effect is that of finished entries, whoever stored its record. */
  lemma AllocLeavesLog(l: Layout, csum: CrashRecovery.Checksum, r: Rest, e: Episode, last: seq<Entry>,
                       stale: seq<Entry>, log: Log, i: nat, j: nat)
    requires e.Allocs? && Sound(l, csum, r, last, stale) && IsUpdateRun(l, csum, r, e, last, stale)
    requires Left(r, e, UpdateOf(l, csum, r, e, last, stale).ops, log, i, j)
    requires CrashRecovery.LogCommitted(csum, log, UpdateOf(l, csum, r, e, last, stale).ops)
    ensures AllocLog(l, log[..4])
  {
    var ops := UpdateOf(l, csum, r, e, last, stale).ops;
    hide PoolInv, UpdateOf, CrashRecovery.Start, CrashRecovery.IsRun, CrashRecovery.Settled, CrashRecovery.Records,
         CrashRecovery.LogCommitted,
         AllocShape, Draft, Dormant, Waiting, CanTry, AllocLog, Quiet;
    AllocDrafts(l, csum, r, e, last, stale, log, i, j);
    if i >= 4 {
      FinishedAllocLog(l, r.meta.words, r.log, r.log[0], ops, log, i, j);
    } else {
      OldRecordChecks(csum, r.log, r.log[0], ops, log, i, j, last, stale);
      if |last| != 4 {
        WaitingLog(l, csum, r.log, r.meta.words, last, stale);
      }
    }
  }

  lemma WaitingLog(l: Layout, csum: CrashRecovery.Checksum, log: Log, words: map<nat, nat>, last: seq<Entry>,
                   stale: seq<Entry>)
    requires Waiting(l, csum, log, words, last, stale)
    ensures AllocLog(l, stale) && |stale| == 4 && |last| == 3
  {
  }

  lemma FinishedAllocLog(l: Layout, words: map<nat, nat>, log0: Log, first: Entry, ops: seq<Op>, log: Log, i: nat,
                         j: nat)
    requires AllocDraft(l, words, log0, first, ops, log, i, j) && i >= 4
    ensures AllocLog(l, log[..4])
  {
    hide AllocShape, LinkNow, Canon, Clean;
    forall k | 0 <= k < 4 ensures WfOp(ops[k]) && log[..4][k] == Canon(ops[k]) && Decode(log[k]) == ops[k] {
      DoneEntry(l, words, log0, first, ops, log, i, j, k);
      CanonDecodes(ops[k]);
    }
    ShapeLength(l, ops);
    assert CrashRecovery.Ops(log[..4]) == ops;
  }

  lemma ShapeLength(l: Layout, ops: seq<Op>)
    requires l.Wf() && AllocShape(l, ops)
    ensures |ops| == 4
  {
  }

  /** A record that checks past the draft is an old one. */
  lemma OldRecordChecks(csum: CrashRecovery.Checksum, log0: Log, first: Entry, ops: seq<Op>, log: Log, i: nat, j: nat,
                        last: seq<Entry>, stale: seq<Entry>)
    requires CrashRecovery.Ideal(csum) && CrashRecovery.Records(csum, log0, last, stale)
    requires |ops| == 4 && Draft(log0, first, ops, log, i, j) && i < 4 && CrashRecovery.LogCommitted(csum, log, ops)
    ensures log[..4] == last || log[..4] == stale
  {
    hide CrashRecovery.Written;
    assert log[4] == log0[4];
  }

  // A stale record that stays

  /** A draft with the stale record behind it does not hold the stale entries, or recovery would replay them. */
  lemma StillDormant(l: Layout, csum: CrashRecovery.Checksum, words: map<nat, nat>, log0: Log, first: Entry,
                     ops: seq<Op>, log: Log,
                     i: nat, j: nat, last: seq<Entry>, stale: seq<Entry>)
    requires AllocDraft(l, words, log0, first, ops, log, i, j) && Dormant(l, words, log0, stale)
    requires |last| == 3 && log[4].tp == COMMIT && CrashRecovery.Names(csum, log[4], 4, stale) && Quiet(csum, log, last)
    ensures Dormant(l, words, log, stale)
  {
    DormantLog(l, words, log0, stale);
    hide Dormant, AllocDraft, AllocLog, LinkNow;
    if log[1..4] == stale[1..4] {
      DraftMatches(l, words, log0, first, ops, log, i, j, stale);
      StaleWouldReplay(l, csum, log, stale);
    }
    if log[2] == stale[2] {
      LinkStaysNow(l, words, log0, first, ops, log, i, j, stale);
    }
    DormantAgain(l, words, log, stale);
  }

  lemma DormantAgain(l: Layout, words: map<nat, nat>, log: Log, stale: seq<Entry>)
    requires AllocLog(l, stale) && |stale| == 4 && log[1..4] != stale[1..4]
    requires log[2] == stale[2] ==> LinkNow(l, words, CrashRecovery.Ops(stale))
    ensures Dormant(l, words, log, stale)
  {
  }

  lemma StaleWouldReplay(l: Layout, csum: CrashRecovery.Checksum, log: Log, stale: seq<Entry>)
    requires AllocLog(l, stale) && |stale| == 4 && log[..4] == stale
    requires log[4].tp == COMMIT && CrashRecovery.Names(csum, log[4], 4, stale)
    ensures CrashRecovery.Scan(csum, log) == CrashRecovery.Replay(4)
  {
    StaleEntries(l, stale);
    assert log[0] == stale[0] && log[1] == stale[1] && log[2] == stale[2] && log[3] == stale[3];
    assert CrashRecovery.FirstCommit(log, 0) == 4;
  }

  /** The draft of a free holds no header entry and no splice where an allocation has them. */
  lemma FreeStaysDormant(l: Layout, words: map<nat, nat>, log0: Log, ops: seq<Op>, log: Log, i: nat, j: nat,
                         stale: seq<Entry>)
    requires Dormant(l, words, log0, stale) && Draft(log0, EMPTY, ops, log, i, j)
    requires |ops| == 3 && (ops[1].Val? || ops[1].TwoVal?) && ops[2].HdrFree?
    ensures Dormant(l, words, log, stale)
  {
    DormantLog(l, words, log0, stale);
    StaleEntries(l, stale);
    EntryTypes(log0, ops, log, i, j);
    if i == 0 {
      TailKept(log0, EMPTY, ops, log, j);
    }
    if log[1..4] == stale[1..4] {
      PartsEqual(log, stale);
    }
    hide Draft, AllocLog, Canon;
  }

  lemma EntryTypes(log0: Log, ops: seq<Op>, log: Log, i: nat, j: nat)
    requires |ops| == 3 && Draft(log0, EMPTY, ops, log, i, j)
    ensures i < 2 ==> log[2] == log0[2]
    ensures i >= 1 ==> log[1].tp == INVALID || log[1].tp == TypeOf(ops[1])
    ensures i >= 2 ==> log[2].tp == INVALID || log[2].tp == TypeOf(ops[2])
  {
    if i > 1 {
      assert WfOp(ops[1]) && EntryDone(log[1], Base(EMPTY, 1), ops[1]);
    }
    if i > 2 {
      assert WfOp(ops[2]) && EntryDone(log[2], Base(EMPTY, 2), ops[2]);
    }
  }

  /** Behind a committed free the record of an allocation is dormant. */
  lemma FreedIsDormant(l: Layout, csum: CrashRecovery.Checksum, words: map<nat, nat>, ops: seq<Op>, log: Log,
                       stale: seq<Entry>)
    requires |ops| == 3 && ops[2].HdrFree? && CrashRecovery.LogCommitted(csum, log, ops) && AllocLog(l, stale)
    ensures Dormant(l, words, log, stale)
  {
    StaleEntries(l, stale);
    assert log[2].tp == TypeOf(ops[2]) && log[3].tp == COMMIT;
    if log[1..4] == stale[1..4] {
      PartsEqual(log, stale);
    }
    hide AllocLog, Canon, CrashRecovery.LogCommitted;
  }

  // Sound again -----------------------------------------------------------------------------------------------------

  /** The second record if it is still there. */
  ghost function Remaining(csum: CrashRecovery.Checksum, log: Log, last: seq<Entry>, stale: seq<Entry>): seq<Entry> {
    if log[4].tp == COMMIT && CrashRecovery.Names(csum, log[4], 4, stale) then stale else last
  }

  lemma RecordsRemain(csum: CrashRecovery.Checksum, log: Log, last: seq<Entry>, stale: seq<Entry>)
    requires CrashRecovery.Records(csum, log, last, stale) && (stale == last || |stale| == 4)
    ensures CrashRecovery.Records(csum, log, last, Remaining(csum, log, last, stale))
  {
  }

  /** The log after an episode that left the pool as it was. */
  lemma UntakenLog(l: Layout, csum: CrashRecovery.Checksum, r: Rest, e: Episode, last: seq<Entry>, stale: seq<Entry>,
                   log: Log, i: nat, j: nat)
    requires Sound(l, csum, r, last, stale) && IsUpdateRun(l, csum, r, e, last, stale)
    requires Left(r, e, UpdateOf(l, csum, r, e, last, stale).ops, log, i, j)
    requires CrashRecovery.Records(csum, log, last, stale) && Quiet(csum, log, last)
    ensures LogSound(l, csum, log, r.meta.words, last, Remaining(csum, log, last, stale))
  {
    hide PoolInv, UpdateOf, CrashRecovery.Start, CrashRecovery.IsRun, CrashRecovery.Settled, CrashRecovery.Records,
         Draft, Dormant, CanTry, AllocLog, Clean, Quiet, CrashRecovery.Names;
    LeftIsClean(l, csum, r, e, last, stale, log, i, j);
    if stale != last {
      WaitingLog(l, csum, r.log, r.meta.words, last, stale);
      if Remaining(csum, log, last, stale) == stale {
        if e.Allocs? {
          AllocDrafts(l, csum, r, e, last, stale, log, i, j);
          StillDormant(l, csum, r.meta.words, r.log, r.log[0], UpdateOf(l, csum, r, e, last, stale).ops, log, i, j, last,
                       stale);
        } else if log != r.log {
          FreeHead(l, csum, r, e, last, stale);
          FreeStaysDormant(l, r.meta.words, r.log, UpdateOf(l, csum, r, e, last, stale).ops, log, i, j, stale);
        }
      }
    }
    RecordsRemain(csum, log, last, stale);
  }

  /** The log after an episode that took effect. */
  lemma TakenLog(l: Layout, csum: CrashRecovery.Checksum, r: Rest, e: Episode, last: seq<Entry>, stale: seq<Entry>,
                 log: Log, words: map<nat, nat>, i: nat, j: nat, last': seq<Entry>, stale': seq<Entry>)
    requires Sound(l, csum, r, last, stale) && IsUpdateRun(l, csum, r, e, last, stale)
    requires Left(r, e, UpdateOf(l, csum, r, e, last, stale).ops, log, i, j)
    requires CrashRecovery.Records(csum, log, last', stale') && Quiet(csum, log, last')
    requires var ops := UpdateOf(l, csum, r, e, last, stale).ops;
             && last' == log[..|ops|] && CrashRecovery.LogCommitted(csum, log, ops)
             && stale' == if |last| > |ops| then last else if |stale| > |ops| then stale else last'
    ensures LogSound(l, csum, log, words, last', Remaining(csum, log, last', stale'))
  {
    hide PoolInv, UpdateOf, CrashRecovery.Start, CrashRecovery.IsRun, CrashRecovery.Settled, CrashRecovery.Records,
         Draft, Dormant, CanTry, AllocLog, Clean, Quiet, CrashRecovery.Names, CrashRecovery.LogCommitted;
    var ops := UpdateOf(l, csum, r, e, last, stale).ops;
    LeftIsClean(l, csum, r, e, last, stale, log, i, j);
    if stale != last {
      WaitingLog(l, csum, r.log, r.meta.words, last, stale);
    }
    if e.Allocs? {
      AllocLeavesLog(l, csum, r, e, last, stale, log, i, j);
    } else {
      FreeHead(l, csum, r, e, last, stale);
      if stale' != last' {
        FreedIsDormant(l, csum, words, ops, log, stale');
      }
    }
    RecordsRemain(csum, log, last', stale');
  }

  /**
   One episode leaves a pool from which the next one can start, and the directory changed as it says
   or not at all; unless a crash fell inside its buddy operation past repair, and then no pool.
   */
  lemma EpisodeKeepsSound(l: Layout, csum: CrashRecovery.Checksum, r: Rest, e: Episode, last: seq<Entry>,
                          stale: seq<Entry>)
    returns (last': seq<Entry>, stale': seq<Entry>)
    requires Sound(l, csum, r, last, stale) && Plays(l, csum, r, e)
    ensures var r' := After(l, csum, r, e);
            && l.Wf() && (if CutInside(l, e) then !IsPool(l, r'.meta) else Sound(l, csum, r', last', stale'))
            && (r'.meta == r.meta || DirStep(l, r, e, r'))
  {
    hide PoolInv, CrashRecovery.Start, CrashRecovery.IsRun, CrashRecovery.Settled, CrashRecovery.Records, CanTry,
         Sound, LogSound, Plays, CutInside, IsPool,
         UpdateOf, Left, CrashRecovery.LogCommitted, Quiet, CrashRecovery.Trusted, CrashRecovery.Took, DirStep,
         CrashRecovery.Update, Held, CrashRecovery.Scan, Remaining;
    EpisodeEnds(l, csum, r, e);
    EpisodeStarts(l, csum, r, e, last, stale);
    EpisodeIsTrusted(l, csum, r, e, last, stale);
    LeavesPool(l, csum, r, e, last, stale);
    last', stale' := last, stale;
    if !CutInside(l, e) {
      last', stale' := NextIsSound(l, csum, r, e, last, stale);
    }
  }

  lemma LeavesPool(l: Layout, csum: CrashRecovery.Checksum, r: Rest, e: Episode, last: seq<Entry>, stale: seq<Entry>)
    requires Sound(l, csum, r, last, stale) && Plays(l, csum, r, e)
    ensures l.Wf() && CanTry(l, r, e) && Leaves(l, csum, r, e, UpdateOf(l, csum, r, e, last, stale))
  {
    hide PoolInv, CrashRecovery.Start, CrashRecovery.IsRun, CanTry, Sound, Plays, Leaves, UpdateOf,
         CrashRecovery.Trusted,
         CrashRecovery.Update;
    EpisodeEnds(l, csum, r, e);
    EpisodeStarts(l, csum, r, e, last, stale);
    EpisodeIsTrusted(l, csum, r, e, last, stale);
    SoundPool(l, csum, r, last, stale);
    TryIndex(l, r, e);
    AfterIs(l, csum, r, e);
    var x := UpdateOf(l, csum, r, e, last, stale);
    if e.Allocs? {
      AllocEnds(l, csum, r, e, last, stale);
      EndLeaves(l, csum, r, e, x, r.chain + [e.slot], r.blocks + [e.p]);
    } else {
      FreeEnds(l, csum, r, e, last, stale);
      EndLeaves(l, csum, r, e, x, Without(r.chain, e.i), Without(r.blocks, e.i));
    }
  }

  lemma SoundPool(l: Layout, csum: CrashRecovery.Checksum, r: Rest, last: seq<Entry>, stale: seq<Entry>)
    requires Sound(l, csum, r, last, stale)
    ensures PoolInv(l, r.meta, r.chain, r.blocks)
  {
    hide PoolInv, LogSound, CrashRecovery.Settled;
  }

  lemma TryIndex(l: Layout, r: Rest, e: Episode)
    requires CanTry(l, r, e)
    ensures e.Frees? ==> e.i < |r.chain| == |r.blocks|
  {
    hide CanAlloc, PoolInv, InsideArena;
  }

  lemma AfterIs(l: Layout, csum: CrashRecovery.Checksum, r: Rest, e: Episode)
    requires Plays(l, csum, r, e) && (e.Frees? ==> e.i < |r.chain| == |r.blocks|)
    ensures |e.run| > 0
    ensures var end := e.run[|e.run| - 1];
            After(l, csum, r, e) ==
            if end.meta == r.meta then r.(log := end.log)
            else if e.Allocs? then Rest(end.log, end.meta, r.chain + [e.slot], r.blocks + [e.p])
            else Rest(end.log, end.meta, Without(r.chain, e.i), Without(r.blocks, e.i))
  {
    hide CanTry, UpdateOf, CrashRecovery.Next;
  }

  /** An episode that leaves a pool also leaves a log in order. */
  lemma NextIsSound(l: Layout, csum: CrashRecovery.Checksum, r: Rest, e: Episode, last: seq<Entry>, stale: seq<Entry>)
    returns (last': seq<Entry>, stale': seq<Entry>)
    requires Sound(l, csum, r, last, stale) && Plays(l, csum, r, e) && IsUpdateRun(l, csum, r, e, last, stale)
    requires CrashRecovery.Trusted(UpdateOf(l, csum, r, e, last, stale), e.run) && l.Wf()
    requires Leaves(l, csum, r, e, UpdateOf(l, csum, r, e, last, stale)) && !CutInside(l, e)
    ensures Sound(l, csum, After(l, csum, r, e), last', stale')
  {
    hide PoolInv, CrashRecovery.Start, CrashRecovery.IsRun, CrashRecovery.Settled, CrashRecovery.Records, CanTry,
         Sound, LogSound, Plays, CutInside, IsPool,
         UpdateOf, Left, CrashRecovery.LogCommitted, Quiet, CrashRecovery.Trusted, CrashRecovery.Took, DirStep,
         CrashRecovery.Update, Held, CrashRecovery.Scan, Remaining;
    EpisodeEnds(l, csum, r, e);
    SoundFacts(l, csum, r, last, stale);
    OpsAre(l, csum, r, e, last, stale);
    var x, end := UpdateOf(l, csum, r, e, last, stale), e.run[|e.run| - 1];
    var i, j := EpisodeLeaves(l, csum, r, e, last, stale);
    var stale1;
    last', stale1 := CrashRecovery.NextUpdateCanStart(x, e.run);
    stale' := Remaining(csum, end.log, last', stale1);
    QuietIs(csum, end.log, last');
    if CrashRecovery.Took(x, e.run) {
      TakenLog(l, csum, r, e, last, stale, end.log, end.meta.words, i, j, last', stale1);
    } else {
      UntakenLog(l, csum, r, e, last, stale, end.log, i, j);
    }
    MakeSound(l, csum, After(l, csum, r, e), last', stale');
  }

  /** When recovery of an episode reports an error, by the point of its crash. */
  lemma EpisodeErrorExact(l: Layout, csum: CrashRecovery.Checksum, r: Rest, e: Episode, last: seq<Entry>,
                          stale: seq<Entry>)
    returns (k: nat)
    requires Sound(l, csum, r, last, stale) && Plays(l, csum, r, e) && e.run[|e.run| - 1].phase.Recovered?
    ensures CanTry(l, r, e)
    ensures var x := UpdateOf(l, csum, r, e, last, stale);
            && (!CrashPoints.Stored(x, e.run) ==>
                  && k < |e.run| && (e.run[k].phase.Wiping? || e.run[k].phase.Building?)
                  && e.run[k].log == e.run[|e.run| - 1].log)
            && (e.run[|e.run| - 1].phase.error <==>
                  !CrashPoints.Stored(x, e.run) && k < |e.run| && CrashPoints.Refused(x, r.log, e.run[k].phase, e.run[k].log))
  {
    hide PoolInv, CrashRecovery.Start, CrashRecovery.IsRun, CanTry, Sound, UpdateOf, CrashRecovery.Trusted,
         CrashRecovery.Next, CrashPoints.Refused, CrashPoints.Stored;
    EpisodeStarts(l, csum, r, e, last, stale);
    EpisodeIsTrusted(l, csum, r, e, last, stale);
    k := CrashPoints.RecoveryErrorExact(UpdateOf(l, csum, r, e, last, stale), e.run);
  }

  lemma SoundFacts(l: Layout, csum: CrashRecovery.Checksum, r: Rest, last: seq<Entry>, stale: seq<Entry>)
    requires Sound(l, csum, r, last, stale)
    ensures CrashRecovery.Ideal(csum) && (stale == last || (|last| == 3 && |stale| == 4))
  {
    hide PoolInv, CrashRecovery.Settled, CrashRecovery.Records, Quiet, Clean, AllocShape, LinkNow;
  }

  lemma EpisodeEnds(l: Layout, csum: CrashRecovery.Checksum, r: Rest, e: Episode)
    requires Plays(l, csum, r, e)
    ensures CanTry(l, r, e) && l.Wf() && |e.run| > 0
    ensures var end, r' := e.run[|e.run| - 1], After(l, csum, r, e);
            (end.phase.Done? || end.phase.Recovered?) && r'.log == end.log && r'.meta == end.meta
  {
    hide CanAlloc, PoolInv, InsideArena, UpdateOf, CrashRecovery.Next;
  }

  lemma MakeSound(l: Layout, csum: CrashRecovery.Checksum, r: Rest, last: seq<Entry>, stale: seq<Entry>)
    requires CrashRecovery.Ideal(csum) && Held(l, r) && LogSound(l, csum, r.log, r.meta.words, last, stale)
    requires l.Wf() && Shape(l.Order(), r.meta.tree) && CrashRecovery.Settled(l.Order(), last, r.meta)
    ensures Sound(l, csum, r, last, stale)
  {
    hide PoolInv, CrashRecovery.Settled, LogSound;
  }

  lemma QuietIs(csum: CrashRecovery.Checksum, log: Log, last: seq<Entry>)
    ensures Quiet(csum, log, last)
       <==> (CrashRecovery.Scan(csum, log).Replay? ==> log[..CrashRecovery.Scan(csum, log).n] == last)
  {
  }

  lemma TryNeedsPool(l: Layout, csum: CrashRecovery.Checksum, r: Rest, e: Episode)
    requires Plays(l, csum, r, e)
    ensures IsPool(l, r.meta)
  {
    hide PoolInv, Parts, IsPool, InsideArena, CrashRecovery.Next, CanAlloc, Free, LiveBlocks, FitsDepth, CString,
         NameAt;
    if e.Allocs? {
      AllocFacts(l, r.meta, r.chain, r.blocks, e.p, e.slot, e.name, e.length);
      PoolParts(l, r.meta, r.chain, r.blocks);
    }
    PoolIsPool(l, r.meta, r.chain, r.blocks);
  }

  // Nothing that holds between two updates depends on the machine

  lemma SameLinked(l: Layout, k: nat, words: map<nat, nat>, chain: seq<nat>)
    ensures Linked(l.(machine := k), words, chain) <==> Linked(l, words, chain)
  {
    hide Rd, SlotChain;
    var l' := l.(machine := k);
    forall i | 0 <= i < |chain|
      ensures NextOk(l', words, chain, i) <==> NextOk(l, words, chain, i)
      ensures PrevOk(l', words, chain, i) <==> PrevOk(l, words, chain, i)
    {
    }
    hide NextOk, PrevOk;
  }

  lemma SameParts(l: Layout, k: nat, m: Meta, chain: seq<nat>, blocks: seq<Pos>)
    requires l.Wf()
    ensures l.(machine := k).Wf() && l.(machine := k).Order() == l.Order()
    ensures SlotsOk(l.(machine := k), m, chain) <==> SlotsOk(l, m, chain)
    ensures TreeOk(l.(machine := k), m.tree, blocks) <==> TreeOk(l, m.tree, blocks)
    ensures NamesDiffer(l.(machine := k), m.words, chain) <==> NamesDiffer(l, m.words, chain)
    ensures forall s, p :: HeaderOk(l.(machine := k), m.words, s, p) <==> HeaderOk(l, m.words, s, p)
  {
    hide FitsDepth, InsideArena, LiveSet, Canonical, NameAt, Address, Rd, SlotSet, CString, Distinct;
  }

  lemma SameInv(l: Layout, k: nat, m: Meta, chain: seq<nat>, blocks: seq<Pos>)
    ensures PoolInv(l.(machine := k), m, chain, blocks) <==> PoolInv(l, m, chain, blocks)
  {
    hide Linked, SlotsOk, TreeOk, NamesDiffer, HeaderOk;
    if l.Wf() {
      SameLinked(l, k, m.words, chain);
      SameParts(l, k, m, chain, blocks);
    }
  }

  lemma SameIsPool(l: Layout, k: nat, m: Meta)
    ensures IsPool(l.(machine := k), m) <==> IsPool(l, m)
  {
    hide PoolInv;
    forall chain, blocks ensures PoolInv(l.(machine := k), m, chain, blocks) <==> PoolInv(l, m, chain, blocks) {
      SameInv(l, k, m, chain, blocks);
    }
  }

  lemma SameLog(l: Layout, k: nat, es: seq<Entry>, words: map<nat, nat>, log: Log)
    ensures AllocLog(l, es) ==> AllocLog(l.(machine := k), es)
    ensures Dormant(l, words, log, es) ==> Dormant(l.(machine := k), words, log, es)
  {
    hide AreCanon, CString, FitsDepth, Address;
  }

  lemma AnyMachine(l: Layout, k: nat, csum: CrashRecovery.Checksum, r: Rest, last: seq<Entry>, stale: seq<Entry>)
    requires Sound(l, csum, r, last, stale)
    ensures Sound(l.(machine := k), csum, r, last, stale)
  {
    hide PoolInv, CrashRecovery.Ideal, CrashRecovery.Settled, AllocLog, Dormant, Clean, Quiet, CrashRecovery.Records,
         CrashRecovery.Names;
    SameInv(l, k, r.meta, r.chain, r.blocks);
    SameLog(l, k, last, r.meta.words, r.log);
    SameLog(l, k, stale, r.meta.words, r.log);
  }

  /**
   The pool survives every history with no crash inside a buddy operation past repair, and no other:
   after any number of allocations and frees by any machines, each of them cut by crashes and
   recovered any number of times, it is again a pool that the next one can start from.
   */
  lemma {:induction false} PoolSurvives(l: Layout, csum: CrashRecovery.Checksum, r: Rest, es: seq<Episode>,
                                        last: seq<Entry>, stale: seq<Entry>)
    returns (last': seq<Entry>, stale': seq<Entry>)
    requires Sound(l, csum, r, last, stale) && PlaysAll(l, csum, r, es)
    ensures l.Wf()
    ensures if AnyCutInside(l, es) then !IsPool(l, AfterAll(l, csum, r, es).meta)
            else Sound(l, csum, AfterAll(l, csum, r, es), last', stale')
    decreases |es|
  {
    SoundLayout(l, csum, r, last, stale);
    hide Sound, Plays, After, CutInside, AnyCutInside, IsPool, Layout.Wf, DirStep, PlaysAll, AfterAll;
    last', stale' := last, stale;
    AnyCutFirst(l, es);
    PlaysFirst(l, csum, r, es);
    if es != [] {
      var last1, stale1 := OneEpisode(l, csum, r, es[0], last, stale);
      if CutInside(l, es[0]) {
        LastIfCut(l, csum, r, es);
      } else {
        last', stale' := PoolSurvives(l, csum, After(By(l, es[0]), csum, r, es[0]), es[1..], last1, stale1);
      }
    }
  }

  lemma PlaysFirst(l: Layout, csum: CrashRecovery.Checksum, r: Rest, es: seq<Episode>)
    requires PlaysAll(l, csum, r, es)
    ensures if es == [] then AfterAll(l, csum, r, es) == r
            else
              && Plays(By(l, es[0]), csum, r, es[0])
              && var r' := After(By(l, es[0]), csum, r, es[0]);
                 PlaysAll(l, csum, r', es[1..]) && AfterAll(l, csum, r, es) == AfterAll(l, csum, r', es[1..])
    ensures |es| == 1 ==> AfterAll(l, csum, r, es) == After(By(l, es[0]), csum, r, es[0])
  {
    hide Plays, After;
  }

  ghost predicate AnyCutInside(l: Layout, es: seq<Episode>)
    requires l.Wf()
  {
    exists e :: e in es && CutInside(l, e)
  }

  lemma AnyCutFirst(l: Layout, es: seq<Episode>)
    requires l.Wf()
    ensures AnyCutInside(l, es) <==> es != [] && (CutInside(l, es[0]) || AnyCutInside(l, es[1..]))
  {
    hide CutInside, Layout.Wf;
    assert forall e :: e in es ==> e == es[0] || e in es[1..];
  }

  /** No episode starts where there is no pool. */
  lemma LastIfCut(l: Layout, csum: CrashRecovery.Checksum, r: Rest, es: seq<Episode>)
    requires es != [] && PlaysAll(l, csum, r, es) && !IsPool(l, After(By(l, es[0]), csum, r, es[0]).meta)
    ensures |es| == 1
  {
    hide Plays, After, IsPool;
    if |es| > 1 {
      var r' := After(By(l, es[0]), csum, r, es[0]);
      TryNeedsPool(By(l, es[1]), csum, r', es[1]);
      SameIsPool(l, es[1].machine, r'.meta);
    }
  }

  /** An episode of any machine, seen from any other. */
  lemma OneEpisode(l: Layout, csum: CrashRecovery.Checksum, r: Rest, e: Episode, last: seq<Entry>, stale: seq<Entry>)
    returns (last': seq<Entry>, stale': seq<Entry>)
    requires Sound(l, csum, r, last, stale) && Plays(By(l, e), csum, r, e)
    ensures var r' := After(By(l, e), csum, r, e);
            l.Wf() && if CutInside(l, e) then !IsPool(l, r'.meta) else Sound(l, csum, r', last', stale')
  {
    SoundLayout(l, csum, r, last, stale);
    hide Sound, Plays, After, CutInside, IsPool, Layout.Wf, DirStep;
    var l', r' := By(l, e), After(By(l, e), csum, r, e);
    AnyMachine(l, e.machine, csum, r, last, stale);
    last', stale' := EpisodeKeepsSound(l', csum, r, e, last, stale);
    SameCut(l, e);
    SameIsPool(l, e.machine, r'.meta);
    if !CutInside(l, e) {
      AnyMachine(l', l.machine, csum, r', last', stale');
      assert l'.(machine := l.machine) == l;
    }
  }

  lemma SameCut(l: Layout, e: Episode)
    requires l.Wf()
    ensures By(l, e).Wf() && (CutInside(By(l, e), e) <==> CutInside(l, e))
  {
  }

  lemma SoundLayout(l: Layout, csum: CrashRecovery.Checksum, r: Rest, last: seq<Entry>, stale: seq<Entry>)
    requires Sound(l, csum, r, last, stale)
    ensures l.Wf()
  {
    hide PoolInv, LogSound, CrashRecovery.Settled;
  }

  // What the directory holds after a history --------------------------------------------------------------

  lemma {:induction false} SameDir(l: Layout, k: nat, words: map<nat, nat>, chain: seq<nat>)
    ensures Dir(l.(machine := k), words, chain) == Dir(l, words, chain)
    decreases |chain|
  {
    if chain != [] {
      SameDir(l, k, words, chain[..|chain| - 1]);
    }
  }

  /** The directory after an episode: an allocation enters the name with its machine, a free takes it out. */
  ghost function Entered(l: Layout, r: Rest, e: Episode, r': Rest, dir: map<seq<nat>, Region>): map<seq<nat>, Region>
    requires CanTry(By(l, e), r, e)
  {
    if r'.meta == r.meta then dir
    else
      match e
      case Allocs(machine, p, _, name, length, _) =>
        dir[name := Region(l.main + Address(l.arena, p), length, machine)]
      case Frees(_, i, _) => dir - {NameAt(r.meta.words, l.Hdr(r.chain[i]))}
  }

  /** The directory that the episodes of a history say, one after the other. */
  ghost function Ledger(l: Layout, csum: CrashRecovery.Checksum, r: Rest, es: seq<Episode>, dir: map<seq<nat>, Region>)
    : map<seq<nat>, Region>
    requires PlaysAll(l, csum, r, es)
    decreases |es|
  {
    if es == [] then dir
    else
      var r' := After(By(l, es[0]), csum, r, es[0]);
      Ledger(l, csum, r', es[1..], Entered(l, r, es[0], r', dir))
  }

  /** One episode of any machine enters in the directory what it says. */
  lemma EpisodeEnters(l: Layout, csum: CrashRecovery.Checksum, r: Rest, e: Episode, last: seq<Entry>, stale: seq<Entry>)
    requires Sound(l, csum, r, last, stale) && Plays(By(l, e), csum, r, e)
    ensures CanTry(By(l, e), r, e)
    ensures var r' := After(By(l, e), csum, r, e);
            Dir(l, r'.meta.words, r'.chain) == Entered(l, r, e, r', Dir(l, r.meta.words, r.chain))
  {
    hide Sound, Plays, After, CutInside, IsPool, Layout.Wf, Dir, CanTry;
    var l', r' := By(l, e), After(By(l, e), csum, r, e);
    EpisodeEnds(l', csum, r, e);
    AnyMachine(l, e.machine, csum, r, last, stale);
    var last', stale' := EpisodeKeepsSound(l', csum, r, e, last, stale);
    SameDir(l, e.machine, r.meta.words, r.chain);
    SameDir(l, e.machine, r'.meta.words, r'.chain);
    if r'.meta == r.meta {
      SameChain(l', csum, r, e);
    }
  }

  lemma SameChain(l: Layout, csum: CrashRecovery.Checksum, r: Rest, e: Episode)
    requires Plays(l, csum, r, e) && After(l, csum, r, e).meta == r.meta
    ensures After(l, csum, r, e).chain == r.chain
  {
    hide Plays, CanTry;
    EpisodeEnds(l, csum, r, e);
  }

  /**
   After any history, whatever crashes cut it, the directory is exactly what its episodes say: each name
   with the region and the machine of the allocation that entered it, as long as no free took it out.
   */
  lemma {:induction false} DirIsLedger(l: Layout, csum: CrashRecovery.Checksum, r: Rest, es: seq<Episode>,
                                       last: seq<Entry>, stale: seq<Entry>)
    requires Sound(l, csum, r, last, stale) && PlaysAll(l, csum, r, es)
    ensures var end := AfterAll(l, csum, r, es);
            Dir(l, end.meta.words, end.chain) == Ledger(l, csum, r, es, Dir(l, r.meta.words, r.chain))
    decreases |es|
  {
    hide Sound, Plays, After, CutInside, IsPool, Layout.Wf, Dir, Entered, CanTry;
    PlaysFirst(l, csum, r, es);
    if es != [] {
      var last', stale' := OneEpisode(l, csum, r, es[0], last, stale);
      EpisodeEnters(l, csum, r, es[0], last, stale);
      var r' := After(By(l, es[0]), csum, r, es[0]);
      if CutInside(l, es[0]) {
        LastIfCut(l, csum, r, es);
        assert es[1..] == [];
      } else {
        DirIsLedger(l, csum, r', es[1..], last', stale');
      }
    }
  }

  /** Some episode of the history takes the name out. */
  ghost predicate TakesOut(l: Layout, csum: CrashRecovery.Checksum, r: Rest, es: seq<Episode>, name: seq<nat>)
    requires PlaysAll(l, csum, r, es)
    decreases |es|
  {
    && es != []
    && var r' := After(By(l, es[0]), csum, r, es[0]);
       (Removes(l, r, es[0], name) || TakesOut(l, csum, r', es[1..], name))
  }

  ghost predicate Removes(l: Layout, r: Rest, e: Episode, name: seq<nat>)
    requires CanTry(By(l, e), r, e)
  {
    e.Frees? && name == NameAt(r.meta.words, l.Hdr(r.chain[e.i]))
  }

  lemma EnteredKeeps(l: Layout, r: Rest, e: Episode, r': Rest, dir: map<seq<nat>, Region>, name: seq<nat>)
    requires CanTry(By(l, e), r, e) && dir == Dir(l, r.meta.words, r.chain) && name in dir && !Removes(l, r, e, name)
    ensures name in Entered(l, r, e, r', dir) && Entered(l, r, e, r', dir)[name] == dir[name]
  {
    hide CanTry, Dir, NameAt, Address, Layout.Wf;
    TryIndex(By(l, e), r, e);
    if e.Allocs? {
      TryName(By(l, e), r, e);
      SameDir(l, e.machine, r.meta.words, r.chain);
    }
  }

  lemma TryName(l: Layout, r: Rest, e: Episode)
    requires CanTry(l, r, e) && e.Allocs?
    ensures e.name !in Dir(l, r.meta.words, r.chain)
  {
    hide CanAlloc, Dir, InsideArena;
    NewName(l, r.meta, r.chain, r.blocks, e.p, e.slot, e.name, e.length);
  }

  /** An allocation is of a name that is not in the directory. */
  lemma NewName(l: Layout, m: Meta, chain: seq<nat>, blocks: seq<Pos>, p: Pos, slot: nat, name: seq<nat>, length: nat)
    requires CanAlloc(l, m, chain, blocks, p, slot, name, length)
    ensures name !in Dir(l, m.words, chain)
  {
    hide CanAlloc, Parts, Free, LiveBlocks, FitsDepth, CString, NameAt, Dir, NamesDiffer, Linked, SlotsOk, TreeOk, HeaderOk;
    AllocFacts(l, m, chain, blocks, p, slot, name, length);
    NamesOfParts(l, m, chain, blocks);
    DirHas(l, m.words, chain, name);
  }

  lemma NamesOfParts(l: Layout, m: Meta, chain: seq<nat>, blocks: seq<Pos>)
    requires Parts(l, m, chain, blocks)
    ensures NamesDiffer(l, m.words, chain)
  {
    hide NamesDiffer, Linked, SlotsOk, TreeOk, HeaderOk;
  }

  /**
   A name keeps its region and the machine that allocated it through every history that does not free
   it, whatever other names are allocated and freed, by whichever machines and under whatever crashes.
   */
  lemma {:induction false} RecordStays(l: Layout, csum: CrashRecovery.Checksum, r: Rest, es: seq<Episode>,
                                       last: seq<Entry>, stale: seq<Entry>, name: seq<nat>)
    requires Sound(l, csum, r, last, stale) && PlaysAll(l, csum, r, es)
    requires name in Dir(l, r.meta.words, r.chain) && !TakesOut(l, csum, r, es, name)
    ensures var end := AfterAll(l, csum, r, es);
            && name in Dir(l, end.meta.words, end.chain)
            && Dir(l, end.meta.words, end.chain)[name] == Dir(l, r.meta.words, r.chain)[name]
    decreases |es|
  {
    hide Sound, Plays, After, CutInside, IsPool, Layout.Wf, Dir, Entered, CanTry, Removes;
    PlaysFirst(l, csum, r, es);
    if es != [] {
      var last', stale' := OneEpisode(l, csum, r, es[0], last, stale);
      EpisodeEnters(l, csum, r, es[0], last, stale);
      var r' := After(By(l, es[0]), csum, r, es[0]);
      EnteredKeeps(l, r, es[0], r', Dir(l, r.meta.words, r.chain), name);
      if CutInside(l, es[0]) {
        LastIfCut(l, csum, r, es);
      } else {
        RecordStays(l, csum, r', es[1..], last', stale', name);
      }
    }
  }

  /** A freshly initialised pool is a start: its log is empty. */
  lemma FreshPoolIsSound(l: Layout, csum: CrashRecovery.Checksum, r: Rest)
    requires CrashRecovery.Ideal(csum) && PoolInv(l, r.meta, r.chain, r.blocks)
    requires forall i :: 0 <= i < REDOLOG_ENTRIES ==> r.log[i] == EMPTY
    ensures Sound(l, csum, r, [], [])
  {
    hide PoolInv;
    HeldShape(l, r);
    assert CrashRecovery.Settled(l.Order(), [], r.meta);
  }
}
