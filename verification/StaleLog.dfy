/**
 The commit record that a shorter update can leave behind. An allocation logs four entries and a free
 three, so a free that is cut right after its checksum leaves the record of an older allocation
 behind its own. That record checks again only when the same allocation is built once more.
 */
module StaleLog {
  import opened Sequences
  import opened BuddyPositions
  import opened BuddyStatus
  import opened BuddyArena
  import opened BuddyVirtual
  import opened RedoLog
  import opened MetaStores
  import StoreSteps
  import StoreWork
  import CrashRecovery
  import CrashPoints
  import opened ObjectPool
  import opened ListRemoval
  import opened ObjectFree
  import opened LogDraft

  // The logs of allocations ------------------------------------------------------------------------------

  /** Four operations as an allocation logs them. */
  ghost predicate AllocShape(l: Layout, ops: seq<Op>)
    requires l.Wf()
  {
    && |ops| == 4 && ops[0].BuddyAlloc? && ops[1].HdrAlloc? && ops[2].TwoVal?
    && BuddyPositions.Wf(l.Order(), ops[0].pos)
    && HeaderShape(l, ops[0].pos, ops[1])
    && ops[2].off1 == l.Hdr(ops[1].slot) + OFF_PREV && ops[2].value2 == l.Hdr(ops[1].slot)
    && ops[3] == TwoVal(l.Hdr(ops[1].slot) + OFF_NEXT, 0, l.Tail(), l.Hdr(ops[1].slot))
  }

  ghost predicate HeaderShape(l: Layout, p: Pos, op: Op)
    requires l.Wf() && BuddyPositions.Wf(l.Order(), p) && op.HdrAlloc?
  {
    && op.rec == l.rec && op.machine >= 1 && op.length >= 1 && CString(op.name)
    && op.obj == l.main + Address(l.arena, p) && FitsDepth(l.arena, op.length, p.depth)
  }

  /** The list splice is the one for the list as it is. */
  ghost predicate LinkNow(l: Layout, words: map<nat, nat>, ops: seq<Op>) {
    |ops| == 4 && ops[1].HdrAlloc? && ops[2] == AppendOps(l, words, l.Hdr(ops[1].slot))[0]
  }

  lemma AllocOpsShape(l: Layout, m: Meta, chain: seq<nat>, blocks: seq<Pos>, p: Pos, slot: nat, name: seq<nat>,
                      length: nat)
    requires CanAlloc(l, m, chain, blocks, p, slot, name, length) && l.machine >= 1
    ensures Rd(m.words, l.rec + OFF_AVAILABLE) >= 1
    ensures var ops := AllocOps(l, m, p, slot, name, length); AllocShape(l, ops) && LinkNow(l, m.words, ops)
  {
    hide CanAlloc, EntriesFor, AllocShape, LinkNow, FitsDepth, Address, Parts, NameAt, Free, LiveBlocks, CString;
    AllocFacts(l, m, chain, blocks, p, slot, name, length);
    EntriesShape(l, m.words, p, slot, Rd(m.words, l.rec + OFF_AVAILABLE) - 1, name, length);
  }

  lemma EntriesShape(l: Layout, w: map<nat, nat>, p: Pos, slot: nat, left: nat, name: seq<nat>, length: nat)
    requires l.Wf() && BuddyPositions.Wf(l.Order(), p) && CString(name) && length >= 1 && FitsDepth(l.arena, length, p.depth)
    requires l.machine >= 1
    ensures var ops := EntriesFor(l, w, p, l.main + Address(l.arena, p), slot, left, name, length);
            AllocShape(l, ops) && LinkNow(l, w, ops)
  {
    hide Address, FitsDepth, CString;
  }

  /** The header entry of an allocation and the splice determine the others. */
  lemma SameAlloc(l: Layout, ops: seq<Op>, ops': seq<Op>)
    requires l.Wf() && AllocShape(l, ops) && AllocShape(l, ops') && ops[1] == ops'[1] && ops[2] == ops'[2]
    ensures ops == ops'
  {
    var p, p' := ops[0].pos, ops'[0].pos;
    FitsDepthUnique(l.arena, ops[1].length, p.depth, p'.depth);
    SameBlock(l.arena, p, p');
    assert ops[0] == ops'[0];
  }

  /** The log of an allocation: finished entries of that shape. */
  ghost predicate AllocLog(l: Layout, es: seq<Entry>) {
    l.Wf() && |es| == 4 && AllocShape(l, CrashRecovery.Ops(es)) && AreCanon(es, CrashRecovery.Ops(es))
  }

  lemma AllocWf(l: Layout, ops: seq<Op>)
    requires l.Wf() && AllocShape(l, ops)
    ensures forall k :: 0 <= k < 4 ==> WfOp(ops[k])
  {
  }

  // A draft that looks like the stale log -----------------------------------------------------------------

  /** What is known of the stale log when an update starts over `log0`. */
  ghost predicate Dormant(l: Layout, words: map<nat, nat>, log0: Log, stale: seq<Entry>) {
    && AllocLog(l, stale) && log0[1..4] != stale[1..4]
    && (log0[2] == stale[2] ==> LinkNow(l, words, CrashRecovery.Ops(stale)))
  }

  lemma DormantLog(l: Layout, words: map<nat, nat>, log: Log, stale: seq<Entry>)
    requires Dormant(l, words, log, stale)
    ensures AllocLog(l, stale) && |stale| == 4 && AreCanon(stale, CrashRecovery.Ops(stale))
  {
    hide AllocShape, AreCanon, LinkNow;
  }

  ghost predicate AllocDraft(l: Layout, words: map<nat, nat>, log0: Log, first: Entry, ops: seq<Op>, log: Log,
                             i: nat, j: nat) {
    && l.Wf() && AllocShape(l, ops) && LinkNow(l, words, ops) && Clean(first)
    && Draft(log0, first, ops, log, i, j)
  }

  /** Entry k of the draft equals the finished entry of `op`, and so belongs to it. */
  lemma DoneEntry(l: Layout, words: map<nat, nat>, log0: Log, first: Entry, ops: seq<Op>, log: Log, i: nat, j: nat,
                  k: nat)
    requires AllocDraft(l, words, log0, first, ops, log, i, j) && k < i && k < 4
    ensures WfOp(ops[k]) && log[k] == Canon(ops[k])
  {
    hide Canon, EntryDone, EntryDraft, HeaderShape;
    assert WfOp(ops[k]) && EntryDone(log[k], Base(first, k), ops[k]);
    if k == 0 {
      CleanIsCanon(log[0], first, ops[0]);
    } else {
      DoneIsCanon(log[k], ops[k]);
    }
  }

  lemma CanonInjective(op: Op, op': Op)
    requires WfOp(op) && WfOp(op') && Canon(op) == Canon(op')
    ensures op == op'
  {
    CanonDecodes(op);
    CanonDecodes(op');
  }

  /** The header entry of the draft is the stale one: then it is for the same operation. */
  lemma SameHeaderEntry(l: Layout, words: map<nat, nat>, log0: Log, first: Entry, ops: seq<Op>, log: Log, i: nat,
                        j: nat, op': Op)
    requires AllocDraft(l, words, log0, first, ops, log, i, j) && 1 <= i
    requires op'.HdrAlloc? && WfOp(op') && op'.rec != 0 && op'.length >= 1 && op'.machine >= 1 && log[1] == Canon(op')
    ensures ops[1] == op'
  {
    AllocWf(l, ops);
    CanonDecodes(op');
    if i == 1 {
      assert j > 0;
      hide Canon, EntryDraft;
      HeaderDraft(ops[1], op', j);
    } else {
      DoneEntry(l, words, log0, first, ops, log, i, j, 1);
      CanonInjective(ops[1], op');
    }
  }

  lemma SameLinkEntry(l: Layout, words: map<nat, nat>, log0: Log, first: Entry, ops: seq<Op>, log: Log, i: nat,
                      j: nat, op': Op)
    requires AllocDraft(l, words, log0, first, ops, log, i, j) && 2 <= i
    requires op'.TwoVal? && op'.value2 != 0 && log[2] == Canon(op')
    ensures ops[2] == op'
  {
    AllocWf(l, ops);
    CanonDecodes(op');
    if i == 2 {
      assert j > 0;
      hide Canon, EntryDraft;
      TwoValDraft(ops[2], op', j);
    } else {
      DoneEntry(l, words, log0, first, ops, log, i, j, 2);
      CanonInjective(ops[2], op');
    }
  }

  lemma StaleEntries(l: Layout, stale: seq<Entry>)
    requires AllocLog(l, stale)
    ensures var ops := CrashRecovery.Ops(stale);
            && (forall k :: 0 <= k < 4 ==> WfOp(ops[k]) && stale[k] == Canon(ops[k]))
            && ops[1].HdrAlloc? && ops[1].rec != 0 && ops[1].length >= 1 && ops[1].machine >= 1
            && ops[2].TwoVal? && ops[2].value2 != 0
            && stale[0].tp == BUDDY_ALLOC && stale[1].tp == OBJ_HDR_ALLOC
            && stale[2].tp == TWO_VAL_LOG && stale[3].tp == TWO_VAL_LOG
  {
    AllocWf(l, CrashRecovery.Ops(stale));
  }

  lemma DormantLink(l: Layout, words: map<nat, nat>, ops: seq<Op>, ops': seq<Op>)
    requires LinkNow(l, words, ops) && LinkNow(l, words, ops') && ops[1] == ops'[1]
    ensures ops[2] == ops'[2]
  {
  }

  /** When the draft's last three entries are those of the stale log, it is the same allocation all over. */
  lemma DraftMatches(l: Layout, words: map<nat, nat>, log0: Log, first: Entry, ops: seq<Op>, log: Log, i: nat,
                     j: nat, stale: seq<Entry>)
    requires AllocDraft(l, words, log0, first, ops, log, i, j)
    requires Dormant(l, words, log0, stale) && log[1..4] == stale[1..4]
    ensures ops == CrashRecovery.Ops(stale) && log[..4] == stale
  {
    var ops' := CrashRecovery.Ops(stale);
    StaleEntries(l, stale);
    PartsEqual(log, stale);
    if i == 0 {
      TailKept(log0, first, ops, log, j);
    }
    SameHeaderEntry(l, words, log0, first, ops, log, i, j, ops'[1]);
    if i == 1 {
      assert log[2] == log0[2];
      DormantLink(l, words, ops, ops');
    } else {
      SameLinkEntry(l, words, log0, first, ops, log, i, j, ops'[2]);
    }
    SameAlloc(l, ops, ops');
    DoneEntry(l, words, log0, first, ops, log, i, j, 0);
    assert log[..4] == stale;
  }

  lemma TailKept(log0: Log, first: Entry, ops: seq<Op>, log: Log, j: nat)
    requires Draft(log0, first, ops, log, 0, j)
    ensures log[1..4] == log0[1..4]
  {
  }

  lemma PartsEqual(log: Log, stale: seq<Entry>)
    requires |stale| == 4 && log[1..4] == stale[1..4]
    ensures log[1] == stale[1] && log[2] == stale[2] && log[3] == stale[3]
  {
    assert log[1..4][0] == stale[1..4][0] && log[1..4][1] == stale[1..4][1] && log[1..4][2] == stale[1..4][2];
  }

  /** The splice of the stale log is still the current one if the draft holds it. */
  lemma LinkStaysNow(l: Layout, words: map<nat, nat>, log0: Log, first: Entry, ops: seq<Op>, log: Log, i: nat,
                     j: nat, stale: seq<Entry>)
    requires AllocDraft(l, words, log0, first, ops, log, i, j) && Dormant(l, words, log0, stale) && log[2] == stale[2]
    ensures LinkNow(l, words, CrashRecovery.Ops(stale))
  {
    StaleEntries(l, stale);
    if i < 2 {
      assert log[2] == log0[2];
    } else {
      SameLinkEntry(l, words, log0, first, ops, log, i, j, CrashRecovery.Ops(stale)[2]);
    }
  }

  // Updates over a log with two records ---------------------------------------------------------------------

  /** What recovery would replay is the last update or nothing. */
  ghost predicate Quiet(csum: CrashRecovery.Checksum, log: Log, last: seq<Entry>) {
    var v := CrashRecovery.Scan(csum, log);
    v.Replay? ==> log[..v.n] == last
  }

  /** A record that would be replayed over a draft is an old one, or the draft is complete. */
  lemma ReplayedRecord(x: CrashRecovery.Context, log0: Log, first: Entry, log: Log, i: nat, j: nat)
    requires CrashRecovery.Ideal(x.csum) && Draft(log0, first, x.ops, log, i, j) && first.tp != COMMIT
    requires CrashRecovery.Records(x.csum, log0, x.last, x.stale) && CrashRecovery.Revives(x, log)
    ensures var c := CrashRecovery.Scan(x.csum, log).n;
            (c == i == |x.ops|) || (i < c && log[c] == log0[c] && c == |x.stale| && log[..c] == x.stale)
  {
    hide EntryDone, EntryDraft, TypeOf, BuiltFields;
    var c := CrashRecovery.Scan(x.csum, log).n;
    if c < i {
      NotCommitted(log, first, x.ops, i, c);
    } else if c == i && i < |x.ops| {
      DraftNotCommitted(log0, first, x.ops, log, i, j);
    }
  }

  lemma FinishedIsWritten(log: Log, first: Entry, ops: seq<Op>)
    requires Finished(log, first, ops, |ops|) && |ops| < REDOLOG_ENTRIES
    ensures CrashRecovery.Written(log, ops, |ops|)
  {
    hide EntryDone;
    forall e | 0 <= e < |ops| ensures log[e].tp == TypeOf(ops[e]) && Decode(log[e]) == ops[e] {
      assert WfOp(ops[e]) && EntryDone(log[e], Base(first, e), ops[e]);
      DoneDecodes(log[e], Base(first, e), ops[e]);
    }
  }

  lemma DoneDecodes(e: Entry, base: Entry, op: Op)
    requires WfOp(op) && EntryDone(e, base, op)
    ensures e.tp == TypeOf(op) && Decode(e) == op
  {
    BuiltEntryDecodes(base, op);
  }

  lemma CanonIsWritten(log: Log, ops: seq<Op>)
    requires |ops| < REDOLOG_ENTRIES && AreCanon(log[..|ops|], ops)
    ensures CrashRecovery.Written(log, ops, |ops|)
  {
    hide Canon;
    forall e | 0 <= e < |ops| ensures log[e].tp == TypeOf(ops[e]) && Decode(log[e]) == ops[e] {
      assert log[..|ops|][e] == Canon(ops[e]);
      CanonDecodes(ops[e]);
    }
  }

  lemma ReplayCommits(x: CrashRecovery.Context, log: Log)
    requires |x.ops| < REDOLOG_ENTRIES && CrashRecovery.Scan(x.csum, log) == CrashRecovery.Replay(|x.ops|)
    requires CrashRecovery.Written(log, x.ops, |x.ops|)
    ensures CrashRecovery.LogCommitted(x.csum, log, x.ops)
  {
    hide CrashRecovery.Written;
  }

  /** Building an allocation never makes recovery replay anything but the last update or this allocation. */
  lemma AllocIsHonest(l: Layout, x: CrashRecovery.Context, log0: Log, first: Entry, log: Log, i: nat, j: nat)
    requires CrashRecovery.Start(x) && CrashRecovery.Records(x.csum, log0, x.last, x.stale) && first.tp != COMMIT
    requires AllocDraft(l, x.pre.words, log0, first, x.ops, log, i, j) && Dormant(l, x.pre.words, log0, x.stale)
    ensures CrashRecovery.Honest(x, log)
  {
    if CrashRecovery.Revives(x, log) {
      assert CrashRecovery.Ideal(x.csum);
      hide CrashRecovery.Start, CrashRecovery.Records, CrashRecovery.LogCommitted, CrashRecovery.Written, Dormant,
           AllocShape;
      ReplayedRecord(x, log0, first, log, i, j);
      var c := CrashRecovery.Scan(x.csum, log).n;
      if c == i {
        FinishedIsWritten(log, first, x.ops);
      } else {
        StaleIsDraft(l, x, log0, first, log, i, j);
      }
      ReplayCommits(x, log);
    }
  }

  lemma StaleIsDraft(l: Layout, x: CrashRecovery.Context, log0: Log, first: Entry, log: Log, i: nat, j: nat)
    requires AllocDraft(l, x.pre.words, log0, first, x.ops, log, i, j) && Dormant(l, x.pre.words, log0, x.stale)
    requires |x.stale| <= REDOLOG_ENTRIES && i < |x.stale| && log[..|x.stale|] == x.stale
    ensures |x.ops| == |x.stale| == 4 && CrashRecovery.Written(log, x.ops, 4)
  {
    hide Dormant, AllocDraft, AreCanon, CrashRecovery.Written, AllocLog;
    DormantLog(l, x.pre.words, log0, x.stale);
    assert log[1..4] == log[..4][1..4];
    DraftMatches(l, x.pre.words, log0, first, x.ops, log, i, j, x.stale);
    CanonIsWritten(log, x.ops);
  }

  /** The draft of a free has another type in entry 0 than the log of an allocation. */
  lemma FreeIsHonest(l: Layout, x: CrashRecovery.Context, log0: Log, log: Log, i: nat, j: nat)
    requires CrashRecovery.Start(x) && CrashRecovery.Records(x.csum, log0, x.last, x.stale)
    requires Draft(log0, EMPTY, x.ops, log, i, j) && x.ops[0].BuddyFree? && AllocLog(l, x.stale)
    ensures CrashRecovery.Honest(x, log)
  {
    if CrashRecovery.Revives(x, log) {
      assert CrashRecovery.Ideal(x.csum);
      hide CrashRecovery.Start, CrashRecovery.Records, CrashRecovery.LogCommitted, CrashRecovery.Written;
      ReplayedRecord(x, log0, EMPTY, log, i, j);
      var c := CrashRecovery.Scan(x.csum, log).n;
      if c == i {
        FinishedIsWritten(log, EMPTY, x.ops);
        ReplayCommits(x, log);
      } else {
        StaleEntries(l, x.stale);
        FreeTypes(log0, x.ops, log, i, j);
        assert false;
      }
    }
  }

  lemma FreeTypes(log0: Log, ops: seq<Op>, log: Log, i: nat, j: nat)
    requires Draft(log0, EMPTY, ops, log, i, j) && ops[0].BuddyFree?
    ensures log[0].tp == INVALID || log[0].tp == BUDDY_FREE
  {
    if i > 0 {
      assert WfOp(ops[0]) && EntryDone(log[0], EMPTY, ops[0]);
    }
  }

  // Revival -------------------------------------------------------------------------------------------------

  /**
   Recovery can complete an update that never stored its own record: when the update builds the
   entries of the stale log once more and crashes before it erases the stale record behind them.
   */
  lemma StaleRecordRevives(x: CrashRecovery.Context, log: Log) returns (run: seq<CrashRecovery.Machine>)
    requires CrashRecovery.Start(x) && CrashRecovery.Records(x.csum, log, x.last, x.stale) && !CrashRecovery.Revives(x, log)
    requires AreCanon(x.stale, x.ops) && x.ops[0].BuddyAlloc? && Clean(log[0]) && |x.last| != |x.ops|
    requires log[|x.ops|].tp == COMMIT && CrashRecovery.Names(x.csum, log[|x.ops|], |x.ops|, x.stale)
    ensures CrashRecovery.IsRun(x, run) && run[0].log == log && run[0].phase == CrashRecovery.Building(0, 0)
    ensures CrashRecovery.Took(x, run) && !CrashPoints.Stored(x, run) && !CrashRecovery.Spoilt(x.o, run)
    ensures var m := run[|run| - 1];
            m.meta == x.pre && m.phase == CrashRecovery.Recovering(StoreWork.Work(AllStores(x.ops), StoreSteps.Ground))
  {
    hide CrashRecovery.Start, CrashRecovery.Records, CrashRecovery.IsRun, CrashRecovery.BuildStep,
         CrashRecovery.WipeStep, CrashRecovery.ExecuteStep,
         CrashRecovery.ReplayStep, AreCanon, Draft, EntryStores, CrashPoints.IsBuilding, CrashRecovery.Revives,
         CrashRecovery.FirstCommit, Clean;
    CrashRecovery.StartFacts(x);
    var n := |x.ops| - 1;
    CrashRecovery.EntryStoreCount(n, x.ops[n]);
    var before := CrashPoints.ReachPoint(x, log, false, n, |EntryStores(n, x.ops[n])| - 1);
    CrashPoints.BuildingFacts(x, log, false, before);
    var m := before[|before| - 1];
    var first, i, j := RunDrafts(x, before, |before| - 1);
    LastDraft(x, log, m.log);
    var down := m.(phase := CrashRecovery.Down);
    var again := down.(phase := CrashRecovery.Recovering(
                                  StoreWork.Work(CrashRecovery.ReplayStores(x.csum, m.log), StoreSteps.Ground)));
    CrashPoints.RunMore(x, before, down);
    CrashPoints.RunMore(x, before + [down], again);
    run := before + [down] + [again];
    assert CrashRecovery.TookAt(x, run[|run| - 1]);
    StillNoCommit(x, log, before, down, again);
    StaleDecodes(x.stale, x.ops);
  }

  lemma StaleDecodes(stale: seq<Entry>, ops: seq<Op>)
    requires AreCanon(stale, ops)
    ensures CrashRecovery.Ops(stale) == ops
  {
    hide Canon;
    forall k | 0 <= k < |ops| ensures Decode(stale[k]) == ops[k] {
      CanonDecodes(ops[k]);
    }
  }

  lemma StillNoCommit(x: CrashRecovery.Context, log: Log, before: seq<CrashRecovery.Machine>,
                      down: CrashRecovery.Machine, again: CrashRecovery.Machine)
    requires CrashPoints.IsBuilding(x, log, false, before) && down.phase.Down? && again.phase.Recovering?
    ensures var run := before + [down] + [again]; !CrashPoints.Stored(x, run) && !CrashRecovery.Spoilt(x.o, run)
  {
    hide CrashRecovery.Start, CrashRecovery.IsRun;
  }

  /** All entries built, with the stale record behind them. */
  lemma LastDraft(x: CrashRecovery.Context, log0: Log, log: Log)
    requires CrashRecovery.Loggable(x.ops) && AreCanon(x.stale, x.ops) && x.ops[0].BuddyAlloc? && Clean(log0[0])
    requires log0[|x.ops|].tp == COMMIT && CrashRecovery.Names(x.csum, log0[|x.ops|], |x.ops|, x.stale) && |x.last| != |x.ops|
    requires Draft(log0, log0[0], x.ops, log, |x.ops| - 1, |FieldStores(x.ops[|x.ops| - 1])| + 1)
    ensures CrashRecovery.Scan(x.csum, log) == CrashRecovery.Replay(|x.ops|) && CrashRecovery.Revives(x, log)
    ensures log[..|x.ops|] == x.stale
  {
    var n := |x.ops| - 1;
    hide EntryDone, EntryDraft, Canon, FieldStores;
    DraftIsDone(log[n], Base(log0[0], n), x.ops[n]);
    forall k | 0 <= k <= n ensures log[k] == Canon(x.ops[k]) && log[k].tp != COMMIT {
      assert EntryDone(log[k], Base(log0[0], k), x.ops[k]);
      if k == 0 {
        CleanIsCanon(log[0], log0[0], x.ops[0]);
      } else {
        DoneIsCanon(log[k], x.ops[k]);
      }
      CanonDecodes(x.ops[k]);
    }
    assert log[..n + 1] == x.stale;
    assert CrashRecovery.FirstCommit(log, 0) == n + 1;
  }
}
