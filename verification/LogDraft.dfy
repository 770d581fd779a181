/**
 What the log holds, entry by entry, while an update is being built over an older log. Every entry
 but the first is erased before it is built, so a finished one depends on its operation only.
 */
module LogDraft {
  import opened RedoLog
  import opened MetaStores
  import opened CrashRecovery

  /** The entry of `op` built over an erased one. */
  function Canon(op: Op): Entry
    requires WfOp(op)
  {
    Raw(TypeOf(op), BuiltFields(EMPTY, op))
  }

  lemma CanonDecodes(op: Op)
    requires WfOp(op)
    ensures Decode(Canon(op)) == op && Canon(op).tp == TypeOf(op) && TypeOf(op) != INVALID && TypeOf(op) != COMMIT
  {
    BuiltEntryDecodes(EMPTY, op);
  }

  /** The entries of finished operations. */
  ghost predicate AreCanon(es: seq<Entry>, ops: seq<Op>) {
    |es| == |ops| && forall k :: 0 <= k < |ops| ==> WfOp(ops[k]) && es[k] == Canon(ops[k])
  }

  /** What a buddy operation leaves alone in its entry is zero. */
  predicate Clean(e: Entry) {
    forall k :: 2 <= k < FIELDS ==> e.f[k] == 0
  }

  /** The entry under construction over `base`: j - 1 payload stores made. */
  ghost predicate EntryDraft(e: Entry, base: Entry, op: Op, j: nat)
    requires WfOp(op)
  {
    FieldStoresDistinct(op);
    var fs := FieldStores(op);
    1 <= j <= |fs| + 1 && e == Raw(TypeOf(op), PutFields(base.f, fs[..j - 1]))
  }

  /** What an entry is built over. */
  function Base(first: Entry, i: nat): Entry {
    if i == 0 then first else EMPTY
  }

  ghost predicate Finished(log: Log, first: Entry, ops: seq<Op>, i: nat) {
    i <= |ops| <= REDOLOG_ENTRIES && forall e :: 0 <= e < i ==> WfOp(ops[e]) && EntryDone(log[e], Base(first, e), ops[e])
  }

  ghost predicate EntryDone(e: Entry, base: Entry, op: Op)
    requires WfOp(op)
  {
    e == Raw(TypeOf(op), BuiltFields(base, op))
  }

  /** The log at point (i, j) of the building over `log0`, whose entry 0 was `first` when it began. */
  ghost predicate Draft(log0: Log, first: Entry, ops: seq<Op>, log: Log, i: nat, j: nat) {
    && Loggable(ops) && Finished(log, first, ops, i)
    && (i < |ops| && j == 0 ==> log[i] == Base(first, i))
    && (i < |ops| && j > 0 ==> EntryDraft(log[i], Base(first, i), ops[i], j))
    && (i == |ops| && j == 0 ==> log[i] == EMPTY)
    && (i == |ops| && j == 1 ==> log[i] == EMPTY.(tp := COMMIT))
    && (forall e :: i < e < REDOLOG_ENTRIES ==>
          log[e] == log0[e] || (i == |ops| && j >= 3 && e == i + 1 && log[e] == EMPTY))
  }

  // One store more ---------------------------------------------------------------------------------

  lemma DraftType(base: Entry, op: Op)
    requires WfOp(op)
    ensures EntryDraft(base.(tp := TypeOf(op)), base, op, 1)
  {
    FieldStoresDistinct(op);
    assert FieldStores(op)[..0] == [];
  }

  lemma DraftField(e: Entry, base: Entry, op: Op, j: nat)
    requires WfOp(op) && EntryDraft(e, base, op, j) && j <= |FieldStores(op)|
    ensures FieldStores(op)[j - 1].0 < FIELDS
    ensures EntryDraft(Raw(e.tp, e.f[FieldStores(op)[j - 1].0 := FieldStores(op)[j - 1].1]), base, op, j + 1)
  {
    FieldStoresDistinct(op);
    var fs := FieldStores(op);
    assert fs[..j] == fs[..j - 1] + [fs[j - 1]];
    PutFieldsAppend(base.f, fs[..j - 1], fs[j - 1]);
  }

  lemma DraftIsDone(e: Entry, base: Entry, op: Op)
    requires WfOp(op) && EntryDraft(e, base, op, |FieldStores(op)| + 1)
    ensures EntryDone(e, base, op)
  {
    assert FieldStores(op)[..|FieldStores(op)|] == FieldStores(op);
  }

  lemma FinishedKept(log: Log, log': Log, first: Entry, ops: seq<Op>, i: nat)
    requires Finished(log, first, ops, i) && forall e :: 0 <= e < i ==> log'[e] == log[e]
    ensures Finished(log', first, ops, i)
  {
    hide EntryDone, WfOp;
  }

  /** A store of entry i < n. */
  lemma EntryStepDrafts(csum: Checksum, log0: Log, first: Entry, ops: seq<Op>, m: Machine, m': Machine)
    requires m.phase.Building? && BuildStep(csum, ops, m, m') && m.phase.i < |ops|
    requires Draft(log0, first, ops, m.log, m.phase.i, m.phase.j)
    ensures m'.phase.Building? && Draft(log0, first, ops, m'.log, m'.phase.i, m'.phase.j)
  {
    var (i, j) := (m.phase.i, m.phase.j);
    var op := ops[i];
    EntryStoreAt(i, op, j);
    hide EntryDone, EntryStores, TypeOf, FieldStores;
    if j == 0 {
      DraftType(m.log[i], op);
    } else if j <= |FieldStores(op)| {
      DraftField(m.log[i], Base(first, i), op, j);
    } else {
      DraftIsDone(m.log[i], Base(first, i), op);
    }
    hide EntryDraft;
    FinishedKept(m.log, m'.log, first, ops, i);
  }

  lemma CommitStepDrafts(csum: Checksum, log0: Log, first: Entry, ops: seq<Op>, m: Machine, m': Machine)
    requires m.phase.Building? && BuildStep(csum, ops, m, m') && m.phase.i == |ops|
    requires Draft(log0, first, ops, m.log, m.phase.i, m.phase.j)
    ensures Draft(log0, first, ops, m'.log, |ops|, m.phase.j + 1)
  {
    hide EntryDone, EntryDraft;
    FinishedKept(m.log, m'.log, first, ops, |ops|);
  }

  /** Where the draft stands: in the building its own point, later the point that was reached. */
  ghost predicate DraftAt(x: Context, log0: Log, first: Entry, m: Machine, i: nat, j: nat) {
    && Draft(log0, first, x.ops, m.log, i, j)
    && (m.phase.Building? ==> m.phase == Building(i, j)) && !m.phase.Wiping?
  }

  lemma StepDrafts(x: Context, log0: Log, first: Entry, m: Machine, m': Machine, i: nat, j: nat)
    returns (i': nat, j': nat)
    requires DraftAt(x, log0, first, m, i, j) && Next(x.o, x.csum, x.ops, m, m')
    ensures DraftAt(x, log0, first, m', i', j')
  {
    i', j' := i, j;
    if BuildStep(x.csum, x.ops, m, m') {
      if i < |x.ops| {
        EntryStepDrafts(x.csum, log0, first, x.ops, m, m');
        i', j' := m'.phase.i, m'.phase.j;
      } else {
        CommitStepDrafts(x.csum, log0, first, x.ops, m, m');
        j' := j + 1;
      }
    }
    hide Draft, Put, EntryStores, Apply, Scan;
  }

  lemma StartDrafts(log0: Log, first: Entry, ops: seq<Op>, log: Log)
    requires Loggable(ops) && log == log0[0 := first]
    ensures Draft(log0, first, ops, log, 0, 0)
  {
  }

  lemma StartDraftsAt(x: Context, log0: Log, first: Entry, m: Machine)
    requires Loggable(x.ops) && m.log == log0[0 := first] && m.phase == Building(0, 0)
    ensures DraftAt(x, log0, first, m, 0, 0)
  {
    hide Loggable, Draft;
    StartDrafts(log0, first, x.ops, m.log);
  }

  /** The state of a run before any of its log stores. */
  ghost predicate Untouched(run: seq<Machine>, k: nat)
    requires 0 <= k < |run|
  {
    run[0].phase.Wiping? && run[k].log == run[0].log && !run[k].phase.Building?
  }

  lemma RunSteps(x: Context, run: seq<Machine>, k: nat)
    requires Start(x) && IsRun(x, run) && k < |run|
    ensures Loggable(x.ops) && (run[0].phase == Building(0, 0) || run[0].phase == Wiping)
    ensures k > 0 ==> Next(x.o, x.csum, x.ops, run[k - 1], run[k])
  {
    assert Loggable(x.ops);
    hide Start, Next, Records, Revives, Loggable;
    if k > 0 {
      assert Next(x.o, x.csum, x.ops, run[k - 1], run[k - 1 + 1]);
    }
  }

  /** Every state of a run has a draft in its log, or the old log. */
  lemma {:induction false} RunDrafts(x: Context, run: seq<Machine>, k: nat) returns (first: Entry, i: nat, j: nat)
    requires Start(x) && IsRun(x, run) && k < |run|
    ensures first == if run[0].phase.Wiping? then EMPTY else run[0].log[0]
    ensures Untouched(run, k) || DraftAt(x, run[0].log, first, run[k], i, j)
    decreases k
  {
    hide Start, IsRun, Next, Loggable, DraftAt;
    RunSteps(x, run, k);
    first := if run[0].phase.Wiping? then EMPTY else run[0].log[0];
    i, j := 0, 0;
    if k == 0 {
      if !run[0].phase.Wiping? {
        assert run[0].log[0 := first] == run[0].log;
        StartDraftsAt(x, run[0].log, first, run[0]);
      }
    } else {
      var f, i0, j0 := RunDrafts(x, run, k - 1);
      if DraftAt(x, run[0].log, first, run[k - 1], i0, j0) {
        i, j := StepDrafts(x, run[0].log, first, run[k - 1], run[k], i0, j0);
      } else {
        UntouchedStep(x, run[k - 1], run[k]);
        if run[k].phase.Building? {
          StartDraftsAt(x, run[0].log, first, run[k]);
        }
      }
    }
  }

  lemma UntouchedStep(x: Context, m: Machine, m': Machine)
    requires Next(x.o, x.csum, x.ops, m, m') && !m.phase.Building?
    ensures m'.phase.Building? ==> m.phase.Wiping? && m'.phase == Building(0, 0) && m'.log == m.log[0 := EMPTY]
    ensures !m'.phase.Building? ==> m'.log == m.log
  {
  }

  // Where it holds no commit record ---------------------------------------------------------------------

  lemma NotCommitted(log: Log, first: Entry, ops: seq<Op>, i: nat, c: nat)
    requires Finished(log, first, ops, i) && c < i
    ensures log[c].tp != COMMIT
  {
    assert WfOp(ops[c]) && EntryDone(log[c], Base(first, c), ops[c]);
    TypesAreNotCommit(ops[c]);
  }

  lemma DraftNotCommitted(log0: Log, first: Entry, ops: seq<Op>, log: Log, i: nat, j: nat)
    requires Draft(log0, first, ops, log, i, j) && i < |ops| && first.tp != COMMIT
    ensures log[i].tp != COMMIT
  {
    TypesAreNotCommit(ops[i]);
  }

  // When drafts look finished ----------------------------------------------------------------------------

  lemma DoneIsCanon(e: Entry, op: Op)
    requires WfOp(op) && EntryDone(e, EMPTY, op)
    ensures e == Canon(op)
  {
  }

  /** Over a clean entry a buddy operation leaves what it leaves over an erased one. */
  lemma CleanIsCanon(e: Entry, first: Entry, op: Op)
    requires (op.BuddyAlloc? || op.BuddyFree?) && Clean(first) && EntryDone(e, first, op)
    ensures e == Canon(op) && Clean(e)
  {
    BuddyPayload(first.f, op);
    BuddyPayload(EMPTY.f, op);
  }

  lemma BuddyPayload(f: seq<nat>, op: Op)
    requires (op.BuddyAlloc? || op.BuddyFree?) && |f| == FIELDS
    ensures forall p :: p in FieldStores(op) ==> p.0 < |f|
    ensures PutFields(f, FieldStores(op)) == f[0 := op.pos.index][1 := op.pos.depth]
  {
    var fs, rest, f1 := FieldStores(op), [(1, op.pos.depth)], f[0 := op.pos.index];
    assert fs[1..] == rest && rest[1..] == [];
    assert PutFields(f, fs) == PutFields(f1, rest) == PutFields(f1[1 := op.pos.depth], []);
  }

  lemma DraftIsClean(e: Entry, first: Entry, op: Op, j: nat)
    requires (op.BuddyAlloc? || op.BuddyFree?) && Clean(first) && EntryDraft(e, first, op, j)
    ensures Clean(e)
  {
    var fs := FieldStores(op);
    FieldStoresDistinct(op);
    forall k | 2 <= k < FIELDS ensures e.f[k] == 0 {
      FieldKept(first.f, fs[..j - 1], k);
    }
  }

  /** A field not yet stored is still zero. */
  lemma NotYetStored(e: Entry, op: Op, j: nat, t: nat)
    requires WfOp(op) && EntryDraft(e, EMPTY, op, j) && j - 1 <= t < |FieldStores(op)|
    ensures FieldStores(op)[t].0 < FIELDS && e.f[FieldStores(op)[t].0] == 0
  {
    hide FieldStores, TypeOf, WfOp, PutFields;
    FieldStoresDistinct(op);
    var fs := FieldStores(op);
    forall p | p in fs[..j - 1] ensures p.0 < FIELDS && p.0 != fs[t].0 {
      var s :| 0 <= s < j - 1 && fs[..j - 1][s] == p;
      assert fs[s] == p;
    }
    FieldKept(EMPTY.f, fs[..j - 1], fs[t].0);
  }

  lemma AlreadyStored(e: Entry, op: Op, j: nat, t: nat)
    requires WfOp(op) && EntryDraft(e, EMPTY, op, j) && t < j - 1
    ensures FieldStores(op)[t].0 < FIELDS && e.f[FieldStores(op)[t].0] == FieldStores(op)[t].1
  {
    FieldStoresDistinct(op);
    var fs := FieldStores(op);
    assert forall s :: 0 <= s < j - 1 ==> fs[..j - 1][s] == fs[s];
    FieldWritten(EMPTY.f, fs[..j - 1], t);
  }

  /** If the draft equals a finished entry, its fields agree with that entry's wherever those are not zero. */
  lemma FieldAgrees(op: Op, op': Op, j: nat, t: nat)
    requires WfOp(op) && WfOp(op') && EntryDraft(Canon(op'), EMPTY, op, j) && t < |FieldStores(op)|
    ensures FieldStores(op)[t].0 < FIELDS
    ensures var v := Canon(op').f[FieldStores(op)[t].0];
            (v != 0 ==> t < j - 1) && (t < j - 1 ==> v == FieldStores(op)[t].1)
  {
    if t < j - 1 {
      AlreadyStored(Canon(op'), op, j, t);
    } else {
      NotYetStored(Canon(op'), op, j, t);
    }
  }

  lemma CanonField(op: Op, t: nat)
    requires WfOp(op) && t < |FieldStores(op)|
    ensures FieldStores(op)[t].0 < FIELDS && Canon(op).f[FieldStores(op)[t].0] == FieldStores(op)[t].1
  {
    FieldReadBack(EMPTY, op, t);
  }

  /** A draft of a two-value entry equals a finished one only when it is complete. */
  lemma TwoValDraft(op: Op, op': Op, j: nat)
    requires op.TwoVal? && op'.TwoVal? && op'.value2 != 0 && EntryDraft(Canon(op'), EMPTY, op, j)
    ensures op == op'
  {
    CanonField(op', 0); CanonField(op', 1); CanonField(op', 2); CanonField(op', 3);
    FieldAgrees(op, op', j, 0); FieldAgrees(op, op', j, 1); FieldAgrees(op, op', j, 2); FieldAgrees(op, op', j, 3);
  }

  /** A draft of a header entry equals a finished one only when it is complete: the machine is stored last. */
  lemma HeaderDraft(op: Op, op': Op, j: nat)
    requires WfOp(op) && WfOp(op') && op.HdrAlloc? && op'.HdrAlloc? && op'.machine != 0
    requires op'.rec != 0 && op'.length != 0 && EntryDraft(Canon(op'), EMPTY, op, j)
    ensures op == op'
  {
    hide EntryDraft, Canon;
    forall t | 0 <= t < 6
      ensures FieldStores(op)[t].0 == FieldStores(op')[t].0 < FIELDS
      ensures Canon(op').f[FieldStores(op)[t].0] == FieldStores(op')[t].1
      ensures (FieldStores(op')[t].1 != 0 ==> t < j - 1) && (t < j - 1 ==> FieldStores(op')[t].1 == FieldStores(op)[t].1)
    {
      CanonField(op', t);
      FieldAgrees(op, op', j, t);
    }
    assert FieldStores(op')[3] == (2, op'.length) && FieldStores(op')[5] == (F_NAME_SIZE, |op'.name|);
    assert j - 1 > 5;
    assert FieldStores(op)[0] == (0, op.rec) && FieldStores(op)[1] == (3, op.slot) && FieldStores(op)[2] == (1, op.obj);
    assert FieldStores(op)[4] == (4, op.available) && FieldStores(op)[5] == (F_NAME_SIZE, |op.name|);
    assert |op.name| == |op'.name|;
    forall t | 0 <= t < |op.name| ensures op.name[t] == op'.name[t] {
      NameByteAgrees(op, op', j, t);
    }
    assert op.name == op'.name;
    MachineAgrees(op, op', j);
  }

  lemma MachineAgrees(op: Op, op': Op, j: nat)
    requires WfOp(op) && WfOp(op') && op.HdrAlloc? && op'.HdrAlloc? && |op.name| == |op'.name| && op'.machine != 0
    requires EntryDraft(Canon(op'), EMPTY, op, j)
    ensures op.machine == op'.machine
  {
    hide EntryDraft, Canon;
    var t := |FieldStores(op)| - 1;
    assert FieldStores(op)[t] == (F_MACHINE, op.machine) && FieldStores(op')[t] == (F_MACHINE, op'.machine);
    CanonField(op', t);
    FieldAgrees(op, op', j, t);
  }

  lemma NameByteAgrees(op: Op, op': Op, j: nat, t: nat)
    requires WfOp(op) && WfOp(op') && op.HdrAlloc? && op'.HdrAlloc? && |op.name| == |op'.name| && t < |op.name|
    requires EntryDraft(Canon(op'), EMPTY, op, j)
    ensures op.name[t] == op'.name[t]
  {
    hide EntryDraft, Canon;
    if t < |op.name| - 1 {
      assert FieldStores(op)[6 + t] == (F_NAME + t, op.name[t]) && FieldStores(op')[6 + t] == (F_NAME + t, op'.name[t]);
      CanonField(op', 6 + t);
      FieldAgrees(op, op', j, 6 + t);
    }
  }
}
