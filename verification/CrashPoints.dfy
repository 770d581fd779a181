/**
 What recovery makes of a crash, by where it fell. A crash while a log is built over an older one
 leaves the metadata intact, but recovery may find an old commit record over changed entries, or the
 new one without its checksum, and report an error; or an old one over the very entries it was made
 for, and replay them.
 */
module CrashPoints {
  import opened BuddyStatus
  import opened RedoLog
  import opened MetaStores
  import opened CrashRecovery
  import opened LogDraft

  /** Index of the first old entry that the building has not come to. */
  function Onward(at: Phase): nat {
    if at.Building? then at.i + 1 else 0
  }

  /** The record at c of the old log was made for the entries that are under it now. */
  ghost predicate Made(x: Context, log0: Log, log: Log, c: nat)
    requires c < REDOLOG_ENTRIES
  {
    || (Names(x.csum, log0[c], c, x.last) && log[..c] == x.last)
    || (Names(x.csum, log0[c], c, x.stale) && log[..c] == x.stale)
  }

  /** The old record that recovery finds first after a crash at this point, if there is one. */
  ghost function OldRecord(log0: Log, at: Phase): nat {
    if Onward(at) <= REDOLOG_ENTRIES then FirstCommit(log0, Onward(at)) else REDOLOG_ENTRIES
  }

  /**
   The crashes that recovery refuses: after the type of the new record was stored and before its
   checksum, or before an old record was erased and when the entries under it are not its own.
   */
  ghost predicate Refused(x: Context, log0: Log, at: Phase, log: Log) {
    var c := OldRecord(log0, at);
    at == Building(|x.ops|, 1) || (c < REDOLOG_ENTRIES && !Made(x, log0, log, c))
  }

  /** The crashes after which recovery replays the stale entries: they are complete under their old record. */
  ghost predicate Revived(x: Context, log0: Log, at: Phase, log: Log) {
    var c := OldRecord(log0, at);
    && at != Building(|x.ops|, 1) && x.stale != x.last
    && c < REDOLOG_ENTRIES && Names(x.csum, log0[c], c, x.stale) && log[..c] == x.stale
  }

  // One point ------------------------------------------------------------------------------------------

  /** A state of the building before the checksum, over the old log. */
  ghost predicate Over(x: Context, log0: Log, m: Machine) {
    || (m.phase.Wiping? && m.log == log0)
    || (m.phase.Building? && m.phase != Building(|x.ops|, 2) && (m.phase.i == |x.ops| ==> m.phase.j < 2)
        && exists first: Entry :: first.tp != COMMIT && Draft(log0, first, x.ops, m.log, m.phase.i, m.phase.j))
  }

  /** Where the first record of the log is. */
  lemma FirstRecord(x: Context, log0: Log, m: Machine)
    requires Over(x, log0, m) && Loggable(x.ops)
    ensures var c := FirstCommit(m.log, 0);
            if m.phase == Building(|x.ops|, 1) then c == |x.ops| < REDOLOG_ENTRIES && m.log[c].f[F_CHECKSUM] == 0
            else c == OldRecord(log0, m.phase) && (c < REDOLOG_ENTRIES ==> m.log[c] == log0[c])
  {
    if m.phase.Building? {
      var i, j := m.phase.i, m.phase.j;
      var first: Entry :| first.tp != COMMIT && Draft(log0, first, x.ops, m.log, i, j);
      hide Over, Draft, FirstCommit, Loggable;
      DraftRecords(log0, first, x.ops, m.log, i, j);
      if i < REDOLOG_ENTRIES {
        FirstBeyond(log0, m.log, i);
      }
    }
  }

  /** The records of a draft: its own once its type is stored, and the old ones it has not come to. */
  lemma DraftRecords(log0: Log, first: Entry, ops: seq<Op>, log: Log, i: nat, j: nat)
    requires Draft(log0, first, ops, log, i, j) && first.tp != COMMIT && (i == |ops| ==> j < 2)
    ensures i <= |ops| < REDOLOG_ENTRIES && forall e :: 0 <= e < i ==> log[e].tp != COMMIT
    ensures if i == |ops| && j == 1 then log[i] == EMPTY.(tp := COMMIT) else log[i].tp != COMMIT
    ensures forall e :: i < e < REDOLOG_ENTRIES ==> log[e] == log0[e]
  {
    forall e | 0 <= e < i ensures log[e].tp != COMMIT {
      NotCommitted(log, first, ops, i, e);
    }
    if i < |ops| {
      DraftNotCommitted(log0, first, ops, log, i, j);
    }
    hide EntryDone, EntryDraft, Base, TypeOf;
  }

  lemma FirstBeyond(log0: Log, log: Log, i: nat)
    requires i < REDOLOG_ENTRIES && (forall e :: 0 <= e < i ==> log[e].tp != COMMIT)
    requires forall e :: i < e < REDOLOG_ENTRIES ==> log[e] == log0[e]
    ensures FirstCommit(log, 0) == if log[i].tp == COMMIT then i else FirstCommit(log0, i + 1)
  {
    var c, c' := FirstCommit(log, 0), FirstCommit(log0, i + 1);
    hide FirstCommit;
  }

  /** An old record checks exactly when the entries under it are its own. */
  lemma ChecksExact(x: Context, log0: Log, log: Log, c: nat)
    requires Ideal(x.csum) && Records(x.csum, log0, x.last, x.stale) && c < REDOLOG_ENTRIES && log0[c].tp == COMMIT
    ensures x.csum(log[..c]) == log0[c].f[F_CHECKSUM] <==> Made(x, log0, log, c)
  {
  }

  /** The verdict of recovery, by the point of the crash. */
  lemma PointExact(x: Context, log0: Log, m: Machine)
    requires Ideal(x.csum) && Loggable(x.ops) && Records(x.csum, log0, x.last, x.stale) && Over(x, log0, m)
    ensures Scan(x.csum, m.log).BadChecksum? <==> Refused(x, log0, m.phase, m.log)
    ensures Revives(x, m.log) <==> Revived(x, log0, m.phase, m.log)
  {
    hide Over, Records, Loggable, FirstCommit;
    FirstRecord(x, log0, m);
    var c := FirstCommit(m.log, 0);
    if m.phase == Building(|x.ops|, 1) {
      assert x.csum(m.log[..c]) != 0;
    } else if c < REDOLOG_ENTRIES {
      RecordThere(log0, m.phase);
      ChecksExact(x, log0, m.log, c);
    }
  }

  lemma RecordThere(log0: Log, at: Phase)
    requires OldRecord(log0, at) < REDOLOG_ENTRIES
    ensures log0[OldRecord(log0, at)].tp == COMMIT
  {
  }

  // Over runs ---------------------------------------------------------------------------------------

  /** Every state of the building is over the log the run started from. */
  lemma RunAt(x: Context, run: seq<Machine>, k: nat)
    requires Start(x) && IsRun(x, run) && k < |run| && !Stored(x, run)
    requires run[k].phase.Wiping? || run[k].phase.Building?
    ensures Over(x, run[0].log, run[k])
  {
    assert |run| > 0 && run[0].log[0].tp != COMMIT;
    hide Start, IsRun, Draft;
    var first, i, j := RunDrafts(x, run, k);
    NotPast(x, run, k);
  }

  /** The update stored its checksum. */
  ghost predicate Stored(x: Context, run: seq<Machine>) {
    exists i :: 0 <= i < |run| && AtCommitPoint(x, run[i])
  }

  /** Without the checksum the building does not get past its point. */
  lemma {:induction false} NotPast(x: Context, run: seq<Machine>, k: nat)
    requires Start(x) && IsRun(x, run) && k < |run| && !Stored(x, run)
    ensures run[k].phase.Building? && run[k].phase.i == |x.ops| ==> run[k].phase.j < 2
    decreases k
  {
    hide Start;
    if k > 0 && run[k].phase.Building? {
      NotPast(x, run, k - 1);
      assert Next(x.o, x.csum, x.ops, run[k - 1], run[k - 1 + 1]);
      PointStep(x, run[k - 1], run[k]);
      assert !AtCommitPoint(x, run[k]);
    }
  }

  lemma PointStep(x: Context, m: Machine, m': Machine)
    requires Next(x.o, x.csum, x.ops, m, m') && m'.phase.Building?
    ensures m'.phase.i == |x.ops| && m'.phase.j > 0 ==> m.phase == Building(|x.ops|, m'.phase.j - 1)
  {
    hide Put;
  }

  /** Once a run has left the building without the checksum, it does not come back to it. */
  lemma StaysOut(x: Context, m: Machine, m': Machine)
    requires Next(x.o, x.csum, x.ops, m, m') && !m.phase.Wiping? && !m.phase.Building?
    ensures m'.log == m.log && !m'.phase.Wiping? && !m'.phase.Building?
  {
  }

  lemma LeavesLog(x: Context, m: Machine, m': Machine)
    requires Next(x.o, x.csum, x.ops, m, m') && !m'.phase.Wiping? && !m'.phase.Building? && !AtCommitPoint(x, m)
    requires m.phase.Building? && m.phase.i == |x.ops| ==> m.phase.j < 2
    ensures m'.log == m.log
  {
    hide Put;
  }

  /** The crash: the last state before it, whose log recovery then finds. */
  lemma {:induction false} CrashPoint(x: Context, run: seq<Machine>, j: nat) returns (k: nat)
    requires Start(x) && IsRun(x, run) && !Stored(x, run) && j < |run|
    ensures k <= j && (run[k].phase.Wiping? || run[k].phase.Building?) && run[k].log == run[j].log
    ensures run[j].phase.Wiping? || run[j].phase.Building? ==> k == j
    decreases j
  {
    hide Start, Next, Records, Revives;
    if run[j].phase.Wiping? || run[j].phase.Building? {
      k := j;
    } else {
      assert Next(x.o, x.csum, x.ops, run[j - 1], run[j - 1 + 1]) && !AtCommitPoint(x, run[j - 1]);
      NotPast(x, run, j - 1);
      LeavesLog(x, run[j - 1], run[j]);
      k := CrashPoint(x, run, j - 1);
    }
  }

  lemma {:induction false} OutToEnd(x: Context, run: seq<Machine>, i: nat, j: nat)
    requires Start(x) && IsRun(x, run) && i <= j < |run| && !run[i].phase.Wiping? && !run[i].phase.Building?
    ensures run[j].log == run[i].log && !run[j].phase.Wiping? && !run[j].phase.Building?
    decreases j
  {
    hide Start, Next, Records, Revives;
    if i < j {
      OutToEnd(x, run, i, j - 1);
      assert Next(x.o, x.csum, x.ops, run[j - 1], run[j - 1 + 1]);
      StaysOut(x, run[j - 1], run[j]);
    }
  }

  /**
   When recovery reports an error, by the crash that led to it: the update had not stored its
   checksum, and the crash fell where recovery refuses the log.
   */
  lemma RecoveryErrorExact(x: Context, run: seq<Machine>) returns (k: nat)
    requires Start(x) && IsRun(x, run) && Trusted(x, run) && run[|run| - 1].phase.Recovered?
    ensures !Stored(x, run) ==>
              k < |run| && (run[k].phase.Wiping? || run[k].phase.Building?) && run[k].log == run[|run| - 1].log
    ensures run[|run| - 1].phase.error <==>
              !Stored(x, run) && k < |run| && Refused(x, run[0].log, run[k].phase, run[k].log)
  {
    assert |run| > 0;
    FirstRecords(x, run);
    hide Start, Took, IsRun, Trusted, Spoilt, Revives, InvAt, Scan, Stored, Refused, Over;
    var end := |run| - 1;
    RunInvariant(x, run);
    ErrorIsVerdict(x, run[end], Took(x, run), Spoilt(x.o, run));
    k := 0;
    if Stored(x, run) {
      StoredTook(x, run);
    } else {
      k := CrashPoint(x, run, end);
      RunAt(x, run, k);
      PointExact(x, run[0].log, run[k]);
    }
  }

  lemma FirstRecords(x: Context, run: seq<Machine>)
    requires Start(x) && IsRun(x, run)
    ensures Records(x.csum, run[0].log, x.last, x.stale) && Ideal(x.csum) && Loggable(x.ops)
  {
    hide Next, Records, Ideal, Settled;
  }

  lemma StoredTook(x: Context, run: seq<Machine>)
    requires Stored(x, run)
    ensures Took(x, run)
  {
    hide Revives;
    var i :| 0 <= i < |run| && AtCommitPoint(x, run[i]);
    assert TookAt(x, run[i]);
  }

  /** A finished recovery reports what its scan finds. */
  lemma ErrorIsVerdict(x: Context, m: Machine, took: bool, spoilt: bool)
    requires Start(x) && InvAt(x, m, took, spoilt) && m.phase.Recovered?
    ensures m.phase.error <==> Scan(x.csum, m.log).BadChecksum?
    ensures took ==> !m.phase.error
    ensures !took ==> !Revives(x, m.log)
  {
    hide Start, Uncommitted, Scan, Revives;
    if took {
      hide Committed, Spoiled;
      TakenFacts(x, m, spoilt);
      NoErrorOnceTaken(x, m, spoilt);
    } else {
      UntakenVerdict(x, m);
    }
  }

  lemma UntakenVerdict(x: Context, m: Machine)
    requires Start(x) && Uncommitted(x, m) && m.phase.Recovered?
    ensures m.phase.error <==> Scan(x.csum, m.log).BadChecksum?
    ensures !Revives(x, m.log)
  {
    hide Start, LogOk, Revives, Scan;
  }

  lemma NoErrorOnceTaken(x: Context, m: Machine, spoilt: bool)
    requires Start(x) && InvAt(x, m, true, spoilt) && m.phase.Recovered?
    ensures !m.phase.error
  {
    hide Start, LogCommitted, Later, Ahead, AllStores, Post;
  }

  /**
   When an update takes effect: it stored its checksum, or the crash fell when the stale entries were
   complete under their old record.
   */
  lemma TookExact(x: Context, run: seq<Machine>) returns (k: nat)
    requires Start(x) && IsRun(x, run) && Trusted(x, run) && run[|run| - 1].phase.Recovered?
    ensures !Stored(x, run) ==>
              k < |run| && (run[k].phase.Wiping? || run[k].phase.Building?) && run[k].log == run[|run| - 1].log
    ensures Took(x, run) <==>
              Stored(x, run) || (k < |run| && Revived(x, run[0].log, run[k].phase, run[k].log))
  {
    assert |run| > 0;
    FirstRecords(x, run);
    hide Start, Took, IsRun, Trusted, Spoilt, Revives, InvAt, Scan, Stored, Revived, Over;
    var end := |run| - 1;
    k := |run|;
    if Stored(x, run) {
      StoredTook(x, run);
    } else {
      k := CrashPoint(x, run, end);
      RunAt(x, run, k);
      PointExact(x, run[0].log, run[k]);
      if Took(x, run) {
        TookRevives(x, run);
      } else {
        RunInvariant(x, run);
        ErrorIsVerdict(x, run[end], false, Spoilt(x.o, run));
      }
    }
  }

  lemma TookRevives(x: Context, run: seq<Machine>)
    requires Start(x) && IsRun(x, run) && Took(x, run) && !Stored(x, run)
    ensures Revives(x, run[|run| - 1].log)
  {
    hide Start, IsRun, Revives, Stored;
    RunIsSome(x, run);
    NoneStored(x, run);
    var i :| 0 <= i < |run| && TookAt(x, run[i]);
    OutToEnd(x, run, i, |run| - 1);
  }

  lemma NoneStored(x: Context, run: seq<Machine>)
    requires !Stored(x, run)
    ensures forall i :: 0 <= i < |run| ==> !AtCommitPoint(x, run[i])
  {
  }

  // Such runs exist -----------------------------------------------------------------------------------

  predicate Point(ops: seq<Op>, i: nat, j: nat) {
    if i < |ops| then j < |EntryStores(i, ops[i])| else i == |ops| && j <= 1
  }

  /** A run that is still building, without a crash and before its checksum. It may erase entry 0 first. */
  ghost predicate IsBuilding(x: Context, log: Log, wipes: bool, run: seq<Machine>) {
    && Start(x) && IsRun(x, run) && run[0].log == log && run[0].phase == (if wipes then Wiping else Building(0, 0))
    && forall k :: 0 <= k < |run| ==>
         (run[k].phase.Building? || k == 0) && run[k].phase != Building(|x.ops|, 2) && run[k].meta == x.pre
  }

  /** Every point of the building before the checksum is reached by some run without crashes. */
  lemma {:induction false} ReachPoint(x: Context, log: Log, wipes: bool, i: nat, j: nat) returns (run: seq<Machine>)
    requires Start(x) && Records(x.csum, log, x.last, x.stale) && !Revives(x, log) && Point(x.ops, i, j)
    ensures IsBuilding(x, log, wipes, run) && |run| > 0 && run[|run| - 1].phase == Building(i, j)
    decreases i, j
  {
    hide *;
    StartFacts(x);
    if i == 0 && j == 0 {
      run := AtStart(x, log, wipes);
      BuildingFacts(x, log, wipes, run);
    } else {
      var i', j' := PointBefore(x.ops, i, j);
      var before := ReachPoint(x, log, wipes, i', j');
      run := OneMore(x, log, wipes, before, i', j');
    }
  }

  lemma PointBefore(ops: seq<Op>, i: nat, j: nat) returns (i': nat, j': nat)
    requires Loggable(ops) && Point(ops, i, j) && (i, j) != (0, 0)
    ensures Point(ops, i', j') && (i', j') != (|ops|, 1) && (i' < i || (i' == i && j' < j))
    ensures (i, j) == if i' < |ops| && j' + 1 == |EntryStores(i', ops[i'])| then (i' + 1, 0) else (i', j' + 1)
  {
    hide EntryStores;
    if j == 0 {
      i' := i - 1;
      EntryStoreCount(i', ops[i']);
      j' := |EntryStores(i', ops[i'])| - 1;
    } else {
      i', j' := i, j - 1;
    }
  }

  lemma AtStart(x: Context, log: Log, wipes: bool) returns (run: seq<Machine>)
    requires Start(x) && Records(x.csum, log, x.last, x.stale) && !Revives(x, log)
    ensures IsBuilding(x, log, wipes, run) && run[|run| - 1].phase == Building(0, 0)
  {
    hide Start, Records, Revives, Next, IsBuilding;
    StartFacts(x);
    var m := Machine(log, x.pre, if wipes then Wiping else Building(0, 0));
    run := [m];
    FirstState(x, log, wipes, m);
    if wipes {
      var m' := Machine(Put(log, Erase(0)), x.pre, Building(0, 0));
      WipeIsNext(x, m, m');
      RunMore(x, run, m');
      BuildingMore(x, log, wipes, run, m');
      run := run + [m'];
    }
  }

  lemma FirstState(x: Context, log: Log, wipes: bool, m: Machine)
    requires Start(x) && Records(x.csum, log, x.last, x.stale) && !Revives(x, log)
    requires m == Machine(log, x.pre, if wipes then Wiping else Building(0, 0))
    ensures IsRun(x, [m]) && IsBuilding(x, log, wipes, [m])
  {
    StartFacts(x);
    hide Start, Records, Revives, Next;
  }

  lemma WipeIsNext(x: Context, m: Machine, m': Machine)
    requires Shape(x.o, m.meta.tree) && WipeStep(m, m')
    ensures Next(x.o, x.csum, x.ops, m, m')
  {
    hide BuildStep, WipeStep, ExecuteStep, CrashStep, ScanStep, ReplayStep;
  }

  /** The next store of an entry. */
  lemma EntryStep(csum: Checksum, ops: seq<Op>, m: Machine) returns (m': Machine)
    requires Loggable(ops) && m.phase.Building? && m.phase.i < |ops|
    requires m.phase.j < |EntryStores(m.phase.i, ops[m.phase.i])|
    ensures BuildStep(csum, ops, m, m')
    ensures m'.phase == if m.phase.j + 1 == |EntryStores(m.phase.i, ops[m.phase.i])| then Building(m.phase.i + 1, 0)
                        else Building(m.phase.i, m.phase.j + 1)
  {
    var (i, j) := (m.phase.i, m.phase.j);
    EntryStoreAt(i, ops[i], j);
    FieldStoresDistinct(ops[i]);
    hide FieldStores, TypeOf;
    var ss := EntryStores(i, ops[i]);
    assert InLog(ss[j]);
    m' := Machine(Put(m.log, ss[j]), m.meta, if j + 1 == |ss| then Building(i + 1, 0) else Building(i, j + 1));
  }

  lemma CommitStep(csum: Checksum, ops: seq<Op>, m: Machine) returns (m': Machine)
    requires Loggable(ops) && m.phase == Building(|ops|, 0)
    ensures BuildStep(csum, ops, m, m') && m'.phase == Building(|ops|, 1)
  {
    m' := Machine(Put(m.log, SetType(|ops|, COMMIT)), m.meta, Building(|ops|, 1));
  }

  /** The next store of the building. */
  lemma OneMore(x: Context, log: Log, wipes: bool, run: seq<Machine>, i: nat, j: nat) returns (more: seq<Machine>)
    requires IsBuilding(x, log, wipes, run) && run[|run| - 1].phase == Building(i, j) && Point(x.ops, i, j)
    requires (i, j) != (|x.ops|, 1)
    ensures IsBuilding(x, log, wipes, more) && |more| > 0
    ensures more[|more| - 1].phase
         == if i < |x.ops| && j + 1 == |EntryStores(i, x.ops[i])| then Building(i + 1, 0) else Building(i, j + 1)
  {
    hide IsBuilding, Start, IsRun, EntryStores, Loggable, BuildStep, Next;
    BuildingFacts(x, log, wipes, run);
    var m := run[|run| - 1];
    var m';
    if i < |x.ops| {
      m' := EntryStep(x.csum, x.ops, m);
    } else {
      m' := CommitStep(x.csum, x.ops, m);
    }
    BuildOnlyLogs(x, m, m');
    BuildIsNext(x, m, m');
    RunMore(x, run, m');
    BuildingMore(x, log, wipes, run, m');
    more := run + [m'];
  }

  lemma BuildingFacts(x: Context, log: Log, wipes: bool, run: seq<Machine>)
    requires IsBuilding(x, log, wipes, run)
    ensures |run| > 0 && Start(x) && IsRun(x, run) && Loggable(x.ops)
    ensures run[0].log == log && run[0].phase == if wipes then Wiping else Building(0, 0)
    ensures run[|run| - 1].meta == x.pre && Shape(x.o, run[|run| - 1].meta.tree)
    ensures !Stored(x, run)
  {
    hide AllStores, Settled, Ideal, Records, Revives, Next;
  }

  lemma BuildingMore(x: Context, log: Log, wipes: bool, run: seq<Machine>, m': Machine)
    requires IsBuilding(x, log, wipes, run) && Start(x) && IsRun(x, run + [m'])
    requires m'.phase.Building? && m'.phase != Building(|x.ops|, 2) && m'.meta == x.pre
    ensures IsBuilding(x, log, wipes, run + [m'])
  {
    hide Start, Records, Revives, Next;
  }

  lemma BuildIsNext(x: Context, m: Machine, m': Machine)
    requires Shape(x.o, m.meta.tree) && BuildStep(x.csum, x.ops, m, m')
    ensures Next(x.o, x.csum, x.ops, m, m')
  {
    hide BuildStep, WipeStep, ExecuteStep, CrashStep, ScanStep, ReplayStep;
  }

  lemma BuildOnlyLogs(x: Context, m: Machine, m': Machine)
    requires BuildStep(x.csum, x.ops, m, m')
    ensures m'.meta == m.meta
  {
  }

  lemma RunMore(x: Context, run: seq<Machine>, m': Machine)
    requires Start(x) && IsRun(x, run) && Next(x.o, x.csum, x.ops, run[|run| - 1], m')
    ensures IsRun(x, run + [m']) && (run + [m'])[0] == run[0]
  {
    hide Next, Start, Records, Revives;
    var more := run + [m'];
    forall k | 0 <= k < |more| - 1 ensures Next(x.o, x.csum, x.ops, more[k], more[k + 1]) {
      if k < |run| - 1 {
        assert more[k] == run[k] && more[k + 1] == run[k + 1];
      } else {
        assert more[k] == run[|run| - 1] && more[k + 1] == m';
      }
    }
  }

  /** A crash at a refused point, and the recovery that reports it. */
  lemma RefusedRun(x: Context, log: Log, before: seq<Machine>) returns (run: seq<Machine>)
    requires IsBuilding(x, log, false, before)
    requires var m := before[|before| - 1]; Refused(x, log, m.phase, m.log)
    ensures Start(x) && IsRun(x, run) && run[0].log == log
    ensures run[|run| - 1].phase == Recovered(true) && run[|run| - 1].meta == x.pre
  {
    hide IsBuilding, Scan, Start, Refused, BuildStep, ExecuteStep, ReplayStep, WipeStep, IsRun, Stored, Over;
    BuildingFacts(x, log, false, before);
    var m := before[|before| - 1];
    FirstRecords(x, before);
    LastIsBuilding(x, log, before);
    RunAt(x, before, |before| - 1);
    PointExact(x, log, m);
    var down, refused := m.(phase := Down), m.(phase := Recovered(true));
    RunMore(x, before, down);
    assert ScanStep(x.csum, down, refused);
    RunMore(x, before + [down], refused);
    run := before + [down] + [refused];
  }

  lemma LastIsBuilding(x: Context, log: Log, run: seq<Machine>)
    requires IsBuilding(x, log, false, run)
    ensures |run| > 0 && run[|run| - 1].phase.Building?
  {
    hide Start;
  }

  /** A crash when i entries are complete, before an old record of more entries is erased, is refused. */
  lemma RebuildIsRefused(x: Context, log: Log, i: nat) returns (run: seq<Machine>)
    requires Start(x) && Records(x.csum, log, x.last, x.stale) && !Revives(x, log) && 1 <= i <= |x.ops|
    requires i < REDOLOG_ENTRIES && FirstCommit(log, i + 1) < REDOLOG_ENTRIES
    requires (i < |x.last| ==> x.last[i].tp != INVALID) && (i < |x.stale| ==> x.stale[i].tp != INVALID)
    ensures IsRun(x, run) && run[0].log == log && run[|run| - 1].phase == Recovered(true)
    ensures run[|run| - 1].meta == x.pre
  {
    StartFacts(x);
    hide Start, Records, Revives, IsRun, FirstCommit, IsBuilding, Draft, EntryStores;
    if i < |x.ops| {
      EntryStoreCount(i, x.ops[i]);
    }
    var before := ReachPoint(x, log, false, i, 0);
    BuildingFacts(x, log, false, before);
    var m := before[|before| - 1];
    var first, i', j := RunDrafts(x, before, |before| - 1);
    NextIsErased(log, first, x.ops, m.log, i);
    ErasedIsRefused(x, log, m.log, i);
    run := RefusedRun(x, log, before);
  }

  lemma ErasedIsRefused(x: Context, log0: Log, log: Log, i: nat)
    requires i < REDOLOG_ENTRIES && FirstCommit(log0, i + 1) < REDOLOG_ENTRIES && log[i] == EMPTY
    requires (i < |x.last| ==> x.last[i].tp != INVALID) && (i < |x.stale| ==> x.stale[i].tp != INVALID)
    ensures Refused(x, log0, Building(i, 0), log)
  {
    hide FirstCommit;
    var c := FirstCommit(log0, i + 1);
    assert log[..c][i] == EMPTY;
  }

  lemma NextIsErased(log0: Log, first: Entry, ops: seq<Op>, log: Log, i: nat)
    requires Draft(log0, first, ops, log, i, 0) && i > 0
    ensures i < REDOLOG_ENTRIES && log[i] == EMPTY
  {
    hide EntryDone, EntryDraft;
  }

  /** A crash between the type of the commit record and its checksum is refused, whatever the old log. */
  lemma CommitIsRefused(x: Context, log: Log) returns (run: seq<Machine>)
    requires Start(x) && Records(x.csum, log, x.last, x.stale) && !Revives(x, log)
    ensures IsRun(x, run) && run[0].log == log && run[|run| - 1].phase == Recovered(true)
    ensures run[|run| - 1].meta == x.pre
  {
    hide Records, Revives, Start, IsRun, IsBuilding;
    var before := ReachPoint(x, log, false, |x.ops|, 1);
    BuildingFacts(x, log, false, before);
    run := RefusedRun(x, log, before);
  }

  /** The run up to the checksum. Behind its own record the old log is as it was. */
  lemma ReachChecksum(x: Context, log: Log, wipes: bool) returns (run: seq<Machine>)
    requires Start(x) && Records(x.csum, log, x.last, x.stale) && !Revives(x, log)
    ensures |x.ops| < REDOLOG_ENTRIES - 1 && |run| > 0 && IsRun(x, run) && run[0].log == log
    ensures run[0].phase == (if wipes then Wiping else Building(0, 0))
    ensures AtCommitPoint(x, run[|run| - 1]) && run[|run| - 1].meta == x.pre
    ensures forall e :: |x.ops| < e < REDOLOG_ENTRIES ==> run[|run| - 1].log[e] == log[e]
    ensures !Spoilt(x.o, run)
  {
    hide Records, Revives, Start, IsRun, BuildStep, Next, IsBuilding, Draft;
    StartFacts(x);
    var before := ReachPoint(x, log, wipes, |x.ops|, 1);
    BuildingFacts(x, log, wipes, before);
    var m := before[|before| - 1];
    var first, i, j := RunDrafts(x, before, |before| - 1);
    BehindDraft(log, first, x.ops, m.log);
    var m' := ChecksumStep(x.csum, x.ops, m);
    BuildOnlyLogs(x, m, m');
    BuildIsNext(x, m, m');
    RunMore(x, before, m');
    run := before + [m'];
    NoCrashYet(x, log, wipes, before, m');
  }

  lemma NoCrashYet(x: Context, log: Log, wipes: bool, run: seq<Machine>, m': Machine)
    requires IsBuilding(x, log, wipes, run) && m'.phase.Building?
    ensures !Spoilt(x.o, run + [m'])
  {
    hide Start, IsRun, InsideChain;
  }

  lemma BehindDraft(log0: Log, first: Entry, ops: seq<Op>, log: Log)
    requires Draft(log0, first, ops, log, |ops|, 1)
    ensures forall e :: |ops| < e < REDOLOG_ENTRIES ==> log[e] == log0[e]
  {
    hide Finished;
  }

  lemma ChecksumStep(csum: Checksum, ops: seq<Op>, m: Machine) returns (m': Machine)
    requires Loggable(ops) && m.phase == Building(|ops|, 1)
    ensures BuildStep(csum, ops, m, m') && m'.phase == Building(|ops|, 2)
    ensures forall c :: 0 <= c < REDOLOG_ENTRIES && c != |ops| ==> m'.log[c] == m.log[c]
  {
    m' := Machine(Put(m.log, SetField(|ops|, F_CHECKSUM, csum(m.log[..|ops|]))), m.meta, Building(|ops|, 2));
  }

  /**
   A shorter update over a longer log: when it stores its checksum, the older record is still there,
   one entry past its own, and a crash now leaves both.
   */
  lemma SecondRecordIsLeft(x: Context, log: Log) returns (run: seq<Machine>)
    requires Start(x) && Records(x.csum, log, x.last, x.stale) && !Revives(x, log)
    requires |x.last| == |x.ops| + 1 < REDOLOG_ENTRIES
    requires log[|x.last|].tp == COMMIT && Names(x.csum, log[|x.last|], |x.last|, x.last)
    ensures IsRun(x, run) && run[0].log == log && AtCommitPoint(x, run[|run| - 1])
    ensures var end := run[|run| - 1].log[|x.last|];
            end.tp == COMMIT && Names(x.csum, end, |x.last|, x.last)
  {
    hide Records, Revives, Start, IsRun;
    run := ReachChecksum(x, log, false);
  }
}
