/**
 The stores of one update in the order the driver makes them, and the crash machine they belong to: wherever
 the driver is cut, the crash machine has a run without crashes to the same log and metadata.
 */
module DriverTrace {
  import opened BuddyStatus
  import opened RedoLog
  import opened MetaStores
  import opened StoreSteps
  import opened StoreWork
  import opened CrashRecovery
  import CrashPoints
  import opened RunsToEnd

  /** A store to the log or to the metadata. */
  datatype Touch = ToLog(entry: LogStore) | ToMeta(store: Store)

  function Logged(ss: seq<LogStore>): (r: seq<Touch>)
    ensures |r| == |ss| && forall i :: 0 <= i < |r| ==> r[i] == ToLog(ss[i])
  {
    seq(|ss|, i requires 0 <= i < |ss| => ToLog(ss[i]))
  }

  function Stored(ss: seq<Store>): (r: seq<Touch>)
    ensures |r| == |ss| && forall i :: 0 <= i < |r| ==> r[i] == ToMeta(ss[i])
  {
    seq(|ss|, i requires 0 <= i < |ss| => ToMeta(ss[i]))
  }

  ghost predicate AllInLog(ss: seq<LogStore>) {
    forall s :: s in ss ==> InLog(s)
  }

  lemma EntryInLog(i: nat, op: Op)
    requires WfOp(op) && i < REDOLOG_ENTRIES
    ensures AllInLog(EntryStores(i, op))
  {
    FieldStoresDistinct(op);
    hide FieldStores, TypeOf;
  }

  lemma TailInLog(ss: seq<LogStore>, j: nat)
    requires AllInLog(ss) && j <= |ss|
    ensures AllInLog(ss[j..])
  {
  }

  /** The three stores of `set_commit_log_entry`. */
  function CommitStores(csum: Checksum, log: Log, n: nat): (r: seq<LogStore>)
    requires n + 1 < REDOLOG_ENTRIES
    ensures |r| == 3 && AllInLog(r)
  {
    [CommitStore(csum, log, n, 0), CommitStore(csum, log, n, 1), CommitStore(csum, log, n, 2)]
  }

  /** The stores that build and commit the log of an update, from store j of entry i on. */
  ghost function LogStores(csum: Checksum, ops: seq<Op>, log: Log, i: nat, j: nat): (r: seq<LogStore>)
    requires Loggable(ops) && i <= |ops| && j <= if i < |ops| then |EntryStores(i, ops[i])| else 3
    ensures AllInLog(r)
    decreases |ops| - i
  {
    if i == |ops| then CommitStores(csum, log, i)[j..]
    else
      EntryInLog(i, ops[i]);
      TailInLog(EntryStores(i, ops[i]), j);
      var now := EntryStores(i, ops[i])[j..];
      now + LogStores(csum, ops, PutAll(log, now), i + 1, 0)
  }

  /** The stores of a whole update: perhaps entry 0 is erased, the log is built and committed, and executed. */
  ghost function Touches(csum: Checksum, ops: seq<Op>, log: Log, wipes: bool): seq<Touch>
    requires Loggable(ops)
  {
    Logged(BuildStores(csum, ops, log, wipes)) + Stored(Kept(AllStores(ops)))
  }

  ghost function BuildStores(csum: Checksum, ops: seq<Op>, log: Log, wipes: bool): (r: seq<LogStore>)
    requires Loggable(ops)
    ensures AllInLog(r)
  {
    if wipes then [Erase(0)] + LogStores(csum, ops, Put(log, Erase(0)), 0, 0) else LogStores(csum, ops, log, 0, 0)
  }

  // Building -------------------------------------------------------------------------------------------------

  predicate AtPoint(ops: seq<Op>, i: nat, j: nat) {
    i <= |ops| && j < if i < |ops| then |EntryStores(i, ops[i])| else 3
  }

  /** Where the building stands after one more store, and what is left to store then. */
  lemma OneStoreLess(csum: Checksum, ops: seq<Op>, log: Log, i: nat, j: nat)
    requires Loggable(ops) && AtPoint(ops, i, j)
    ensures var ss := LogStores(csum, ops, log, i, j);
            && |ss| > 0 && InLog(ss[0])
            && ss[0] == (if i < |ops| then EntryStores(i, ops[i])[j] else CommitStore(csum, log, i, j))
            && var log' := Put(log, ss[0]);
               if i < |ops| && j + 1 == |EntryStores(i, ops[i])| then LogStores(csum, ops, log', i + 1, 0) == ss[1..]
               else LogStores(csum, ops, log', i, j + 1) == ss[1..]
  {
    hide LogStores, EntryStores, PutAll;
    if i == |ops| {
      LastAre(csum, ops, log, j);
      CommitOneLess(csum, ops, log, j);
      LastAre(csum, ops, Put(log, CommitStore(csum, log, i, j)), j + 1);
    } else {
      EntryOneLess(csum, ops, log, i, j);
    }
  }

  lemma LastAre(csum: Checksum, ops: seq<Op>, log: Log, j: nat)
    requires Loggable(ops) && j <= 3
    ensures LogStores(csum, ops, log, |ops|, j) == CommitStores(csum, log, |ops|)[j..]
  {
  }

  /** The rest of an entry, and then the entries after it. */
  lemma LogStoresAre(csum: Checksum, ops: seq<Op>, log: Log, i: nat, j: nat)
    requires Loggable(ops) && i < |ops| && j <= |EntryStores(i, ops[i])|
    ensures var now := EntryStores(i, ops[i])[j..];
            && AllInLog(now)
            && LogStores(csum, ops, log, i, j) == now + LogStores(csum, ops, PutAll(log, now), i + 1, 0)
  {
    hide EntryStores, PutAll;
    EntryInLog(i, ops[i]);
    TailInLog(EntryStores(i, ops[i]), j);
  }

  lemma PutFirst(log: Log, ss: seq<LogStore>)
    requires AllInLog(ss) && ss != []
    ensures InLog(ss[0]) && AllInLog(ss[1..]) && PutAll(log, ss) == PutAll(Put(log, ss[0]), ss[1..])
  {
  }

  lemma PutNone(log: Log)
    ensures PutAll(log, []) == log
  {
  }

  lemma EntryOneLess(csum: Checksum, ops: seq<Op>, log: Log, i: nat, j: nat)
    requires Loggable(ops) && i < |ops| && j < |EntryStores(i, ops[i])|
    ensures var ss := LogStores(csum, ops, log, i, j);
            && |ss| > 0 && InLog(ss[0]) && ss[0] == EntryStores(i, ops[i])[j]
            && var log' := Put(log, ss[0]);
               if j + 1 == |EntryStores(i, ops[i])| then LogStores(csum, ops, log', i + 1, 0) == ss[1..]
               else LogStores(csum, ops, log', i, j + 1) == ss[1..]
  {
    hide LogStores, EntryStores, PutAll, Put, Loggable;
    var es := EntryStores(i, ops[i]);
    LogStoresAre(csum, ops, log, i, j);
    var now := es[j..];
    PutFirst(log, now);
    assert now[0] == es[j] && now[1..] == es[j + 1..];
    var log' := Put(log, es[j]);
    var rest := LogStores(csum, ops, PutAll(log, now), i + 1, 0);
    assert (now + rest)[1..] == now[1..] + rest;
    if j + 1 == |es| {
      PutNone(log');
      assert now[1..] == [];
    } else {
      LogStoresAre(csum, ops, log', i, j + 1);
    }
  }

  lemma CommitOneLess(csum: Checksum, ops: seq<Op>, log: Log, j: nat)
    requires Loggable(ops) && j < 3
    ensures var n := |ops|;
            var s := CommitStore(csum, log, n, j);
            && CommitStores(csum, log, n)[j] == s && InLog(s)
            && CommitStores(csum, Put(log, s), n)[j + 1..] == CommitStores(csum, log, n)[j..][1..]
  {
    var n := |ops|;
    var s := CommitStore(csum, log, n, j);
    assert Put(log, s)[..n] == log[..n];
  }

  lemma OneStoreMore(x: Context, run: seq<Machine>, i: nat, j: nat) returns (more: seq<Machine>)
    requires Start(x) && IsRun(x, run) && Loggable(x.ops) && AtPoint(x.ops, i, j)
    requires run[|run| - 1].phase == Building(i, j) && Shape(x.o, run[|run| - 1].meta.tree)
    ensures IsRun(x, more) && |more| > 0 && GoesOn(x, run, more)
    ensures var m, m', ss := run[|run| - 1], more[|more| - 1],
                             LogStores(x.csum, x.ops, run[|run| - 1].log, i, j);
            && |ss| > 0 && m'.log == Put(m.log, ss[0]) && m'.meta == m.meta
            && if i == |x.ops| && j == 2 then
                 m'.phase == Executing(Work(AllStores(x.ops), Ground)) && ss == [ss[0]]
               else
                 && m'.phase.Building? && AtPoint(x.ops, m'.phase.i, m'.phase.j)
                 && LogStores(x.csum, x.ops, m'.log, m'.phase.i, m'.phase.j) == ss[1..]
  {
    hide Start, IsRun, Loggable, EntryStores, GoesOn, Next, AllStores, LogStores;
    RunIsSome(x, run);
    var m := run[|run| - 1];
    OneStoreLess(x.csum, x.ops, m.log, i, j);
    var s := LogStores(x.csum, x.ops, m.log, i, j)[0];
    var phase := NextPhase(x.ops, i, j);
    var m' := Machine(Put(m.log, s), m.meta, phase);
    MakesBuildStep(x.csum, x.ops, m, m', i, j, s);
    CrashPoints.BuildIsNext(x, m, m');
    OneOn(x, run, m');
    more := run + [m'];
    LastStoreLeft(x.csum, x.ops, m'.log, i, j);
    NextPoint(x.ops, i, j);
  }

  lemma MakesBuildStep(csum: Checksum, ops: seq<Op>, m: Machine, m': Machine, i: nat, j: nat, s: LogStore)
    requires Loggable(ops) && AtPoint(ops, i, j) && m.phase == Building(i, j) && InLog(s)
    requires s == if i < |ops| then EntryStores(i, ops[i])[j] else CommitStore(csum, m.log, i, j)
    requires m' == Machine(Put(m.log, s), m.meta, NextPhase(ops, i, j))
    ensures BuildStep(csum, ops, m, m')
  {
    hide EntryStores, AllStores, Put;
  }

  function NextPhase(ops: seq<Op>, i: nat, j: nat): Phase {
    if i < |ops| then if j + 1 == |EntryStores(i, ops[i])| then Building(i + 1, 0) else Building(i, j + 1)
    else if j == 2 then Executing(Work(AllStores(ops), Ground)) else Building(i, j + 1)
  }

  lemma NextPoint(ops: seq<Op>, i: nat, j: nat)
    requires Loggable(ops) && AtPoint(ops, i, j)
    ensures var p := NextPhase(ops, i, j); p.Building? ==> AtPoint(ops, p.i, p.j)
  {
    if i + 1 < |ops| {
      EntryStoreCount(i + 1, ops[i + 1]);
    }
  }

  lemma LastStoreLeft(csum: Checksum, ops: seq<Op>, log: Log, i: nat, j: nat)
    requires Loggable(ops) && i <= |ops|
    ensures i == |ops| && j == 2 ==> LogStores(csum, ops, log, i, j + 1) == []
  {
  }

  /** After any number of the stores still to make. */
  lemma {:induction false} FollowsBuilding(x: Context, run: seq<Machine>, i: nat, j: nat, k: nat)
    returns (more: seq<Machine>)
    requires Start(x) && IsRun(x, run) && Loggable(x.ops) && AtPoint(x.ops, i, j)
    requires run[|run| - 1].phase == Building(i, j) && Shape(x.o, run[|run| - 1].meta.tree)
    requires k <= |LogStores(x.csum, x.ops, run[|run| - 1].log, i, j)|
    ensures IsRun(x, more) && |more| > 0 && GoesOn(x, run, more)
    ensures var m, m', ss := run[|run| - 1], more[|more| - 1],
                             LogStores(x.csum, x.ops, run[|run| - 1].log, i, j);
            && AllInLog(ss[..k]) && m'.log == PutAll(m.log, ss[..k]) && m'.meta == m.meta
            && (k == |ss| ==> m'.phase == Executing(Work(AllStores(x.ops), Ground)))
    decreases k
  {
    hide Start, IsRun, Loggable, EntryStores, GoesOn, LogStores, AllStores;
    RunIsSome(x, run);
    var m := run[|run| - 1];
    var ss := LogStores(x.csum, x.ops, m.log, i, j);
    SomeLeft(x.csum, x.ops, m.log, i, j);
    assert ss[..0] == [];
    if k == 0 {
      more := run;
      StaysOn(x, run);
    } else {
      var on := OneStoreMore(x, run, i, j);
      var m1 := on[|on| - 1];
      assert ss[..k][0] == ss[0] && ss[..k][1..] == ss[1..][..k - 1];
      if i == |x.ops| && j == 2 {
        more := on;
        assert ss[1..][..k - 1] == [];
      } else {
        more := FollowsBuilding(x, on, m1.phase.i, m1.phase.j, k - 1);
        GoesOnOn(x, run, on, more);
      }
    }
  }

  lemma SomeLeft(csum: Checksum, ops: seq<Op>, log: Log, i: nat, j: nat)
    requires Loggable(ops) && AtPoint(ops, i, j)
    ensures |LogStores(csum, ops, log, i, j)| > 0
  {
    hide EntryStores;
  }

  lemma StaysOn(x: Context, run: seq<Machine>)
    requires Start(x) && IsRun(x, run)
    ensures GoesOn(x, run, run) && |run| > 0
  {
    hide Start, Next;
    assert run[..|run|] == run;
  }

  lemma GoesOnOn(x: Context, a: seq<Machine>, b: seq<Machine>, c: seq<Machine>)
    requires Start(x) && GoesOn(x, a, b) && GoesOn(x, b, c)
    ensures GoesOn(x, a, c)
  {
    hide Start, IsRun;
    ExtendsOn(x, a, b, c);
  }

  // Executing and recovering ---------------------------------------------------------------------------------

  /** A store is made write by write. */
  lemma {:induction false} MakesStore(x: Context, recovers: bool, run: seq<Machine>, todo: seq<Store>, climb: Climb)
    returns (more: seq<Machine>)
    requires Start(x) && IsRun(x, run) && todo != [] && Shape(x.o, run[|run| - 1].meta.tree)
    requires run[|run| - 1].phase == Working(recovers, Work(todo, climb)) && Climbable(x.o, climb, todo[0])
    requires climb.At? ==> OnWay(x.o, run[|run| - 1].meta.tree, todo[0], climb.q)
    ensures IsRun(x, more) && |more| > 0 && GoesOn(x, run, more)
    ensures var m := run[|run| - 1];
            more[|more| - 1]
            == Machine(m.log, Goal(x.o, m.meta, climb, todo[0]), Working(recovers, Work(todo[1..], Ground)))
    decreases Height(x.o, climb)
  {
    hide Start, IsRun, GoesOn, StoreNext, Goal, OnWay, Height, Next, Climbable;
    RunIsSome(x, run);
    var m := run[|run| - 1];
    StepTowards(x.o, m.meta, climb, todo[0]);
    StepDescends(x.o, m.meta, climb, todo[0]);
    var r := StoreNext(x.o, m.meta, climb, todo[0]);
    var w := Work(if r.done then todo[1..] else todo, r.climb);
    var m' := Machine(m.log, r.meta, Working(recovers, w));
    StoreIsNext(x, recovers, m, m', todo, climb);
    WorkingIsUp(recovers, w);
    OneOn(x, run, m');
    if r.done {
      more := run + [m'];
    } else {
      more := MakesStore(x, recovers, run + [m'], todo, r.climb);
      GoesOnOn(x, run, run + [m'], more);
    }
  }

  lemma StoreIsNext(x: Context, recovers: bool, m: Machine, m': Machine, todo: seq<Store>, climb: Climb)
    requires todo != [] && Shape(x.o, m.meta.tree) && m.phase == Working(recovers, Work(todo, climb))
    requires Climbable(x.o, climb, todo[0])
    requires var r := StoreNext(x.o, m.meta, climb, todo[0]);
             m' == Machine(m.log, r.meta, Working(recovers, Work(if r.done then todo[1..] else todo, r.climb)))
    ensures Next(x.o, x.csum, x.ops, m, m')
  {
    hide StoreNext, Next;
    assert if recovers then ReplayStep(x.o, m, m') else ExecuteStep(x.o, m, m');
    WorkIsNext(x, m, m');
  }

  /** After any number of whole stores before the first halt. */
  lemma {:induction false} FollowsWork(x: Context, recovers: bool, run: seq<Machine>, todo: seq<Store>, k: nat)
    returns (more: seq<Machine>)
    requires Start(x) && IsRun(x, run) && Shape(x.o, run[|run| - 1].meta.tree) && AllPlaced(x.o, todo)
    requires run[|run| - 1].phase == Working(recovers, Work(todo, Ground)) && k <= |Kept(todo)|
    ensures IsRun(x, more) && |more| > 0 && GoesOn(x, run, more)
    ensures AllStorable(x.o, Kept(todo)[..k])
    ensures var m := run[|run| - 1];
            more[|more| - 1].log == m.log && more[|more| - 1].meta == ApplyAll(x.o, m.meta, Kept(todo)[..k])
    decreases k
  {
    hide Start, IsRun, GoesOn;
    RunIsSome(x, run);
    var m := run[|run| - 1];
    if k == 0 {
      more := run;
      StaysOn(x, run);
    } else {
      var s := todo[0];
      assert Kept(todo)[0] == s && Kept(todo) == [s] + Kept(todo[1..]);
      assert s in todo && Storable(x.o, s);
      var on := MakesStore(x, recovers, run, todo, Ground);
      assert AllPlaced(x.o, todo[1..]);
      more := FollowsWork(x, recovers, on, todo[1..], k - 1);
      GoesOnOn(x, run, on, more);
      assert Kept(todo)[..k] == [s] + Kept(todo[1..])[..k - 1];
      assert Kept(todo)[..k][1..] == Kept(todo[1..])[..k - 1];
    }
  }

  // The whole update -----------------------------------------------------------------------------------------

  /** The log and the metadata after some touches. */
  datatype Memory = Memory(log: Log, meta: Meta)

  ghost predicate Touchable(o: nat, ts: seq<Touch>) {
    forall t :: t in ts ==> if t.ToLog? then InLog(t.entry) else Storable(o, t.store)
  }

  ghost function Touched(o: nat, mem: Memory, ts: seq<Touch>): (r: Memory)
    requires Shape(o, mem.meta.tree) && Touchable(o, ts)
    ensures Shape(o, r.meta.tree)
    decreases |ts|
  {
    if ts == [] then mem
    else
      var t := ts[0];
      var next := if t.ToLog? then mem.(log := Put(mem.log, t.entry)) else mem.(meta := Apply(o, mem.meta, t.store));
      Touched(o, next, ts[1..])
  }

  lemma {:induction false} TouchedLog(o: nat, mem: Memory, ss: seq<LogStore>)
    requires Shape(o, mem.meta.tree) && AllInLog(ss)
    ensures Touchable(o, Logged(ss)) && Touched(o, mem, Logged(ss)) == mem.(log := PutAll(mem.log, ss))
    decreases |ss|
  {
    if ss != [] {
      assert Logged(ss)[1..] == Logged(ss[1..]);
      TouchedLog(o, mem.(log := Put(mem.log, ss[0])), ss[1..]);
    }
  }

  lemma {:induction false} TouchedMeta(o: nat, mem: Memory, ss: seq<Store>)
    requires Shape(o, mem.meta.tree) && AllStorable(o, ss)
    ensures Touchable(o, Stored(ss)) && Touched(o, mem, Stored(ss)) == mem.(meta := ApplyAll(o, mem.meta, ss))
    decreases |ss|
  {
    if ss != [] {
      assert Stored(ss)[1..] == Stored(ss[1..]);
      TouchedMeta(o, mem.(meta := Apply(o, mem.meta, ss[0])), ss[1..]);
    }
  }

  lemma {:induction false} TouchedJoin(o: nat, mem: Memory, a: seq<Touch>, b: seq<Touch>)
    requires Shape(o, mem.meta.tree) && Touchable(o, a) && Touchable(o, b)
    ensures Touchable(o, a + b) && Touched(o, mem, a + b) == Touched(o, Touched(o, mem, a), b)
    decreases |a|
  {
    if a == [] {
      assert a + b == b;
    } else {
      assert (a + b)[1..] == a[1..] + b;
      var t := a[0];
      TouchedJoin(o, if t.ToLog? then mem.(log := Put(mem.log, t.entry)) else mem.(meta := Apply(o, mem.meta, t.store)),
                  a[1..], b);
    }
  }

  /** The first step of an update that erases entry 0 before it builds. */
  lemma WipesFirst(x: Context, log: Log) returns (run: seq<Machine>)
    requires Start(x) && Records(x.csum, log, x.last, x.stale) && !Revives(x, log)
    ensures |run| == 2 && IsRun(x, run) && IsRun(x, run[..1]) && run[0] == Machine(log, x.pre, Wiping)
    ensures run[1] == Machine(Put(log, Erase(0)), x.pre, Building(0, 0))
  {
    hide Start, Records, Revives, Next;
    StartFacts(x);
    var m, m' := Machine(log, x.pre, Wiping), Machine(Put(log, Erase(0)), x.pre, Building(0, 0));
    CrashPoints.WipeIsNext(x, m, m');
    run := [m, m'];
    assert run[..1] == [m];
  }

  /** A run up to any number of the stores to the log. */
  lemma CutWhileBuilding(x: Context, log: Log, wipes: bool, k: nat) returns (run: seq<Machine>)
    requires Start(x) && Records(x.csum, log, x.last, x.stale) && !Revives(x, log) && Loggable(x.ops)
    requires k <= |BuildStores(x.csum, x.ops, log, wipes)|
    ensures |run| > 0 && IsRun(x, run) && run[0].log == log && forall i :: 0 <= i < |run| ==> !run[i].phase.Down?
    ensures AllInLog(BuildStores(x.csum, x.ops, log, wipes)[..k])
    ensures run[|run| - 1].log == PutAll(log, BuildStores(x.csum, x.ops, log, wipes)[..k])
    ensures run[|run| - 1].meta == x.pre
    ensures k == |BuildStores(x.csum, x.ops, log, wipes)| ==>
              run[|run| - 1].phase == Executing(Work(AllStores(x.ops), Ground))
  {
    hide Start, Records, Revives, Next, LogStores, EntryStores, AllStores, Loggable;
    StartFacts(x);
    FirstPoint(x.ops);
    var ss := BuildStores(x.csum, x.ops, log, wipes);
    if wipes {
      var two := WipesFirst(x, log);
      if k == 0 {
        run := two[..1];
        assert ss[..0] == [];
      } else {
        run := FollowsBuilding(x, two, 0, 0, k - 1);
        assert ss[..k][0] == Erase(0) && ss[..k][1..] == LogStores(x.csum, x.ops, Put(log, Erase(0)), 0, 0)[..k - 1];
        OnFrom(x, two, run);
      }
    } else {
      var one := [Machine(log, x.pre, Building(0, 0))];
      run := FollowsBuilding(x, one, 0, 0, k);
      OnFrom(x, one, run);
    }
  }

  lemma FirstPoint(ops: seq<Op>)
    requires Loggable(ops)
    ensures |ops| > 0 && AtPoint(ops, 0, 0)
  {
    EntryStoreCount(0, ops[0]);
  }

  lemma OnFrom(x: Context, a: seq<Machine>, b: seq<Machine>)
    requires Start(x) && GoesOn(x, a, b) && |a| > 0 && forall i :: 0 <= i < |a| ==> !a[i].phase.Down?
    ensures |b| > 0 && b[0] == a[0] && forall i :: 0 <= i < |b| ==> !b[i].phase.Down?
  {
    hide Start, IsRun;
    assert forall i :: 0 <= i < |a| ==> b[..|a|][i] == b[i];
  }

  /**
   Wherever the driver is cut between two of its stores, the crash machine has a run without crashes to
   just this log and this metadata. So whatever is proved of all runs of the machine, with any crashes from
   there on, holds of the driver.
   */
  lemma CutIsReached(x: Context, log: Log, wipes: bool, k: nat) returns (run: seq<Machine>)
    requires Start(x) && Records(x.csum, log, x.last, x.stale) && !Revives(x, log)
    requires k <= |Touches(x.csum, x.ops, log, wipes)|
    ensures |run| > 0 && IsRun(x, run) && run[0].log == log && forall i :: 0 <= i < |run| ==> !run[i].phase.Down?
    ensures var ts := Touches(x.csum, x.ops, log, wipes)[..k];
            && Touchable(x.o, ts)
            && Memory(run[|run| - 1].log, run[|run| - 1].meta) == Touched(x.o, Memory(log, x.pre), ts)
  {
    hide Start, Records, Revives, IsRun, BuildStores, AllStores, Loggable, PutAll, ApplyAll, GoesOn;
    StartFacts(x);
    var ss, ts := BuildStores(x.csum, x.ops, log, wipes), Touches(x.csum, x.ops, log, wipes);
    var mem := Memory(log, x.pre);
    if k <= |ss| {
      run := CutWhileBuilding(x, log, wipes, k);
      assert ts[..k] == Logged(ss[..k]);
      TouchedLog(x.o, mem, ss[..k]);
    } else {
      var built := CutWhileBuilding(x, log, wipes, |ss|);
      StoresPlaced(x);
      run := FollowsWork(x, false, built, AllStores(x.ops), k - |ss|);
      OnFrom(x, built, run);
      var made := Kept(AllStores(x.ops))[..k - |ss|];
      assert ss[..|ss|] == ss;
      assert ts[..k] == Logged(ss) + Stored(made);
      TouchedLog(x.o, mem, ss);
      TouchedMeta(x.o, mem.(log := PutAll(log, ss)), made);
      TouchedJoin(x.o, mem, Logged(ss), Stored(made));
    }
  }

  /** The same for recovery: wherever it is cut, the machine has gone on to this metadata without a further crash. */
  lemma RecoveryIsReached(x: Context, run: seq<Machine>, k: nat) returns (more: seq<Machine>)
    requires Start(x) && IsRun(x, run) && run[|run| - 1].phase == Down && Shape(x.o, run[|run| - 1].meta.tree)
    requires AllPlaced(x.o, ReplayStores(x.csum, run[|run| - 1].log))
    requires k <= |Kept(ReplayStores(x.csum, run[|run| - 1].log))|
    ensures |more| > 0 && IsRun(x, more) && GoesOn(x, run, more)
    ensures var m, ts := run[|run| - 1], Stored(Kept(ReplayStores(x.csum, run[|run| - 1].log)))[..k];
            && Touchable(x.o, ts)
            && Memory(more[|more| - 1].log, more[|more| - 1].meta) == Touched(x.o, Memory(m.log, m.meta), ts)
  {
    hide Start, IsRun, GoesOn, AllStores, ApplyAll, ReplayStores, Next;
    RunIsSome(x, run);
    var m := run[|run| - 1];
    var todo := ReplayStores(x.csum, m.log);
    var on := Scans(x, run);
    var made := Kept(todo)[..k];
    assert Stored(Kept(todo))[..k] == Stored(made);
    if on[|on| - 1].phase.Recovering? {
      more := FollowsWork(x, true, on, todo, k);
      GoesOnOn(x, run, on, more);
      TouchedMeta(x.o, Memory(m.log, m.meta), made);
    } else {
      more := on;
      assert made == [];
    }
  }

  lemma Scans(x: Context, run: seq<Machine>) returns (more: seq<Machine>)
    requires Start(x) && IsRun(x, run) && run[|run| - 1].phase == Down && Shape(x.o, run[|run| - 1].meta.tree)
    ensures |more| > 0 && IsRun(x, more) && GoesOn(x, run, more)
    ensures var m, m' := run[|run| - 1], more[|more| - 1];
            && m'.log == m.log && m'.meta == m.meta
            && if m'.phase.Recovering? then m'.phase == Recovering(Work(ReplayStores(x.csum, m.log), Ground))
               else ReplayStores(x.csum, m.log) == []
  {
    hide Start, IsRun, AllStores, BuildStep, WipeStep, ReplayStep, ExecuteStep, CrashStep, GoesOn, Extends;
    RunIsSome(x, run);
    var m := run[|run| - 1];
    var m' := m.(phase := match Scan(x.csum, m.log)
                          case NoCommit => Recovered(false)
                          case BadChecksum => Recovered(true)
                          case Replay(_) => Recovering(Work(ReplayStores(x.csum, m.log), Ground)));
    assert ScanStep(x.csum, m, m');
    OneOn(x, run, m');
    more := run + [m'];
  }

  lemma StoresPlaced(x: Context)
    requires Start(x)
    ensures AllPlaced(x.o, AllStores(x.ops))
  {
    hide Ideal, Settled, AllStores;
  }
}
