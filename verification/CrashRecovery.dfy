/**
 One logged update, cut by crashes at any store, and its recovery.
 A machine builds its log store by store, commits it, executes it; it may crash at any
 point, and recovery scans the log, replays it when the commit record checks, and may itself
 crash any number of times. Executing an entry may also halt the machine, at a null pointer.
 A buddy operation is executed status by status, so crashes also fall between two of its writes, or
 inside one and leave any value in that status.
 */
module CrashRecovery {
  import opened BuddyPositions
  import opened BuddyStatus
  import opened BuddyCuts
  import opened RedoLog
  import opened MetaStores
  import opened StoreSteps
  import opened StoreWork

  type Checksum = seq<Entry> -> nat

  /** A checksum that matches only what was summed, and never matches an erased field. */
  ghost predicate Ideal(csum: Checksum) {
    && (forall a, b :: csum(a) == csum(b) ==> a == b)
    && (forall a :: csum(a) != 0)
  }

  function Ops(es: seq<Entry>): (r: seq<Op>)
    ensures |r| == |es| && forall i :: 0 <= i < |r| ==> r[i] == Decode(es[i])
  {
    seq(|es|, i requires 0 <= i < |es| => Decode(es[i]))
  }

  /** Index of the first COMMIT from `i` on, or the log length. */
  function FirstCommit(log: Log, i: nat): (r: nat)
    requires i <= REDOLOG_ENTRIES
    ensures i <= r <= REDOLOG_ENTRIES
    ensures forall e :: i <= e < r ==> log[e].tp != COMMIT
    ensures r < REDOLOG_ENTRIES ==> log[r].tp == COMMIT
    decreases REDOLOG_ENTRIES - i
  {
    if i == REDOLOG_ENTRIES || log[i].tp == COMMIT then i else FirstCommit(log, i + 1)
  }

  datatype Verdict = NoCommit | BadChecksum | Replay(n: nat)

  /** The scan of `recover_with_redolog`. */
  function Scan(csum: Checksum, log: Log): (v: Verdict)
    ensures v.Replay? ==> v.n < REDOLOG_ENTRIES
  {
    var i := FirstCommit(log, 0);
    if i == REDOLOG_ENTRIES then NoCommit
    else if csum(log[..i]) == log[i].f[F_CHECKSUM] then Replay(i)
    else BadChecksum
  }

  /** What recovery will store. */
  function ReplayStores(csum: Checksum, log: Log): seq<Store> {
    var v := Scan(csum, log);
    if v.Replay? then AllStores(Ops(log[..v.n])) else []
  }

  // The update ----------------------------------------------------------------------------

  datatype Phase =
    | Wiping                        // entry 0 is to be erased first, as freeing does
    | Building(i: nat, j: nat)      // i entries built, j stores made of the next one
    | Executing(work: Work)
    | Done
    | Halted
    | Down
    | Recovering(work: Work)
    | Recovered(error: bool)

  datatype Machine = Machine(log: Log, meta: Meta, phase: Phase)

  ghost predicate Loggable(ops: seq<Op>) {
    1 <= |ops| <= REDOLOG_ENTRIES - 2 && forall i :: 0 <= i < |ops| ==> WfOp(ops[i])
  }

  /** An update is well formed: its entries can be written, and its stores hit different places. */
  ghost predicate Update(o: nat, ops: seq<Op>) {
    Loggable(ops) && AllPlaced(o, AllStores(ops)) && Independent(Kept(AllStores(ops)))
  }

  lemma PlainUpdate(o: nat, ops: seq<Op>)
    requires Loggable(ops) && AllStorable(o, AllStores(ops)) && Independent(AllStores(ops))
    ensures Update(o, ops) && Halt !in AllStores(ops)
  {
    KeptAll(AllStores(ops));
  }

  /** The three stores of `set_commit_log_entry` at position n. */
  function CommitStore(csum: Checksum, log: Log, n: nat, j: nat): LogStore
    requires n + 1 < REDOLOG_ENTRIES && j < 3
  {
    if j == 0 then SetType(n, COMMIT)
    else if j == 1 then SetField(n, F_CHECKSUM, csum(log[..n]))
    else Erase(n + 1)
  }

  ghost predicate WipeStep(m: Machine, m': Machine) {
    m.phase.Wiping? && m' == Machine(Put(m.log, Erase(0)), m.meta, Building(0, 0))
  }

  ghost predicate BuildStep(csum: Checksum, ops: seq<Op>, m: Machine, m': Machine) {
    && m.phase.Building? && m'.meta == m.meta
    && var (i, j) := (m.phase.i, m.phase.j);
       if i < |ops| then
         var ss := EntryStores(i, ops[i]);
         && j < |ss| && InLog(ss[j])
         && m'.log == Put(m.log, ss[j])
         && m'.phase == (if j + 1 == |ss| then Building(i + 1, 0) else Building(i, j + 1))
       else
         && i == |ops| && i + 1 < REDOLOG_ENTRIES && j < 3
         && m'.log == Put(m.log, CommitStore(csum, m.log, i, j))
         && m'.phase == (if j == 2 then Executing(Work(AllStores(ops), Ground)) else Building(i, j + 1))
  }

  ghost predicate ExecuteStep(o: nat, m: Machine, m': Machine)
    requires Shape(o, m.meta.tree)
  {
    && m.phase.Executing? && m'.log == m.log
    && var todo := m.phase.work.todo;
       if todo == [] then m'.meta == m.meta && m'.phase == Done
       else if todo[0].Halt? then m'.meta == m.meta && m'.phase == Halted
       else m'.phase.Executing? && WorkStep(o, m.meta, m.phase.work, m'.meta, m'.phase.work)
  }

  /** The status that is being written is torn. */
  ghost predicate Tears(o: nat, m: Machine, m': Meta) {
    && (m.phase.Executing? || m.phase.Recovering?) && Shape(o, m.meta.tree)
    && var w := m.phase.work;
       && w.todo != [] && Climbable(o, w.climb, w.todo[0])
       && Torn(o, m.meta.tree, w.climb, w.todo[0], m'.tree) && m' == m.meta.(tree := m'.tree)
  }

  ghost predicate CrashStep(o: nat, m: Machine, m': Machine) {
    m'.log == m.log && m'.phase == Down && (m'.meta == m.meta || Tears(o, m, m'.meta))
  }

  ghost predicate ScanStep(csum: Checksum, m: Machine, m': Machine) {
    && m.phase == Down
    && m' == m.(phase := match Scan(csum, m.log)
                          case NoCommit => Recovered(false)
                          case BadChecksum => Recovered(true)
                          case Replay(_) => Recovering(Work(ReplayStores(csum, m.log), Ground)))
  }

  ghost predicate ReplayStep(o: nat, m: Machine, m': Machine)
    requires Shape(o, m.meta.tree)
  {
    && m.phase.Recovering? && m'.log == m.log
    && var todo := m.phase.work.todo;
       if todo == [] then m'.meta == m.meta && m'.phase == Recovered(false)
       else if todo[0].Halt? then m'.meta == m.meta && m'.phase == Halted
       else m'.phase.Recovering? && WorkStep(o, m.meta, m.phase.work, m'.meta, m'.phase.work)
  }

  ghost predicate Next(o: nat, csum: Checksum, ops: seq<Op>, m: Machine, m': Machine) {
    && Shape(o, m.meta.tree)
    && (|| WipeStep(m, m')
        || BuildStep(csum, ops, m, m')
        || ExecuteStep(o, m, m')
        || CrashStep(o, m, m')
        || ScanStep(csum, m, m')
        || ReplayStep(o, m, m'))
  }

  // Invariant -------------------------------------------------------------------------------

  /** Replaying the entries `last` changes nothing in `meta`. */
  ghost predicate Settled(o: nat, last: seq<Entry>, meta: Meta)
    requires Shape(o, meta.tree)
  {
    var ss := AllStores(Ops(last));
    AllStorable(o, ss) && OneOnTree(ss) && forall s :: s in ss ==> Apply(o, meta, s) == meta
  }

  /** The commit record `e` at index c is that of the entries `es`. */
  ghost predicate Names(csum: Checksum, e: Entry, c: nat, es: seq<Entry>) {
    c == |es| && e.f[F_CHECKSUM] == csum(es)
  }

  /**
   The commit records that can still check: that of the last committed entries, and a stale one
   that a shorter update has left behind. Usually the two are the same.
   */
  ghost predicate Records(csum: Checksum, log: Log, last: seq<Entry>, stale: seq<Entry>) {
    forall c :: 0 <= c < REDOLOG_ENTRIES && log[c].tp == COMMIT ==>
      c > 0 && (log[c].f[F_CHECKSUM] == 0 || Names(csum, log[c], c, last) || Names(csum, log[c], c, stale))
  }

  ghost predicate Written(log: Log, ops: seq<Op>, n: nat)
    requires n <= |ops| <= REDOLOG_ENTRIES
  {
    forall e :: 0 <= e < n ==> log[e].tp == TypeOf(ops[e]) && Decode(log[e]) == ops[e]
  }

  /** The entry under construction: type stored, and the first j - 1 payload stores made. */
  ghost predicate Partial(e: Entry, op: Op, j: nat)
    requires WfOp(op)
  {
    FieldStoresDistinct(op);
    var fs := FieldStores(op);
    && 1 <= j <= |fs| + 1 && e.tp == TypeOf(op)
    && exists was: Entry :: e.f == PutFields(was.f, fs[..j - 1])
  }

  ghost predicate LogCommitted(csum: Checksum, log: Log, ops: seq<Op>)
    requires |ops| < REDOLOG_ENTRIES
  {
    var n := |ops|;
    Written(log, ops, n) && log[n].tp == COMMIT && log[n].f[F_CHECKSUM] == csum(log[..n])
  }

  /** The update, the state it starts from, and the entries of the records that the log may hold then. */
  datatype Context = Context(o: nat, csum: Checksum, ops: seq<Op>, pre: Meta, last: seq<Entry>, stale: seq<Entry>)

  ghost predicate Start(x: Context) {
    && Ideal(x.csum) && Shape(x.o, x.pre.tree) && Update(x.o, x.ops)
    && Settled(x.o, x.last, x.pre)
  }

  lemma StartFacts(x: Context)
    requires Start(x)
    ensures Ideal(x.csum) && Loggable(x.ops) && Shape(x.o, x.pre.tree)
  {
    hide Ideal, Settled, Independent, AllStores;
  }

  /** The state when all stores are made, or those before the halt. */
  ghost function Post(x: Context): Meta
    requires Start(x)
  {
    RunStores(x.o, x.pre, AllStores(x.ops)).meta
  }

  /** Recovery would replay something other than the last committed entries. */
  ghost predicate Revives(x: Context, log: Log) {
    var v := Scan(x.csum, log);
    v.Replay? && log[..v.n] != x.last
  }

  /** What recovery would replay then is this very update. */
  ghost predicate Honest(x: Context, log: Log)
    requires Start(x)
  {
    Revives(x, log) ==> LogCommitted(x.csum, log, x.ops)
  }

  ghost predicate BuildingOk(x: Context, m: Machine)
    requires Start(x) && m.phase.Building?
  {
    var (i, j, n) := (m.phase.i, m.phase.j, |x.ops|);
    && i <= n && Written(m.log, x.ops, i)
    && (i < n && j > 0 ==> Partial(m.log[i], x.ops[i], j))
    && (i > 0 && j == 0 ==> m.log[i] == EMPTY)
    && (i == n ==> j <= 1 && (j == 1 ==> m.log[n] == EMPTY.(tp := COMMIT)))
  }

  /** The log of an update before its commit. */
  ghost predicate LogOk(x: Context, log: Log)
    requires Start(x)
  {
    Records(x.csum, log, x.last, x.stale) && Honest(x, log)
  }

  ghost predicate Uncommitted(x: Context, m: Machine)
    requires Start(x)
  {
    && LogOk(x, m.log)
    && match m.phase
       case Wiping => m.meta == x.pre
       case Building(_, _) => m.meta == x.pre && BuildingOk(x, m)
       case Down =>
         && m.meta == x.pre.(tree := m.meta.tree) && (m.meta == x.pre || !Revives(x, m.log))
         && OffByMark(x.pre.tree, m.meta.tree, Kept(ReplayStores(x.csum, m.log)))
       case Recovering(w) =>
         && Scan(x.csum, m.log).Replay? && !Revives(x, m.log) && SettledWork(x, m, w)
       case Recovered(error) => m.meta == x.pre && error == Scan(x.csum, m.log).BadChecksum? && !Revives(x, m.log)
       case _ => false
  }

  /** What is left of a replay that changes nothing. */
  ghost predicate SettledWork(x: Context, m: Machine, w: Work) {
    && Shape(x.o, x.pre.tree) && AllStorable(x.o, w.todo) && OneOnTree(w.todo)
    && (forall s :: s in w.todo ==> Apply(x.o, x.pre, s) == x.pre)
    && Suffix(w.todo, ReplayStores(x.csum, m.log))
    && m.meta == x.pre.(tree := m.meta.tree) && Mending(x.o, x.pre.tree, m.meta.tree, w)
  }

  /** Past the update's own record only the earlier ones can check. */
  ghost predicate Later(x: Context, log: Log) {
    forall c :: |x.ops| < c < REDOLOG_ENTRIES && log[c].tp == COMMIT ==>
      log[c].f[F_CHECKSUM] == 0 || Names(x.csum, log[c], c, x.last) || Names(x.csum, log[c], c, x.stale)
  }

  /** All but the first k stores before the halt are still to come, and lead to `post`. */
  ghost predicate Ahead(o: nat, m: Meta, ss: seq<Store>, k: nat, post: Meta) {
    && Shape(o, m.tree) && AllPlaced(o, ss) && k <= |Kept(ss)|
    && AllStorable(o, Kept(ss)[k..]) && ApplyAll(o, m, Kept(ss)[k..]) == post
  }

  /** Restarting the stores from here, and going on with `todo`, both lead to the state after the update. */
  ghost predicate Leads(x: Context, m: Meta, todo: seq<Store>)
    requires Start(x)
  {
    var ss := AllStores(x.ops);
    && Ahead(x.o, m, ss, 0, Post(x))
    && Suffix(todo, ss) && Ahead(x.o, m, ss, |ss| - |todo|, Post(x))
  }

  /** The same of work with a buddy operation under way, once that is finished. */
  ghost predicate WorkOk(x: Context, m: Meta, w: Work)
    requires Start(x)
  {
    if w.climb.Ground? then Leads(x, m, w.todo)
    else
      && Shape(x.o, m.tree) && w.todo != [] && Suffix(w.todo, AllStores(x.ops))
      && Storable(x.o, w.todo[0]) && OnWay(x.o, m.tree, w.todo[0], w.climb.q)
      && var goal := Goal(x.o, m, w.climb, w.todo[0]);
         Apply(x.o, goal, w.todo[0]) == goal && Leads(x, goal, w.todo[1..])
  }

  ghost predicate AtEnd(x: Context, m: Meta)
    requires Start(x)
  {
    m == Post(x) && Ahead(x.o, m, AllStores(x.ops), 0, Post(x))
  }

  ghost predicate Committed(x: Context, m: Machine)
    requires Start(x)
  {
    var ss := AllStores(x.ops);
    && LogCommitted(x.csum, m.log, x.ops) && Later(x, m.log)
    && match m.phase
       case Wiping => false
       case Building(i, j) => i == |x.ops| && j == 2 && m.meta == x.pre
       case Executing(w) => WorkOk(x, m.meta, w)
       case Done => AtEnd(x, m.meta) && Halt !in ss
       case Halted => AtEnd(x, m.meta) && Halt in ss
       case Down => Ahead(x.o, m.meta, ss, 0, Post(x))
       case Recovering(w) => WorkOk(x, m.meta, w)
       case Recovered(error) => AtEnd(x, m.meta) && Halt !in ss && !error
  }

  /** The state if the tree were that of the finished update. */
  ghost function Mend(x: Context, m: Meta): Meta
    requires Start(x)
  {
    m.(tree := Post(x).tree)
  }

  ghost function Mended(x: Context, m: Machine): Machine
    requires Start(x)
  {
    Machine(m.log, Mend(x, m.meta), match m.phase
                                    case Executing(w) => Executing(Work(Rest(w), Ground))
                                    case Recovering(w) => Recovering(Work(Rest(w), Ground))
                                    case p => p)
  }

  function ClimbOf(p: Phase): Climb {
    if p.Executing? || p.Recovering? then p.work.climb else Ground
  }

  /** Committed but for the tree, which is t or will be, and t has statuses wrong that no replay writes. */
  ghost predicate SpoiledBy(x: Context, m: Machine, t: seq<nat>)
    requires Start(x)
  {
    && StillAll(x.o, t, Kept(AllStores(x.ops))) && Differs(x.o, t, Post(x).tree) && Committed(x, Mended(x, m))
    && match m.phase
       case Executing(w) => Mending(x.o, t, m.meta.tree, w)
       case Recovering(w) => Mending(x.o, t, m.meta.tree, w)
       case Down => OffByMark(t, m.meta.tree, Kept(AllStores(x.ops)))
       case _ => m.meta.tree == t
  }

  ghost predicate Spoiled(x: Context, m: Machine)
    requires Start(x)
  {
    exists t: seq<nat> :: SpoiledBy(x, m, t)
  }

  // Building keeps the invariant --------------------------------------------------------------

  lemma {:induction false} PutFieldsAppend(f: seq<nat>, fs: seq<(nat, nat)>, p: (nat, nat))
    requires p.0 < |f| && forall q :: q in fs ==> q.0 < |f|
    ensures PutFields(f, fs + [p]) == PutFields(f, fs)[p.0 := p.1]
    decreases |fs|
  {
    if fs != [] {
      assert (fs + [p])[1..] == fs[1..] + [p];
      PutFieldsAppend(f[fs[0].0 := fs[0].1], fs[1..], p);
    }
  }

  lemma PartialFirst(e: Entry, op: Op)
    requires WfOp(op)
    ensures Partial(e.(tp := TypeOf(op)), op, 1)
  {
    FieldStoresDistinct(op);
    assert FieldStores(op)[..0] == [];
    assert e.f == PutFields(e.f, FieldStores(op)[..0]);
  }

  lemma PartialNext(e: Entry, op: Op, j: nat)
    requires WfOp(op) && Partial(e, op, j) && j <= |FieldStores(op)|
    ensures FieldStores(op)[j - 1].0 < FIELDS
    ensures Partial(Raw(e.tp, e.f[FieldStores(op)[j - 1].0 := FieldStores(op)[j - 1].1]), op, j + 1)
  {
    FieldStoresDistinct(op);
    var fs := FieldStores(op);
    var was: Entry :| e.f == PutFields(was.f, fs[..j - 1]);
    assert fs[..j] == fs[..j - 1] + [fs[j - 1]];
    PutFieldsAppend(was.f, fs[..j - 1], fs[j - 1]);
    assert e.f[fs[j - 1].0 := fs[j - 1].1] == PutFields(was.f, fs[..j]);
  }

  lemma PartialLast(e: Entry, op: Op)
    requires WfOp(op) && Partial(e, op, |FieldStores(op)| + 1)
    ensures e.tp == TypeOf(op) && Decode(e) == op
  {
    FieldStoresDistinct(op);
    var fs := FieldStores(op);
    assert fs[..|fs|] == fs;
    var was: Entry :| e.f == PutFields(was.f, fs[..|fs|]);
    BuiltEntryDecodes(was, op);
    assert e == Raw(TypeOf(op), BuiltFields(was, op));
  }

  lemma TypesAreNotCommit(op: Op)
    ensures TypeOf(op) != COMMIT
  {
  }

  lemma EntryStoreCount(i: nat, op: Op)
    requires i + 1 < REDOLOG_ENTRIES
    ensures |EntryStores(i, op)| == |FieldStores(op)| + 2
  {
  }

  lemma EntryStoreAt(i: nat, op: Op, j: nat)
    requires WfOp(op) && i + 1 < REDOLOG_ENTRIES && j < |EntryStores(i, op)|
    ensures |EntryStores(i, op)| == |FieldStores(op)| + 2
    ensures EntryStores(i, op)[j] ==
            if j == 0 then SetType(i, TypeOf(op))
            else if j <= |FieldStores(op)| then SetField(i, FieldStores(op)[j - 1].0, FieldStores(op)[j - 1].1)
            else Erase(i + 1)
  {
  }

  /** A store that makes no commit record and touches none leaves the records as they are. */
  lemma RecordsKept(csum: Checksum, log: Log, s: LogStore, last: seq<Entry>, stale: seq<Entry>)
    requires Records(csum, log, last, stale) && InLog(s)
    requires (s.SetType? ==> s.tp != COMMIT) && (s.SetField? ==> log[s.i].tp != COMMIT)
    ensures Records(csum, Put(log, s), last, stale)
  {
  }

  /** The log after the step holds no new record that checks. */
  lemma BuildKeepsRecords(x: Context, m: Machine, m': Machine)
    requires Start(x) && Uncommitted(x, m) && BuildStep(x.csum, x.ops, m, m') && m.phase != Building(|x.ops|, 1)
    ensures Records(x.csum, m'.log, x.last, x.stale)
  {
    var (i, j) := (m.phase.i, m.phase.j);
    hide Honest, Settled, Update, Decode, FieldStores;
    if i < |x.ops| {
      assert WfOp(x.ops[i]);
      EntryStoreAt(i, x.ops[i], j);
      TypesAreNotCommit(x.ops[i]);
      RecordsKept(x.csum, m.log, EntryStores(i, x.ops[i])[j], x.last, x.stale);
    }
  }

  lemma BuildTypeKeepsInv(x: Context, m: Machine, m': Machine)
    requires Start(x) && Uncommitted(x, m) && BuildStep(x.csum, x.ops, m, m')
    requires m.phase.i < |x.ops| && m.phase.j == 0
    ensures m'.phase.Building? && BuildingOk(x, m')
  {
    hide Honest, Records, Settled, Decode;
    var op := x.ops[m.phase.i];
    EntryStoreAt(m.phase.i, op, 0);
    PartialFirst(m.log[m.phase.i], op);
    assert m'.log == m.log[m.phase.i := m.log[m.phase.i].(tp := TypeOf(op))];
  }

  lemma BuildFieldKeepsInv(x: Context, m: Machine, m': Machine)
    requires Start(x) && Uncommitted(x, m) && BuildStep(x.csum, x.ops, m, m')
    requires m.phase.i < |x.ops| && 0 < m.phase.j <= |FieldStores(x.ops[m.phase.i])|
    ensures m'.phase.Building? && BuildingOk(x, m')
  {
    hide Honest, Records, Settled, Decode, Partial, TypeOf, Independent, AllStores, Kept;
    var op := x.ops[m.phase.i];
    EntryStoreAt(m.phase.i, op, m.phase.j);
    PartialNext(m.log[m.phase.i], op, m.phase.j);
  }

  lemma BuildEraseKeepsInv(x: Context, m: Machine, m': Machine)
    requires Start(x) && Uncommitted(x, m) && BuildStep(x.csum, x.ops, m, m')
    requires m.phase.i < |x.ops| && m.phase.j > |FieldStores(x.ops[m.phase.i])|
    ensures m'.phase.Building? && BuildingOk(x, m')
  {
    var i, op := m.phase.i, x.ops[m.phase.i];
    EntryStoreAt(i, op, m.phase.j);
    assert m'.log == m.log[i + 1 := EMPTY] && m'.phase == Building(i + 1, 0);
    PartialLast(m.log[i], op);
    WrittenNext(m.log, x.ops, i);
  }

  lemma WrittenNext(log: Log, ops: seq<Op>, i: nat)
    requires i < |ops| < REDOLOG_ENTRIES - 1 && Written(log, ops, i)
    requires log[i].tp == TypeOf(ops[i]) && Decode(log[i]) == ops[i]
    ensures Written(log[i + 1 := EMPTY], ops, i + 1)
  {
    hide Decode, TypeOf;
  }

  lemma BuildKeepsInv(x: Context, m: Machine, m': Machine)
    requires Start(x) && Uncommitted(x, m) && BuildStep(x.csum, x.ops, m, m') && m.phase != Building(|x.ops|, 1)
    ensures m'.phase.Building? && BuildingOk(x, m')
  {
    if m.phase.i < |x.ops| {
      if m.phase.j == 0 {
        BuildTypeKeepsInv(x, m, m');
      } else if m.phase.j <= |FieldStores(x.ops[m.phase.i])| {
        BuildFieldKeepsInv(x, m, m');
      } else {
        BuildEraseKeepsInv(x, m, m');
      }
    }
  }

  /** Storing the checksum is the commit point. */
  lemma CommitPoint(x: Context, m: Machine, m': Machine)
    requires Start(x) && Uncommitted(x, m) && BuildStep(x.csum, x.ops, m, m')
    requires m.phase == Building(|x.ops|, 1)
    ensures Committed(x, m')
  {
    hide Honest, Settled, Decode, Independent;
    var n := |x.ops|;
    assert m'.log[..n] == m.log[..n];
    AllAhead(x);
  }

  /** At the start all stores are ahead. */
  lemma AllAhead(x: Context)
    requires Start(x)
    ensures Ahead(x.o, x.pre, AllStores(x.ops), 0, Post(x))
  {
    var ss := AllStores(x.ops);
    assert Kept(ss)[0..] == Kept(ss);
  }

  lemma EraseKeepsInv(x: Context, m: Machine, m': Machine)
    requires Start(x) && Committed(x, m) && BuildStep(x.csum, x.ops, m, m')
    ensures Committed(x, m')
  {
    hide Ahead, Settled, Decode, Update;
    assert |x.ops| <= REDOLOG_ENTRIES - 2;
    var n := |x.ops|;
    assert m'.log[..n] == m.log[..n];
    AllAhead(x);
    assert AllStores(x.ops) == AllStores(x.ops)[0..];
  }

  // Executing and recovering keep it -------------------------------------------------------------

  /** One more store of a run towards `post` leaves both the rest of it and the whole of it leading there. */
  lemma OneStoreOn(o: nat, m: Meta, ss: seq<Store>, k: nat, post: Meta)
    requires Ahead(o, m, ss, 0, post) && Ahead(o, m, ss, k, post) && Independent(Kept(ss)) && k < |Kept(ss)|
    ensures k < |ss| && Storable(o, ss[k])
    ensures Ahead(o, Apply(o, m, ss[k]), ss, 0, post) && Ahead(o, Apply(o, m, ss[k]), ss, k + 1, post)
  {
    var kept := Kept(ss);
    assert kept[0..] == kept && kept[k] == ss[k];
    assert kept[k..][0] == kept[k] && kept[k..][1..] == kept[k + 1..];
    EarlyStoreAbsorbed(o, m, kept, k);
    hide Independent, Apply;
  }

  /** Where no store is left to make, the run is over, or at the halt. */
  lemma NoneAhead(o: nat, m: Meta, ss: seq<Store>, post: Meta)
    requires Ahead(o, m, ss, |Kept(ss)|, post)
    ensures m == post
    ensures |Kept(ss)| == |ss| <==> Halt !in ss
  {
    assert Kept(ss)[|Kept(ss)|..] == [];
    KeptAll(ss);
  }

  lemma AheadBound(o: nat, m: Meta, ss: seq<Store>, k: nat, post: Meta)
    requires Ahead(o, m, ss, k, post)
    ensures k <= |Kept(ss)| && Shape(o, m.tree)
  {
  }

  /** The next whole store of a run that leads there leads there. */
  lemma LeadsOn(x: Context, m: Meta, todo: seq<Store>)
    requires Start(x) && Leads(x, m, todo) && todo != [] && !todo[0].Halt?
    ensures Shape(x.o, m.tree) && Storable(x.o, todo[0]) && todo[0] in Kept(AllStores(x.ops))
    ensures Leads(x, Apply(x.o, m, todo[0]), todo[1..])
  {
    hide Independent, Settled, Ideal, Apply, Post, AllStores, Ahead, Loggable, AllPlaced, Kept;
    var ss := AllStores(x.ops);
    var k := |ss| - |todo|;
    AheadBound(x.o, m, ss, k, Post(x));
    assert todo[0] == ss[k];
    OneStoreOn(x.o, m, ss, k, Post(x));
    assert Kept(ss)[k] == ss[k] && todo[1..] == ss[k + 1..];
  }

  /** Where no store is left, or the halt is next, the state is the one after the update. */
  lemma LeadsEnd(x: Context, m: Meta, todo: seq<Store>)
    requires Start(x) && Leads(x, m, todo) && (todo == [] || todo[0].Halt?)
    ensures AtEnd(x, m) && (todo == [] <==> Halt !in AllStores(x.ops))
  {
    hide Settled, Ideal, Apply, Post, AllStores, Update;
    var ss := AllStores(x.ops);
    var k := |ss| - |todo|;
    AheadBound(x.o, m, ss, k, Post(x));
    assert todo != [] ==> todo[0] == ss[k];
    NoneAhead(x.o, m, ss, Post(x));
  }

  lemma WorkKeepsInv(x: Context, m: Meta, w: Work, m': Meta, w': Work)
    requires Start(x) && WorkOk(x, m, w) && Shape(x.o, m.tree) && WorkStep(x.o, m, w, m', w')
    ensures WorkOk(x, m', w')
  {
    hide Leads, Start, Apply, StoreNext, Goal, OnWay;
    var s := w.todo[0];
    StepTowards(x.o, m, w.climb, s);
    if w.climb.Ground? {
      GoalOfGround(x.o, m, s);
      LeadsOn(x, m, w.todo);
      ApplyTwice(x.o, m, s);
      LeadsSuffix(x, m, w.todo);
    }
  }

  lemma LeadsSuffix(x: Context, m: Meta, todo: seq<Store>)
    requires Start(x) && Leads(x, m, todo)
    ensures Suffix(todo, AllStores(x.ops)) && Ahead(x.o, m, AllStores(x.ops), 0, Post(x))
  {
  }

  lemma GoalOfGround(o: nat, m: Meta, s: Store)
    requires Shape(o, m.tree) && Storable(o, s)
    ensures Goal(o, m, Ground, s) == Apply(o, m, s)
  {
  }

  lemma ExecuteKeepsInv(x: Context, m: Machine, m': Machine)
    requires Start(x) && Committed(x, m) && Shape(x.o, m.meta.tree) && ExecuteStep(x.o, m, m')
    ensures Committed(x, m')
  {
    hide Leads, WorkStep, LogCommitted, Later, Start, AllStores, AtEnd, OnWay;
    var w := m.phase.work;
    if w.todo == [] || w.todo[0].Halt? {
      LeadsEnd(x, m.meta, w.todo);
    } else {
      WorkKeepsInv(x, m.meta, w, m'.meta, m'.phase.work);
    }
  }

  lemma ReplayKeepsCommitted(x: Context, m: Machine, m': Machine)
    requires Start(x) && Committed(x, m) && Shape(x.o, m.meta.tree) && ReplayStep(x.o, m, m')
    ensures Committed(x, m')
  {
    hide Leads, WorkStep, LogCommitted, Later, Start, AllStores, AtEnd, OnWay;
    var w := m.phase.work;
    if w.todo == [] || w.todo[0].Halt? {
      LeadsEnd(x, m.meta, w.todo);
    } else {
      WorkKeepsInv(x, m.meta, w, m'.meta, m'.phase.work);
    }
  }

  /** With one record only, recovery replays nothing but the last committed entries. */
  lemma OneRecordIsHonest(x: Context, log: Log)
    requires Start(x) && Records(x.csum, log, x.last, x.last)
    ensures !Revives(x, log)
  {
    assert Ideal(x.csum);
    hide Start, FirstCommit;
    var v := Scan(x.csum, log);
    if v.Replay? {
      assert Names(x.csum, log[v.n], v.n, x.last);
    }
  }

  lemma ScanCommitted(x: Context, log: Log)
    requires Start(x) && LogCommitted(x.csum, log, x.ops)
    ensures Scan(x.csum, log) == Replay(|x.ops|) && Ops(log[..|x.ops|]) == x.ops
  {
    hide Settled, Ideal, Decode, Independent;
    var n, c := |x.ops|, FirstCommit(log, 0);
    if c < n {
      TypesAreNotCommit(x.ops[c]);
    }
  }

  lemma ScanKeepsCommitted(x: Context, m: Machine, m': Machine)
    requires Start(x) && m.phase.Down? && LogCommitted(x.csum, m.log, x.ops) && Later(x, m.log)
    requires Ahead(x.o, m.meta, AllStores(x.ops), 0, Post(x)) && ScanStep(x.csum, m, m')
    ensures Committed(x, m') && m'.phase.Recovering?
  {
    hide Ahead, LogCommitted, Later, Start, Post, AllStores, FirstCommit;
    ScanCommitted(x, m.log);
    var ss := AllStores(x.ops);
    assert ss == ss[0..];
  }

  lemma ScanKeepsUncommitted(x: Context, m: Machine, m': Machine)
    requires Start(x) && Uncommitted(x, m) && ScanStep(x.csum, m, m')
    ensures if TookAt(x, m') then Committed(x, m') else Uncommitted(x, m')
  {
    hide Start, LogOk, Revives, BuildingOk, ReplayStores, OffByMark, SettledWork, Scan;
    if Revives(x, m.log) {
      AllAhead(x);
      RevivalCommits(x, m.log);
      ScanKeepsCommitted(x, m, m');
    } else if Scan(x.csum, m.log).Replay? {
      LastReplays(x, m, m');
    } else {
      NothingReplays(x, m);
    }
  }

  /** What recovery replays without a revival is the last update, and it changes nothing. */
  lemma LastReplays(x: Context, m: Machine, m': Machine)
    requires Start(x) && !Revives(x, m.log) && Scan(x.csum, m.log).Replay?
    requires m.meta == x.pre.(tree := m.meta.tree) && m'.meta == m.meta && m'.log == m.log
    requires OffByMark(x.pre.tree, m.meta.tree, Kept(ReplayStores(x.csum, m.log)))
    ensures SettledWork(x, m', Work(ReplayStores(x.csum, m.log), Ground))
  {
    hide Ideal, Update, Scan, OffByMark, Apply, AllStores, Kept, OneOnTree;
    assert ReplayStores(x.csum, m.log) == ReplayStores(x.csum, m.log)[0..];
  }

  lemma NothingReplays(x: Context, m: Machine)
    requires !Scan(x.csum, m.log).Replay? && OffByMark(x.pre.tree, m.meta.tree, Kept(ReplayStores(x.csum, m.log)))
    ensures m.meta.tree == x.pre.tree
  {
    hide Scan;
    assert Kept([]) == [];
  }

  lemma RevivalCommits(x: Context, log: Log)
    requires Start(x) && LogOk(x, log) && Revives(x, log)
    ensures LogCommitted(x.csum, log, x.ops) && Later(x, log)
  {
    hide Start, Scan, LogCommitted;
  }

  /** The update takes effect: it stores its checksum, or recovery finds its entries under a stale record. */
  ghost predicate TookAt(x: Context, m: Machine) {
    AtCommitPoint(x, m) || (m.phase.Recovering? && Revives(x, m.log))
  }

  ghost predicate AtCommitPoint(x: Context, m: Machine) {
    m.phase == Building(|x.ops|, 2)
  }

  // Crashes inside a buddy operation ---------------------------------------------------------------

  /** The machine is strictly inside the chain of a buddy operation. */
  predicate InsideChain(o: nat, m: Machine) {
    && ClimbOf(m.phase).At? && Shape(o, m.meta.tree)
    && var w := m.phase.work;
       w.todo != [] && OnTree(w.todo[0]) && Wf(o, w.climb.q) && Inside(o, m.meta.tree, w.todo[0], w.climb.q)
  }

  /** A release is torn in the status of its own block. */
  predicate HalfReleased(m: Machine, m': Machine) {
    && (m.phase.Executing? || m.phase.Recovering?) && m.phase.work.climb.Ground?
    && m.phase.work.todo != [] && m.phase.work.todo[0].TreeRelease? && m'.meta.tree != m.meta.tree
  }

  /**
   A crash past repair: a mark has written its first ancestor, or a release has begun to write, and
   there is more to write.
   */
  predicate SpoilsAt(o: nat, m: Machine, m': Machine) {
    m'.phase.Down? && (InsideChain(o, m) || HalfReleased(m, m'))
  }

  /** Where the store at work leads, the rest leads on to the state after the update. */
  lemma GoalLeads(x: Context, m: Meta, w: Work)
    requires Start(x) && WorkOk(x, m, w) && w.todo != [] && !w.todo[0].Halt?
    ensures Shape(x.o, m.tree) && Climbable(x.o, w.climb, w.todo[0]) && w.todo[0] in Kept(AllStores(x.ops))
    ensures w.climb.At? ==> OnWay(x.o, m.tree, w.todo[0], w.climb.q)
    ensures var goal := Goal(x.o, m, w.climb, w.todo[0]);
            Apply(x.o, goal, w.todo[0]) == goal && Ahead(x.o, goal, AllStores(x.ops), 0, Post(x))
  {
    hide Start, Post, AllStores, Pending, Ahead, UpdateChain, Kept, Mark, Release;
    if w.climb.Ground? {
      LeadsOn(x, m, w.todo);
      ApplyTwice(x.o, m, w.todo[0]);
    } else {
      NextIsKept(x, Goal(x.o, m, w.climb, w.todo[0]), w.todo);
    }
  }

  lemma NextIsKept(x: Context, m: Meta, todo: seq<Store>)
    requires Start(x) && todo != [] && Suffix(todo, AllStores(x.ops)) && Leads(x, m, todo[1..])
    ensures todo[0] in Kept(AllStores(x.ops))
  {
    hide Start, Post, AllStores, Ahead;
    var ss := AllStores(x.ops);
    AheadBound(x.o, m, ss, |ss| - |todo| + 1, Post(x));
    assert Kept(ss)[|ss| - |todo|] == ss[|ss| - |todo|] == todo[0];
  }

  /** A cut whose replay leads where the store was going does no harm. */
  lemma CutRepaired(x: Context, m: Meta, w: Work, m': Meta)
    requires Start(x) && WorkOk(x, m, w) && w.todo != [] && !w.todo[0].Halt? && Shape(x.o, m'.tree)
    requires Shape(x.o, m.tree) && Climbable(x.o, w.climb, w.todo[0])
    requires Apply(x.o, m', w.todo[0]) == Goal(x.o, m, w.climb, w.todo[0])
    ensures Ahead(x.o, m', AllStores(x.ops), 0, Post(x))
  {
    hide Settled, Ideal, Post, AllStores, WorkOk, Apply, Goal, Kept;
    GoalLeads(x, m, w);
    var kept, goal := Kept(AllStores(x.ops)), Goal(x.o, m, w.climb, w.todo[0]);
    var k :| 0 <= k < |kept| && kept[k] == w.todo[0];
    assert kept[0..] == kept;
    EarlyStoreAbsorbed(x.o, m', kept, k);
    EarlyStoreAbsorbed(x.o, goal, kept, k);
  }

  /** A cut after which the replay changes nothing, short of where the store was going, spoils the tree. */
  lemma CutSticks(x: Context, m: Meta, w: Work, m': Meta)
    requires Start(x) && WorkOk(x, m, w) && w.todo != [] && OnTree(w.todo[0]) && Shape(x.o, m'.tree)
    requires Shape(x.o, m.tree) && Climbable(x.o, w.climb, w.todo[0]) && m' == m.(tree := m'.tree)
    requires Apply(x.o, m', w.todo[0]) == m' && Differs(x.o, m'.tree, Goal(x.o, m, w.climb, w.todo[0]).tree)
    ensures StillAll(x.o, m'.tree, Kept(AllStores(x.ops))) && Differs(x.o, m'.tree, Post(x).tree)
    ensures Ahead(x.o, Mend(x, m'), AllStores(x.ops), 0, Post(x))
  {
    hide Settled, Ideal, Post, AllStores, WorkOk, Differs, Kept, Independent, UpdateChain;
    GoalLeads(x, m, w);
    var kept, goal := Kept(AllStores(x.ops)), Goal(x.o, m, w.climb, w.todo[0]);
    var k :| 0 <= k < |kept| && kept[k] == w.todo[0];
    assert kept[0..] == kept;
    TreeAfter(x.o, goal, kept, k);
    OneTreeStore(kept, k);
    assert Mend(x, m') == goal;
  }

  /** A crash between two writes. */
  lemma PlainCrash(x: Context, m: Meta, w: Work)
    requires Start(x) && WorkOk(x, m, w)
    ensures if w.climb.At? && Shape(x.o, m.tree) && w.todo != [] && OnWay(x.o, m.tree, w.todo[0], w.climb.q)
               && Inside(x.o, m.tree, w.todo[0], w.climb.q)
            then
              && StillAll(x.o, m.tree, Kept(AllStores(x.ops))) && Differs(x.o, m.tree, Post(x).tree)
              && Ahead(x.o, Mend(x, m), AllStores(x.ops), 0, Post(x))
            else Ahead(x.o, m, AllStores(x.ops), 0, Post(x))
  {
    hide Start, Post, AllStores, Ahead, Inside, StillAll, Differs, Goal, Apply, Kept;
    if w.climb.At? {
      GoalLeads(x, m, w);
      CutExact(x.o, m, w.todo[0], w.climb.q);
      OnWayIsOnTree(x.o, m.tree, w.todo[0], w.climb.q);
      if Inside(x.o, m.tree, w.todo[0], w.climb.q) {
        CutSticks(x, m, w, m);
      } else {
        CutRepaired(x, m, w, m);
      }
    }
  }

  /** A crash inside a write. */
  lemma TornCrash(x: Context, m: Meta, w: Work, m': Meta)
    requires Start(x) && WorkOk(x, m, w) && Shape(x.o, m.tree) && w.todo != [] && Climbable(x.o, w.climb, w.todo[0])
    requires Torn(x.o, m.tree, w.climb, w.todo[0], m'.tree) && m' == m.(tree := m'.tree)
    ensures if TearSpoils(w.climb, w.todo[0]) then
              && StillAll(x.o, m'.tree, Kept(AllStores(x.ops))) && Differs(x.o, m'.tree, Post(x).tree)
              && Ahead(x.o, Mend(x, m'), AllStores(x.ops), 0, Post(x))
            else Ahead(x.o, m', AllStores(x.ops), 0, Post(x))
  {
    hide Start, Post, AllStores, Ahead, StillAll, Differs, Goal, Apply, Kept, WorkOk, Torn, OnWay;
    TornIsOnTree(x.o, m.tree, w.climb, w.todo[0], m'.tree);
    GoalLeads(x, m, w);
    TearExact(x.o, m, w.climb, w.todo[0], m'.tree);
    if TearSpoils(w.climb, w.todo[0]) {
      CutSticks(x, m, w, m');
    } else {
      CutRepaired(x, m, w, m');
    }
  }

  lemma CrashKeepsCommitted(x: Context, m: Machine, m': Machine)
    requires Start(x) && Committed(x, m) && CrashStep(x.o, m, m')
    ensures if SpoilsAt(x.o, m, m') then Spoiled(x, m') else Committed(x, m')
  {
    hide Start, Leads, LogCommitted, Later, AllStores, Post, StillAll, Differs, Mend, Torn, Pending, Spoiled, OnWay, Kept;
    if m.phase.Executing? || m.phase.Recovering? {
      var w := m.phase.work;
      CommittedShape(x, m);
      if w.climb.At? {
        OnWayIsOnTree(x.o, m.meta.tree, w.todo[0], w.climb.q);
      }
      if m'.meta == m.meta {
        PlainCrash(x, m.meta, w);
      } else {
        TornIsOnTree(x.o, m.meta.tree, w.climb, w.todo[0], m'.meta.tree);
        TornCrash(x, m.meta, w, m'.meta);
      }
      if SpoilsAt(x.o, m, m') {
        SpoiledDown(x, m');
      }
    } else if m.phase.Building? {
      AllAhead(x);
    }
  }

  lemma SpoiledDown(x: Context, m: Machine)
    requires Start(x) && m.phase.Down? && LogCommitted(x.csum, m.log, x.ops) && Later(x, m.log)
    requires StillAll(x.o, m.meta.tree, Kept(AllStores(x.ops))) && Differs(x.o, m.meta.tree, Post(x).tree)
    requires Ahead(x.o, Mend(x, m.meta), AllStores(x.ops), 0, Post(x))
    ensures Spoiled(x, m)
  {
    hide Start, LogCommitted, Later, AllStores, Post, StillAll, Differs, Mend, Ahead;
    assert SpoiledBy(x, m, m.meta.tree);
  }

  lemma OnlyCrashesDown(x: Context, m: Machine, m': Machine)
    requires Next(x.o, x.csum, x.ops, m, m')
    ensures m'.phase.Down? ==> CrashStep(x.o, m, m')
  {
    hide Tears, WorkStep, Scan, Put, EntryStores;
  }

  lemma StepKeepsCommitted(x: Context, m: Machine, m': Machine)
    requires Start(x) && Committed(x, m) && Next(x.o, x.csum, x.ops, m, m')
    ensures if SpoilsAt(x.o, m, m') then Spoiled(x, m') else Committed(x, m')
  {
    hide Start, Committed, Spoiled, InsideChain, HalfReleased, BuildStep, ExecuteStep, ReplayStep, ScanStep, CrashStep;
    OnlyCrashesDown(x, m, m');
    if CrashStep(x.o, m, m') {
      CrashKeepsCommitted(x, m, m');
    } else if BuildStep(x.csum, x.ops, m, m') {
      EraseKeepsInv(x, m, m');
    } else if ExecuteStep(x.o, m, m') {
      ExecuteKeepsInv(x, m, m');
    } else if ScanStep(x.csum, m, m') {
      DownScans(x, m, m');
    } else if ReplayStep(x.o, m, m') {
      ReplayKeepsCommitted(x, m, m');
    } else {
      CommittedNotWiping(x, m);
    }
  }

  lemma DownScans(x: Context, m: Machine, m': Machine)
    requires Start(x) && Committed(x, m) && ScanStep(x.csum, m, m')
    ensures Committed(x, m')
  {
    hide Start, Committed, Scan, LogCommitted, Later, Ahead;
    CommittedDown(x, m);
    ScanKeepsCommitted(x, m, m');
  }

  /** Replaying the finished update changes nothing in its tree. */
  lemma PostStill(x: Context, s: Store)
    requires Start(x) && s in Kept(AllStores(x.ops))
    ensures Shape(x.o, Post(x).tree) && Storable(x.o, s) && Apply(x.o, Post(x), s) == Post(x)
  {
    hide Settled, Ideal, AllStores, Independent, Apply;
    var kept := Kept(AllStores(x.ops));
    var k :| 0 <= k < |kept| && kept[k] == s;
    LateStoreAbsorbed(x.o, x.pre, kept, k);
  }

  // A spoiled tree stays so ----------------------------------------------------------------------------

  lemma SpoiledFacts(x: Context, m: Machine) returns (t: seq<nat>)
    requires Start(x) && Spoiled(x, m)
    ensures SpoiledBy(x, m, t) && Committed(x, Mended(x, m)) && Differs(x.o, t, Post(x).tree)
    ensures StillAll(x.o, t, Kept(AllStores(x.ops))) && Shape(x.o, t)
    ensures m.phase.Done? || m.phase.Halted? || m.phase.Recovered? ==> m.meta.tree == t
  {
    hide Start, Committed, Differs, Mended, Still, AllStores;
    t :| SpoiledBy(x, m, t);
  }

  /** The work that is left leads on from the mended state. */
  lemma SpoiledLeads(x: Context, m: Machine, t: seq<nat>)
    requires Start(x) && SpoiledBy(x, m, t) && (m.phase.Executing? || m.phase.Recovering?)
    ensures var w := m.phase.work;
            && Mending(x.o, t, m.meta.tree, w) && Leads(x, Mend(x, m.meta), Rest(w))
            && (w.climb.Ground? ==> StillAll(x.o, t, Kept(w.todo)) && Suffix(w.todo, AllStores(x.ops)))
            && (w.climb.Ground? && Halt in AllStores(x.ops) ==> |AllStores(x.ops)| - |w.todo| <= |Kept(AllStores(x.ops))|)
  {
    hide Start, LogCommitted, Later, AllStores, Post, Differs, Mend, Mending, StillAll, Kept, Ahead;
    var w, ss := m.phase.work, AllStores(x.ops);
    if w.climb.Ground? {
      AheadBound(x.o, Mend(x, m.meta), ss, |ss| - |w.todo|, Post(x));
      StillRest(x.o, t, w.todo, ss);
    }
  }

  /** On a stuck tree the work goes on as it would on the mended one. */
  lemma SpoiledWork(x: Context, m: Meta, w: Work, m': Meta, w': Work, t: seq<nat>)
    requires Start(x) && Shape(x.o, m.tree) && Leads(x, Mend(x, m), Rest(w)) && Mending(x.o, t, m.tree, w)
    requires w.climb.Ground? ==> StillAll(x.o, t, Kept(w.todo))
    requires WorkStep(x.o, m, w, m', w')
    ensures Mending(x.o, t, m'.tree, w') && Leads(x, Mend(x, m'), Rest(w'))
  {
    hide Start, Leads, Post, AllStores, Mending, StillAll, WorkStep, Kept, Apply, Mend;
    WorkIsStorable(x.o, m, w, m', w');
    MendingStep(x.o, t, m, w, m', w');
    if w.climb.Ground? {
      LeadsOn(x, Mend(x, m), w.todo);
      MendCommutes(x, m, w.todo[0], t);
    }
  }

  /** Replaying on the mended tree does what it does on the tree as it is, and leaves the tree mended. */
  lemma MendCommutes(x: Context, m: Meta, s: Store, t: seq<nat>)
    requires Start(x) && s in Kept(AllStores(x.ops)) && Shape(x.o, m.tree) && Storable(x.o, s) && Shape(x.o, Mend(x, m).tree)
    ensures Apply(x.o, Mend(x, m), s) == Mend(x, if OnTree(s) then m.(tree := t) else Apply(x.o, m, s))
  {
    hide Start, Post, AllStores, Kept, Mark, Release;
    PostStill(x, s);
    if !OnTree(s) {
      OffTree(x.o, m, s, Post(x).tree);
    }
  }

  ghost predicate SpoilsLog(x: Context, log: Log, t: seq<nat>)
    requires Start(x)
  {
    && StillAll(x.o, t, Kept(AllStores(x.ops))) && Differs(x.o, t, Post(x).tree)
    && LogCommitted(x.csum, log, x.ops) && Later(x, log)
  }

  lemma SpoiledParts(x: Context, m: Machine, t: seq<nat>)
    requires Start(x) && SpoiledBy(x, m, t)
    ensures SpoilsLog(x, m.log, t)
  {
    hide Start, LogCommitted, Later, AllStores, Post, Differs, Mend, Mending, StillAll, Leads, Kept, AtEnd, Ahead;
  }

  lemma SpoiledAtWork(x: Context, m: Machine, t: seq<nat>)
    requires Start(x) && SpoilsLog(x, m.log, t) && (m.phase.Executing? || m.phase.Recovering?)
    requires Mending(x.o, t, m.meta.tree, m.phase.work) && Leads(x, Mend(x, m.meta), Rest(m.phase.work))
    ensures SpoiledBy(x, m, t)
  {
    hide Start, LogCommitted, Later, AllStores, Post, Differs, Mend, Mending, StillAll, Leads, Kept, Rest;
  }

  lemma SpoiledAtEnd(x: Context, m: Machine, t: seq<nat>)
    requires Start(x) && SpoilsLog(x, m.log, t) && (m.phase.Done? || m.phase.Halted? || m.phase == Recovered(false))
    requires m.meta.tree == t && AtEnd(x, Mend(x, m.meta)) && (m.phase.Halted? <==> Halt in AllStores(x.ops))
    ensures SpoiledBy(x, m, t)
  {
    hide Start, LogCommitted, Later, AllStores, Post, Differs, Mend, StillAll, Kept, AtEnd;
  }

  lemma SpoiledExecutes(x: Context, m: Machine, m': Machine, t: seq<nat>)
    requires Start(x) && SpoiledBy(x, m, t) && Shape(x.o, m.meta.tree)
    requires ExecuteStep(x.o, m, m') || ReplayStep(x.o, m, m')
    ensures SpoiledBy(x, m', t)
  {
    hide Leads, WorkStep, Start, AllStores, Mend, AtEnd, Mending, SpoiledBy, SpoilsLog, StillAll, Rest, Suffix, Kept;
    SpoiledLeads(x, m, t);
    SpoiledParts(x, m, t);
    var w := m.phase.work;
    if w.todo == [] || w.todo[0].Halt? {
      MendingEnds(x.o, t, m.meta.tree, w);
      GroundRest(w);
      LeadsEnd(x, Mend(x, m.meta), w.todo);
      SpoiledAtEnd(x, m', t);
    } else {
      SpoiledWork(x, m.meta, w, m'.meta, m'.phase.work, t);
      SpoiledAtWork(x, m', t);
    }
  }

  lemma GroundRest(w: Work)
    ensures w.climb.Ground? ==> Rest(w) == w.todo
  {
  }

  lemma SpoiledCrash(x: Context, m: Machine, m': Machine, t: seq<nat>)
    requires Start(x) && SpoiledBy(x, m, t) && CrashStep(x.o, m, m')
    ensures SpoiledBy(x, m', t)
  {
    hide Start, Committed, StillAll, Differs, Leads, AllStores, Post, Torn, Mending, Kept;
    GroundCrash(x, Mended(x, m), Mended(x, m'));
    if m.phase.Executing? || m.phase.Recovering? {
      SpoiledLeads(x, m, t);
      var w, ss := m.phase.work, AllStores(x.ops);
      MendingIsOff(x.o, t, m.meta.tree, w);
      if m'.meta != m.meta {
        MendingTear(x.o, t, m.meta, w, m'.meta.tree);
        assert OffByMark(t, m'.meta.tree, Kept(w.todo));
      }
      if w.climb.Ground? {
        OffByMore(t, m'.meta.tree, w.todo, ss);
      }
    }
  }

  lemma StepKeepsSpoiled(x: Context, m: Machine, m': Machine)
    requires Start(x) && Spoiled(x, m) && Next(x.o, x.csum, x.ops, m, m')
    ensures Spoiled(x, m')
  {
    hide Spoiled, SpoiledBy, Start, ExecuteStep, ReplayStep, BuildStep, ScanStep, CrashStep, WipeStep, Committed;
    var t := SpoiledFacts(x, m);
    if ExecuteStep(x.o, m, m') || ReplayStep(x.o, m, m') {
      SpoiledExecutes(x, m, m', t);
    } else if CrashStep(x.o, m, m') {
      SpoiledCrash(x, m, m', t);
    } else {
      SpoiledLogs(x, m, m', t);
    }
    SomeSpoils(x, m', t);
  }

  lemma SomeSpoils(x: Context, m: Machine, t: seq<nat>)
    requires Start(x) && SpoiledBy(x, m, t)
    ensures Spoiled(x, m)
  {
  }

  /** The steps that do not touch the metadata. */
  lemma SpoiledLogs(x: Context, m: Machine, m': Machine, t: seq<nat>)
    requires Start(x) && SpoiledBy(x, m, t)
    requires BuildStep(x.csum, x.ops, m, m') || ScanStep(x.csum, m, m') || WipeStep(m, m')
    ensures SpoiledBy(x, m', t)
  {
    hide Start, Committed, EntryStores, Put, Scan, StillAll, Differs, Mend, AtRest, AllStores, Kept, Post;
    if BuildStep(x.csum, x.ops, m, m') {
      EraseKeepsInv(x, Mended(x, m), Mended(x, m'));
      CommittedBuilds(x, Mended(x, m));
    } else if ScanStep(x.csum, m, m') {
      CommittedDown(x, Mended(x, m));
      ScanKeepsCommitted(x, Mended(x, m), Mended(x, m'));
      ScanCommitted(x, m.log);
    } else {
      CommittedNotWiping(x, Mended(x, m));
    }
  }

  lemma CommittedBuilds(x: Context, m: Machine)
    requires Start(x) && Committed(x, m) && m.phase.Building?
    ensures m.phase == Building(|x.ops|, 2)
  {
    hide Start, LogCommitted, Later, AllStores, Ahead, Post;
  }

  lemma CommittedNotWiping(x: Context, m: Machine)
    requires Start(x) && Committed(x, m)
    ensures !m.phase.Wiping?
  {
  }

  lemma CommittedDown(x: Context, m: Machine)
    requires Start(x) && Committed(x, m) && m.phase.Down?
    ensures |x.ops| < REDOLOG_ENTRIES && LogCommitted(x.csum, m.log, x.ops) && Later(x, m.log)
    ensures Ahead(x.o, m.meta, AllStores(x.ops), 0, Post(x))
  {
    hide Ahead, Later, LogCommitted, Settled, Ideal, AllStores, Post;
  }

  /** A crash with no buddy operation under way. */
  lemma GroundCrash(x: Context, m: Machine, m': Machine)
    requires Start(x) && Committed(x, m) && m' == m.(phase := Down) && ClimbOf(m.phase).Ground?
    ensures Committed(x, m')
  {
    hide Start, LogCommitted, Later, AllStores, Post, Spoiled, Ahead;
    if m.phase.Building? {
      AllAhead(x);
    }
  }

  lemma CommittedShape(x: Context, m: Machine)
    requires Start(x) && Committed(x, m)
    ensures Shape(x.o, m.meta.tree)
  {
    hide LogCommitted, Later, Settled, Ideal, AllStores, Apply, OnWay, Update;
  }

  /** What a run needs to be trusted: one record only, or no state of the building that revives anything else. */
  ghost predicate TrustedAt(x: Context, m: Machine)
    requires Start(x)
  {
    x.stale == x.last || (m.phase.Building? ==> Honest(x, m.log))
  }

  lemma LogStaysOk(x: Context, m: Machine)
    requires Start(x) && Records(x.csum, m.log, x.last, x.stale) && m.phase.Building? && TrustedAt(x, m)
    ensures LogOk(x, m.log)
  {
    if x.stale == x.last {
      OneRecordIsHonest(x, m.log);
    }
  }

  lemma BuildKeepsUncommitted(x: Context, m: Machine, m': Machine)
    requires Start(x) && Uncommitted(x, m) && BuildStep(x.csum, x.ops, m, m') && TrustedAt(x, m')
    ensures if TookAt(x, m') then Committed(x, m') else Uncommitted(x, m')
  {
    if m.phase == Building(|x.ops|, 1) {
      CommitPoint(x, m, m');
    } else {
      BuildKeepsRecords(x, m, m');
      BuildKeepsInv(x, m, m');
      LogStaysOk(x, m');
    }
    hide Start, Committed, BuildingOk, Records, Honest, Revives, TrustedAt;
  }

  lemma WipeKeepsUncommitted(x: Context, m: Machine, m': Machine)
    requires Start(x) && Uncommitted(x, m) && WipeStep(m, m') && TrustedAt(x, m')
    ensures Uncommitted(x, m') && !TookAt(x, m')
  {
    RecordsKept(x.csum, m.log, Erase(0), x.last, x.stale);
    LogStaysOk(x, m');
    hide Start, Records, Honest, Revives, TrustedAt;
  }

  /** A replay that changes nothing has buddy operations that change nothing. */
  lemma SettledStill(x: Context, m: Machine, w: Work)
    requires SettledWork(x, m, w)
    ensures StillAll(x.o, x.pre.tree, Kept(w.todo)) && Halt !in w.todo && Kept(w.todo) == w.todo
  {
    hide Mark, Release, Mending, ReplayStores;
    forall s | s in w.todo ensures s != Halt {
      assert Storable(x.o, s);
    }
    KeptAll(w.todo);
  }

  lemma ReplayKeepsUncommitted(x: Context, m: Machine, m': Machine)
    requires Start(x) && Uncommitted(x, m) && Shape(x.o, m.meta.tree) && ReplayStep(x.o, m, m')
    ensures Uncommitted(x, m') && !TookAt(x, m')
  {
    hide Start, LogOk, Scan, Apply, Revives, Mending, StillAll, WorkStep, ReplayStores;
    var w := m.phase.work;
    SettledStill(x, m, w);
    if w.todo == [] {
      MendingEnds(x.o, x.pre.tree, m.meta.tree, w);
    } else {
      assert w.todo[0] in w.todo;
      MendingStep(x.o, x.pre.tree, m.meta, w, m'.meta, m'.phase.work);
      SettledOn(x, m, w, m'.meta, m'.phase.work);
    }
  }

  lemma SettledOn(x: Context, m: Machine, w: Work, m': Meta, w': Work)
    requires SettledWork(x, m, w) && Shape(x.o, m.meta.tree) && WorkStep(x.o, m.meta, w, m', w')
    requires Mending(x.o, x.pre.tree, m'.tree, w')
    requires if w.climb.At? then m' == m.meta
             else if OnTree(w.todo[0]) then m' == m.meta.(tree := x.pre.tree)
             else Storable(x.o, w.todo[0]) && m' == Apply(x.o, m.meta, w.todo[0])
    ensures forall n: Machine :: n.log == m.log && n.meta == m' ==> SettledWork(x, n, w')
  {
    hide Mending, StoreNext, ReplayStores, Mark, Release;
    assert forall s :: s in w'.todo ==> s in w.todo;
    if w.climb.Ground? && !OnTree(w.todo[0]) {
      OffTree(x.o, x.pre, w.todo[0], m.meta.tree);
    }
  }

  /** A crash in a replay that changes nothing leaves at most the status of its block torn. */
  lemma CrashKeepsUncommitted(x: Context, m: Machine, m': Machine)
    requires Start(x) && Uncommitted(x, m) && CrashStep(x.o, m, m')
    ensures Uncommitted(x, m') && !SpoilsAt(x.o, m, m')
  {
    hide Start, LogOk, Scan, Revives, BuildingOk, ReplayStores, Torn, Mending, StillAll, Pending, Kept, Inside;
    if m.phase.Recovering? {
      var w := m.phase.work;
      SettledStill(x, m, w);
      SettledReplay(x, m, w);
      MendingIsOff(x.o, x.pre.tree, m.meta.tree, w);
      UncommittedIsOutside(x, m);
      if m'.meta != m.meta {
        MendingTear(x.o, x.pre.tree, m.meta, w, m'.meta.tree);
        assert OffByMark(x.pre.tree, m'.meta.tree, Kept(w.todo));
      }
      if w.climb.Ground? {
        OffByMore(x.pre.tree, m'.meta.tree, w.todo, ReplayStores(x.csum, m.log));
      }
    }
  }

  lemma SettledReplay(x: Context, m: Machine, w: Work)
    requires Start(x) && Uncommitted(x, m) && m.phase == Recovering(w)
    ensures Halt !in ReplayStores(x.csum, m.log) && Suffix(w.todo, ReplayStores(x.csum, m.log))
  {
    hide LogOk, BuildingOk, Mending, Ideal, Update;
    forall s | s in ReplayStores(x.csum, m.log) ensures s != Halt {
      assert Storable(x.o, s);
    }
  }

  /** Before the update takes effect no crash falls inside a chain. */
  lemma UncommittedIsOutside(x: Context, m: Machine)
    requires Start(x) && Uncommitted(x, m)
    ensures !InsideChain(x.o, m)
  {
    hide Start, LogOk, Scan, Apply, Revives, BuildingOk, ReplayStores, Kept;
  }

  lemma StepKeepsUncommitted(x: Context, m: Machine, m': Machine)
    requires Start(x) && Uncommitted(x, m) && Next(x.o, x.csum, x.ops, m, m') && TrustedAt(x, m')
    ensures if TookAt(x, m') then Committed(x, m') else Uncommitted(x, m')
    ensures !SpoilsAt(x.o, m, m')
  {
    hide Start, LogOk, Revives, TrustedAt, BuildingOk, Apply, BuildStep, Scan, InsideChain, AtRest, SettledWork, ReplayStores,
         Tears, WorkStep, OffByMark, Kept;
    OnlyCrashesDown(x, m, m');
    if CrashStep(x.o, m, m') {
      CrashKeepsUncommitted(x, m, m');
    } else if BuildStep(x.csum, x.ops, m, m') {
      BuildKeepsUncommitted(x, m, m');
    } else if WipeStep(m, m') {
      WipeKeepsUncommitted(x, m, m');
    } else if ScanStep(x.csum, m, m') {
      ScanKeepsUncommitted(x, m, m');
    } else if ReplayStep(x.o, m, m') {
      ReplayKeepsUncommitted(x, m, m');
    }
  }

  // Runs -------------------------------------------------------------------------------------------

  ghost predicate IsRun(x: Context, run: seq<Machine>)
    requires Start(x)
  {
    && |run| > 0
    && (run[0].phase == Building(0, 0) || run[0].phase == Wiping)
    && run[0].meta == x.pre && Records(x.csum, run[0].log, x.last, x.stale) && !Revives(x, run[0].log)
    && forall i :: 0 <= i < |run| - 1 ==> Next(x.o, x.csum, x.ops, run[i], run[i + 1])
  }

  lemma RunIsSome(x: Context, run: seq<Machine>)
    requires Start(x) && IsRun(x, run)
    ensures |run| > 0
  {
    hide Start, Records, Revives, Next;
  }

  ghost predicate Trusted(x: Context, run: seq<Machine>)
    requires Start(x)
  {
    forall i :: 0 <= i < |run| ==> TrustedAt(x, run[i])
  }

  /** The update took effect somewhere in the run. */
  ghost predicate Took(x: Context, run: seq<Machine>) {
    exists i :: 0 <= i < |run| && TookAt(x, run[i])
  }

  /** A crash of the run fell inside a buddy operation, past repair. */
  ghost predicate Spoilt(o: nat, run: seq<Machine>) {
    exists i :: 0 <= i < |run| - 1 && SpoilsAt(o, run[i], run[i + 1])
  }

  ghost predicate InvAt(x: Context, m: Machine, took: bool, spoilt: bool)
    requires Start(x)
  {
    if !took then Uncommitted(x, m) && !spoilt else if !spoilt then Committed(x, m) else Spoiled(x, m)
  }

  lemma StepKeepsInv(x: Context, m: Machine, m': Machine, took: bool, spoilt: bool)
    requires Start(x) && InvAt(x, m, took, spoilt) && Next(x.o, x.csum, x.ops, m, m') && TrustedAt(x, m')
    ensures InvAt(x, m', took || TookAt(x, m'), spoilt || SpoilsAt(x.o, m, m'))
  {
    hide Next, Start, Committed, Uncommitted, Spoiled, TookAt, SpoilsAt, TrustedAt;
    if !took {
      StepKeepsUncommitted(x, m, m');
    } else if !spoilt {
      StepKeepsCommitted(x, m, m');
    } else {
      StepKeepsSpoiled(x, m, m');
    }
  }

  lemma SpoiltSplit(o: nat, run: seq<Machine>)
    requires |run| > 1
    ensures Spoilt(o, run) == (Spoilt(o, run[..|run| - 1]) || SpoilsAt(o, run[|run| - 2], run[|run| - 1]))
  {
    hide SpoilsAt;
    var prefix := run[..|run| - 1];
    if i :| 0 <= i < |prefix| - 1 && SpoilsAt(o, prefix[i], prefix[i + 1]) {
      assert SpoilsAt(o, run[i], run[i + 1]);
    }
    if i :| 0 <= i < |run| - 1 && SpoilsAt(o, run[i], run[i + 1]) {
      assert i + 1 < |prefix| ==> prefix[i] == run[i] && prefix[i + 1] == run[i + 1];
    }
    assert run[|run| - 2 + 1] == run[|run| - 1];
  }

  lemma TookSplit(x: Context, run: seq<Machine>)
    requires |run| > 1
    ensures Took(x, run) == (Took(x, run[..|run| - 1]) || TookAt(x, run[|run| - 1]))
  {
    var prefix := run[..|run| - 1];
    if i :| 0 <= i < |prefix| && TookAt(x, prefix[i]) {
      assert TookAt(x, run[i]);
    }
    if i :| 0 <= i < |run| && TookAt(x, run[i]) {
      assert i < |prefix| ==> prefix[i] == run[i];
    }
  }

  lemma {:induction false} RunInvariant(x: Context, run: seq<Machine>)
    requires Start(x) && IsRun(x, run) && Trusted(x, run)
    ensures InvAt(x, run[|run| - 1], Took(x, run), Spoilt(x.o, run))
    decreases |run|
  {
    hide InvAt, Start, Spoilt, SpoilsAt;
    var last := |run| - 1;
    if last > 0 {
      RunPrefix(x, run);
      RunInvariant(x, run[..last]);
      TookSplit(x, run);
      SpoiltSplit(x.o, run);
      StepKeepsInv(x, run[last - 1], run[last], Took(x, run[..last]), Spoilt(x.o, run[..last]));
    } else {
      FirstIsUncommitted(x, run);
    }
  }

  lemma FirstIsUncommitted(x: Context, run: seq<Machine>)
    requires Start(x) && IsRun(x, run) && |run| == 1
    ensures !Took(x, run) && !Spoilt(x.o, run) && InvAt(x, run[0], false, false)
  {
    assert !TookAt(x, run[0]);
  }

  lemma RunPrefix(x: Context, run: seq<Machine>)
    requires Start(x) && IsRun(x, run) && Trusted(x, run) && |run| > 1
    ensures IsRun(x, run[..|run| - 1]) && Trusted(x, run[..|run| - 1]) && TrustedAt(x, run[|run| - 1])
    ensures Next(x.o, x.csum, x.ops, run[|run| - 2], run[|run| - 1])
  {
    hide Start, Next, Records, Revives, TrustedAt;
    var prefix := run[..|run| - 1];
    forall i | 0 <= i < |prefix| - 1 ensures Next(x.o, x.csum, x.ops, prefix[i], prefix[i + 1]) {
      assert prefix[i] == run[i] && prefix[i + 1] == run[i + 1];
    }
    assert Next(x.o, x.csum, x.ops, run[|run| - 2], run[|run| - 2 + 1]);
  }

  /**
   Crash atomicity. Whatever the crashes, in building, committing, executing or in any number of
   recoveries, once the update is done or recovery has finished the metadata is exactly the state
   before the update if it did not take effect, and exactly the state after it if it did and no
   crash fell inside a buddy operation past repair. If one did, everything but the tree is
   as after the update, and the tree is not.
   */
  lemma CrashAtomic(x: Context, run: seq<Machine>)
    requires Start(x) && IsRun(x, run) && Trusted(x, run)
    ensures var m := run[|run| - 1];
            m.phase.Done? || m.phase.Recovered? ==>
              && (!Took(x, run) ==> m.meta == x.pre && !Spoilt(x.o, run))
              && (Took(x, run) ==> (m.meta == Post(x) <==> !Spoilt(x.o, run)))
              && (Took(x, run) && Spoilt(x.o, run) ==>
                    m.meta == Post(x).(tree := m.meta.tree) && Differs(x.o, m.meta.tree, Post(x).tree))
  {
    assert |run| > 0;
    hide Start, IsRun, Trusted, Took, Spoilt, Committed, Uncommitted, Spoiled, AllStores, Post;
    RunInvariant(x, run);
    RunEnd(x, run[|run| - 1], Took(x, run), Spoilt(x.o, run));
  }

  /** Where a run ends. */
  lemma RunEnd(x: Context, m: Machine, took: bool, spoilt: bool)
    requires Start(x) && InvAt(x, m, took, spoilt)
    ensures !took ==> !m.phase.Done? && !m.phase.Halted? && !spoilt && (m.phase.Recovered? ==> m.meta == x.pre)
    ensures took && (m.phase.Done? || m.phase.Recovered?) ==> Halt !in AllStores(x.ops)
    ensures took && m.phase.Halted? ==> Halt in AllStores(x.ops)
    ensures took && (m.phase.Done? || m.phase.Recovered? || m.phase.Halted?) ==>
              && (!spoilt ==> m.meta == Post(x))
              && (spoilt ==> m.meta == Post(x).(tree := m.meta.tree) && Differs(x.o, m.meta.tree, Post(x).tree))
  {
    hide Start, Committed, Uncommitted, Spoiled, AllStores, Post, Differs;
    if !took {
      UncommittedEnd(x, m);
    } else if !spoilt {
      CommittedEnd(x, m);
    } else {
      var t := SpoiledFacts(x, m);
      CommittedEnd(x, Mended(x, m));
    }
  }

  /** With one record only, the update takes effect by storing its checksum and in no other way. */
  lemma TookIsCommit(x: Context, run: seq<Machine>)
    requires Start(x) && IsRun(x, run) && x.stale == x.last
    ensures Trusted(x, run)
    ensures Took(x, run) <==> exists i :: 0 <= i < |run| && AtCommitPoint(x, run[i])
  {
    if i :| 0 <= i < |run| && TookAt(x, run[i]) {
      FirstTook(x, run, i);
    }
    if i :| 0 <= i < |run| && AtCommitPoint(x, run[i]) {
      assert TookAt(x, run[i]);
    }
  }

  lemma {:induction false} FirstTook(x: Context, run: seq<Machine>, i: nat)
    requires Start(x) && IsRun(x, run) && x.stale == x.last && i < |run| && TookAt(x, run[i])
    ensures exists j :: 0 <= j < |run| && AtCommitPoint(x, run[j])
    decreases i
  {
    if !AtCommitPoint(x, run[i]) {
      if j :| 0 <= j < i && TookAt(x, run[j]) {
        FirstTook(x, run, j);
      } else {
        assert i > 0;
        PrefixRun(x, run, i);
        RunInvariant(x, run[..i]);
        assert !Took(x, run[..i]);
        assert Next(x.o, x.csum, x.ops, run[i - 1], run[i - 1 + 1]);
        NoRevival(x, run[i - 1], run[i]);
      }
    }
  }

  lemma PrefixRun(x: Context, run: seq<Machine>, i: nat)
    requires Start(x) && IsRun(x, run) && 0 < i <= |run|
    ensures IsRun(x, run[..i]) && run[..i][i - 1] == run[i - 1]
    ensures Trusted(x, run) ==> Trusted(x, run[..i])
  {
    hide Start, Next, Records, Revives, TrustedAt;
    forall k | 0 <= k < i - 1 ensures Next(x.o, x.csum, x.ops, run[..i][k], run[..i][k + 1]) {
      assert run[..i][k] == run[k] && run[..i][k + 1] == run[k + 1];
    }
  }

  lemma UncommittedRecords(x: Context, m: Machine)
    requires Start(x) && Uncommitted(x, m)
    ensures Records(x.csum, m.log, x.last, x.stale)
  {
    hide Start, Records, Honest, Revives, BuildingOk, Scan;
  }

  lemma SameLog(x: Context, m: Machine, m': Machine)
    requires Next(x.o, x.csum, x.ops, m, m') && m'.phase.Recovering?
    ensures m'.log == m.log
  {
    hide Apply, Scan, EntryStores, Put;
  }

  lemma NoRevival(x: Context, m: Machine, m': Machine)
    requires Start(x) && Uncommitted(x, m) && Next(x.o, x.csum, x.ops, m, m') && x.stale == x.last
    ensures TookAt(x, m') ==> AtCommitPoint(x, m')
  {
    hide Start, LogOk, Revives, Apply, Uncommitted, Scan, EntryStores, Put;
    UncommittedRecords(x, m);
    OneRecordIsHonest(x, m.log);
    if m'.phase.Recovering? {
      SameLog(x, m, m');
    }
  }

  /**
   Until the update takes effect, nothing outside the log has changed; but while the last update is
   replayed once more, the status that its mark rewrites may be torn by a crash.
   */
  lemma UntouchedBeforeCommit(x: Context, run: seq<Machine>)
    requires Start(x) && IsRun(x, run) && Trusted(x, run) && !Took(x, run)
    ensures var m := run[|run| - 1];
            if m.phase.Down? || m.phase.Recovering? then
              && m.meta == x.pre.(tree := m.meta.tree)
              && OffByMark(x.pre.tree, m.meta.tree, Kept(AllStores(Ops(x.last))))
            else m.meta == x.pre
  {
    hide Start, IsRun, Took, Trusted, Spoilt, Uncommitted, OffByMark, AllStores, Kept;
    RunIsSome(x, run);
    RunInvariant(x, run);
    UntakenState(x, run[|run| - 1]);
  }

  lemma UntakenState(x: Context, m: Machine)
    requires Start(x) && Uncommitted(x, m)
    ensures if m.phase.Down? || m.phase.Recovering? then
              && m.meta == x.pre.(tree := m.meta.tree)
              && OffByMark(x.pre.tree, m.meta.tree, Kept(AllStores(Ops(x.last))))
            else m.meta == x.pre
  {
    hide LogOk, BuildingOk, Ideal, Update, Settled, AllStores, Kept;
    if m.phase.Recovering? {
      var w := m.phase.work;
      SettledReplay(x, m, w);
      MendingIsOff(x.o, x.pre.tree, m.meta.tree, w);
      if w.climb.Ground? {
        OffByMore(x.pre.tree, m.meta.tree, w.todo, ReplayStores(x.csum, m.log));
      }
    }
  }

  /**
   An update with a halt in it never ends once it took effect: it is not done and no recovery of it
   finishes, however often it is tried. Each time the machine halts in the same state.
   */
  lemma HaltsForEver(x: Context, run: seq<Machine>)
    requires Start(x) && IsRun(x, run) && Trusted(x, run)
    ensures var m := run[|run| - 1];
            && (Took(x, run) && Halt in AllStores(x.ops) ==> !m.phase.Done? && !m.phase.Recovered?)
            && (m.phase.Halted? ==>
                  && Took(x, run) && Halt in AllStores(x.ops)
                  && m.meta == Post(x).(tree := m.meta.tree) && (m.meta == Post(x) <==> !Spoilt(x.o, run)))
  {
    assert |run| > 0;
    hide Start, IsRun, Trusted, Took, Spoilt, Committed, Uncommitted, Spoiled, AllStores, Post;
    RunInvariant(x, run);
    RunEnd(x, run[|run| - 1], Took(x, run), Spoilt(x.o, run));
  }

  // The next update -------------------------------------------------------------------------------------

  /**
   The next update can start: after a finished update or a finished recovery the log again holds
   at most two commit records that can check, replaying the last one changes nothing, and recovery
   would not replay the other. A second one is left over when this update is shorter than an earlier
   one and was cut between its checksum and the erasure of the entry after it.
   */
  lemma NextUpdateCanStart(x: Context, run: seq<Machine>) returns (last: seq<Entry>, stale: seq<Entry>)
    requires Start(x) && IsRun(x, run) && Trusted(x, run)
    requires x.stale == x.last || |x.last| <= |x.ops| || |x.stale| <= |x.ops|
    requires run[|run| - 1].phase.Done? || run[|run| - 1].phase.Recovered?
    ensures var m := run[|run| - 1];
            && Records(x.csum, m.log, last, stale) && Shape(x.o, m.meta.tree) && Settled(x.o, last, m.meta)
            && (Scan(x.csum, m.log).Replay? ==> m.log[..Scan(x.csum, m.log).n] == last)
    ensures if Took(x, run) then
              && last == run[|run| - 1].log[..|x.ops|] && LogCommitted(x.csum, run[|run| - 1].log, x.ops)
              && stale == (if |x.last| > |x.ops| then x.last else if |x.stale| > |x.ops| then x.stale else last)
            else last == x.last && stale == x.stale
  {
    assert |run| > 0;
    hide Start, IsRun, Trusted, Took, Spoilt, InvAt, Records, Settled, LogCommitted, Scan;
    RunInvariant(x, run);
    var m := run[|run| - 1];
    if Took(x, run) {
      TakenFacts(x, m, Spoilt(x.o, run));
      last := m.log[..|x.ops|];
      stale := if |x.last| > |x.ops| then x.last else if |x.stale| > |x.ops| then x.stale else last;
      OwnRecords(x, m.log, stale);
    } else {
      UntakenFacts(x, m, Spoilt(x.o, run));
      last, stale := x.last, x.stale;
    }
  }

  lemma CommittedFacts(x: Context, m: Machine)
    requires Start(x) && Committed(x, m)
    ensures |x.ops| < REDOLOG_ENTRIES && LogCommitted(x.csum, m.log, x.ops) && Later(x, m.log)
  {
    hide Ahead, Later, LogCommitted, Settled, Ideal, Leads, OnWay;
  }

  lemma LogOfTaken(x: Context, m: Machine, spoilt: bool)
    requires Start(x) && InvAt(x, m, true, spoilt)
    ensures |x.ops| < REDOLOG_ENTRIES && LogCommitted(x.csum, m.log, x.ops)
  {
    hide Start, Committed, Spoiled, SpoiledBy, LogCommitted, StillAll, Differs, Mend;
    if spoilt {
      var t := SpoiledFacts(x, m);
      CommittedFacts(x, Mended(x, m));
    } else {
      CommittedFacts(x, m);
    }
  }

  lemma UntakenFacts(x: Context, m: Machine, spoilt: bool)
    requires Start(x) && InvAt(x, m, false, spoilt) && (m.phase.Done? || m.phase.Recovered?)
    ensures Records(x.csum, m.log, x.last, x.stale) && Shape(x.o, m.meta.tree) && Settled(x.o, x.last, m.meta)
    ensures Scan(x.csum, m.log).Replay? ==> m.log[..Scan(x.csum, m.log).n] == x.last
  {
    hide Records, Settled, Ideal, Honest, Update, Scan;
  }

  /** Once the update took effect its own record is the first in the log, and replaying it does nothing. */
  lemma TakenFacts(x: Context, m: Machine, spoilt: bool)
    requires Start(x) && InvAt(x, m, true, spoilt) && (m.phase.Done? || m.phase.Recovered?)
    ensures |x.ops| < REDOLOG_ENTRIES && LogCommitted(x.csum, m.log, x.ops) && Later(x, m.log)
    ensures Shape(x.o, m.meta.tree) && Settled(x.o, m.log[..|x.ops|], m.meta)
    ensures Scan(x.csum, m.log) == Replay(|x.ops|)
  {
    hide Committed, LogCommitted, Later, Start, Post, AllStores, AllStorable, Apply, StillAll, Differs, Mend, Spoiled,
         SpoiledBy, OneOnTree, Kept;
    if spoilt {
      var t := SpoiledFacts(x, m);
      CommittedFacts(x, Mended(x, m));
      CommittedEnd(x, Mended(x, m));
      StuckSettled(x, m.meta);
    } else {
      CommittedFacts(x, m);
      CommittedEnd(x, m);
      PostSettled(x);
    }
    ScanCommitted(x, m.log);
  }

  /** Replaying the update changes nothing where its tree is stuck and all else is as after it. */
  lemma StuckSettled(x: Context, m: Meta)
    requires Start(x) && Halt !in AllStores(x.ops) && StillAll(x.o, m.tree, Kept(AllStores(x.ops))) && Mend(x, m) == Post(x)
    ensures AllStorable(x.o, AllStores(x.ops)) && OneOnTree(AllStores(x.ops))
    ensures forall s :: s in AllStores(x.ops) ==> Apply(x.o, m, s) == m
  {
    hide Start, Post, AllStores;
    PostSettled(x);
    KeptAll(AllStores(x.ops));
    forall s | s in AllStores(x.ops) ensures Apply(x.o, m, s) == m {
      if !OnTree(s) {
        OffTree(x.o, m, s, Post(x).tree);
      }
    }
  }

  /** Where a committed update ends. */
  lemma CommittedEnd(x: Context, m: Machine)
    requires Start(x) && Committed(x, m)
    ensures m.phase.Done? || m.phase.Recovered? ==> m.meta == Post(x) && Halt !in AllStores(x.ops)
    ensures m.phase.Halted? ==> m.meta == Post(x) && Halt in AllStores(x.ops)
  {
    hide Start, LogCommitted, Later, Ahead, Post, AllStores;
  }

  lemma UncommittedEnd(x: Context, m: Machine)
    requires Start(x) && Uncommitted(x, m)
    ensures !m.phase.Done? && !m.phase.Halted? && (m.phase.Recovered? ==> m.meta == x.pre)
  {
    hide Start, LogOk, Revives, BuildingOk, Scan;
  }

  lemma OwnRecords(x: Context, log: Log, stale: seq<Entry>)
    requires Start(x) && LogCommitted(x.csum, log, x.ops) && Later(x, log)
    requires x.stale == x.last || |x.last| <= |x.ops| || |x.stale| <= |x.ops|
    requires stale == if |x.last| > |x.ops| then x.last else if |x.stale| > |x.ops| then x.stale else log[..|x.ops|]
    ensures Records(x.csum, log, log[..|x.ops|], stale)
  {
    hide Ahead, Settled, Decode, Independent, Ideal;
    forall c | 0 <= c < |x.ops| ensures log[c].tp != COMMIT {
      TypesAreNotCommit(x.ops[c]);
    }
  }

  lemma PostSettled(x: Context)
    requires Start(x) && Halt !in AllStores(x.ops)
    ensures Shape(x.o, Post(x).tree) && AllStorable(x.o, AllStores(x.ops)) && OneOnTree(AllStores(x.ops))
    ensures forall s :: s in AllStores(x.ops) ==> Apply(x.o, Post(x), s) == Post(x)
  {
    var ss := AllStores(x.ops);
    RunStoresExact(x.o, x.pre, ss);
    KeptAll(ss);
    IndependentHasOne(ss);
    forall s | s in ss ensures Apply(x.o, Post(x), s) == Post(x) {
      var k :| 0 <= k < |ss| && ss[k] == s;
      LateStoreAbsorbed(x.o, x.pre, ss, k);
    }
  }
}
