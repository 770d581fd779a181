/**
 Waiting on and waking from a futex word: one hash bucket with its waiter count, its lock and its
 list, any number of tasks and wakers, and a version number for every store to a word.
 */
module Futex {
  import opened Sequences

  datatype TaskPc =
    | Idle
    | Inc | Acq | Load          // count, lock the bucket, load the word
    | Refuse | DecOnly          // the value differs: unlock, take the count back
    | Enqueue | Rel | Sleep     // queue, unlock, sleep
    | UnqRead | UnqAcq | UnqCheck | UnqRetry   // unqueue: read lock_ptr, lock, check it again
    | UnqDel | UnqDec | UnqRel

  /** A task: its futex, the value it expects, the version it loaded, and whether its lock_ptr is set. */
  datatype Task = Task(pc: TaskPc, key: nat, val: int, loaded: nat, ptr: bool)

  datatype WakerPc = Ready | Store | Peek | WAcq | Scan | WDec | WNull | WRel | Done

  /** A waker: its futex, the version its store made, its place in the list, the waiter it removes,
      WAKE_ALL, and as history how many tasks it has removed. */
  datatype Waker = Waker(pc: WakerPc, key: nat, val: int, ver: nat, i: nat, target: nat, all: bool, woke: nat)

  datatype Lock = Free | ByTask(t: nat) | ByWaker(j: nat)

  /** Word values and versions by futex, the waiter count, the bucket lock, and the list of queued tasks. */
  datatype State = State(value: seq<int>, version: seq<nat>, waiters: int, lock: Lock, chain: seq<nat>,
                         tasks: seq<Task>, wakers: seq<Waker>)

  ghost predicate Shape(st: State) {
    && |st.value| == |st.version|
    && (forall t :: 0 <= t < |st.tasks| ==> st.tasks[t].key < |st.value|)
    && (forall j :: 0 <= j < |st.wakers| ==> WakerShape(st, st.wakers[j]))
    && (forall k :: 0 <= k < |st.chain| ==> st.chain[k] < |st.tasks|)
  }

  ghost predicate WakerShape(st: State, w: Waker) {
    && w.key < |st.value| && (w.pc.WDec? || w.pc.WNull? ==> w.target < |st.tasks|)
  }

  /** What is left open in a step: which futex and value, where the list puts an entry, whether to go on. */
  datatype Choice = Choice(key: nat, val: int, place: nat, again: bool)

  /** The list without a task. */
  function Removed(s: seq<nat>, t: nat): (r: seq<nat>)
    ensures |r| <= |s|
  {
    if s == [] then [] else if s[0] == t then s[1..] else [s[0]] + Removed(s[1..], t)
  }

  predicate Allowed(st: State, c: Choice) {
    c.key < |st.value| && c.place <= |st.chain|
  }

  // A step of task t, field by field ------------------------------------------------------------------

  function TaskLock(st: State, t: nat): Lock
    requires t < |st.tasks|
  {
    var pc := st.tasks[t].pc;
    if (pc.Acq? || pc.UnqAcq?) && st.lock == Free then ByTask(t)
    else if pc.Refuse? || pc.Rel? || pc.UnqRetry? || pc.UnqRel? then Free
    else st.lock
  }

  function TaskWaiters(st: State, t: nat): int
    requires t < |st.tasks|
  {
    var pc := st.tasks[t].pc;
    if pc.Inc? then st.waiters + 1 else if pc.DecOnly? || pc.UnqDec? then st.waiters - 1 else st.waiters
  }

  function TaskChain(st: State, t: nat, c: Choice): seq<nat>
    requires t < |st.tasks| && Allowed(st, c)
  {
    var pc := st.tasks[t].pc;
    if pc.Enqueue? then st.chain[..c.place] + [t] + st.chain[c.place..]
    else if pc.UnqDel? then Removed(st.chain, t)
    else st.chain
  }

  function TaskAfter(st: State, t: nat, c: Choice): Task
    requires Shape(st) && t < |st.tasks| && Allowed(st, c)
  {
    var q := st.tasks[t];
    match q.pc
    case Idle => q.(pc := Inc, key := c.key, val := c.val)
    case Inc => q.(pc := Acq, ptr := true)
    case Acq => if st.lock == Free then q.(pc := Load) else q
    case Load =>
      q.(pc := if st.value[q.key] != q.val then Refuse else Enqueue, loaded := st.version[q.key])
    case Refuse => q.(pc := DecOnly)
    case DecOnly => q.(pc := Idle)
    case Enqueue => q.(pc := Rel)
    case Rel => q.(pc := Sleep)
    case Sleep => q.(pc := UnqRead)
    case UnqRead => q.(pc := if q.ptr then UnqAcq else Idle)
    case UnqAcq => if st.lock == Free then q.(pc := UnqCheck) else q
    case UnqCheck => q.(pc := if q.ptr then UnqDel else UnqRetry)
    case UnqRetry => q.(pc := UnqRead)
    case UnqDel => q.(pc := UnqDec)
    case UnqDec => q.(pc := UnqRel)
    case UnqRel => q.(pc := if c.again then Inc else Idle)
  }

  function TaskGo(st: State, t: nat, c: Choice): State
    requires Shape(st) && t < |st.tasks| && Allowed(st, c)
  {
    State(st.value, st.version, TaskWaiters(st, t), TaskLock(st, t), TaskChain(st, t, c),
          st.tasks[t := TaskAfter(st, t, c)], st.wakers)
  }

  // A step of waker j: the store to the word, then `wake_proc` ------------------------------------------------

  predicate Hit(st: State, w: Waker)
    requires Shape(st)
  {
    w.pc.Scan? && w.i < |st.chain| && st.tasks[st.chain[w.i]].key == w.key
  }

  function WakerAfter(st: State, j: nat, c: Choice): Waker
    requires Shape(st) && j < |st.wakers| && Allowed(st, c)
  {
    var w := st.wakers[j];
    match w.pc
    case Ready => w.(pc := Store, key := c.key, val := c.val, all := c.again, woke := 0)
    case Store => w.(pc := Peek, ver := st.version[w.key] + 1)
    case Peek => w.(pc := if st.waiters == 0 then Done else WAcq)
    case WAcq => if st.lock == Free then w.(pc := Scan, i := 0) else w
    case Scan =>
      if w.i >= |st.chain| then w.(pc := WRel)
      else if Hit(st, w) then w.(pc := WDec, target := st.chain[w.i], woke := w.woke + 1)
      else w.(i := w.i + 1)
    case WDec => w.(pc := WNull)
    case WNull => w.(pc := if w.all then Scan else WRel)
    case WRel => w.(pc := Done)
    case Done => w.(pc := Ready)
  }

  function WakerTasks(st: State, j: nat): seq<Task>
    requires Shape(st) && j < |st.wakers|
  {
    var w := st.wakers[j];
    if w.pc.WNull? then assert WakerShape(st, w); st.tasks[w.target := st.tasks[w.target].(ptr := false)] else st.tasks
  }

  function WakerGo(st: State, j: nat, c: Choice): State
    requires Shape(st) && j < |st.wakers| && Allowed(st, c)
  {
    var w := st.wakers[j];
    assert WakerShape(st, w);
    State(if w.pc.Store? then st.value[w.key := w.val] else st.value,
          if w.pc.Store? then st.version[w.key := st.version[w.key] + 1] else st.version,
          if w.pc.WDec? then st.waiters - 1 else st.waiters,
          if w.pc.WAcq? && st.lock == Free then ByWaker(j) else if w.pc.WRel? then Free else st.lock,
          if Hit(st, w) then Without(st.chain, w.i) else st.chain,
          WakerTasks(st, j), st.wakers[j := WakerAfter(st, j, c)])
  }

  // Lists without repetition ---------------------------------------------------------------------------

  lemma Inserted(s: seq<nat>, k: nat, t: nat)
    requires Distinct(s) && k <= |s| && t !in s
    ensures Distinct(s[..k] + [t] + s[k..]) && |s[..k] + [t] + s[k..]| == |s| + 1
    ensures forall u :: u in s[..k] + [t] + s[k..] <==> u in s || u == t
  {
    var r := s[..k] + [t] + s[k..];
    forall u ensures u in r <==> u in s || u == t {
      if u in s {
        var i :| 0 <= i < |s| && s[i] == u;
        assert r[if i < k then i else i + 1] == u;
      }
      assert r[k] == t;
    }
  }

  lemma {:induction false} RemovedIs(s: seq<nat>, t: nat)
    requires Distinct(s) && t in s
    ensures Distinct(Removed(s, t)) && |Removed(s, t)| == |s| - 1
    ensures forall u :: u in Removed(s, t) <==> u in s && u != t
    decreases |s|
  {
    assert s == [s[0]] + s[1..];
    if s[0] == t {
    } else {
      RemovedIs(s[1..], t);
      var r := Removed(s[1..], t);
      assert s[0] !in r;
    }
  }

  // Counting -----------------------------------------------------------------------------------------------

  /** Counted in `waiters` but not queued. */
  predicate InFlight(pc: TaskPc) {
    pc.Acq? || pc.Load? || pc.Refuse? || pc.DecOnly? || pc.Enqueue? || pc.UnqDec?
  }

  function Bit(b: bool): nat { if b then 1 else 0 }

  function TasksInFlight(ts: seq<Task>): nat {
    if ts == [] then 0 else TasksInFlight(ts[..|ts| - 1]) + Bit(InFlight(ts[|ts| - 1].pc))
  }

  function WakersOwing(ws: seq<Waker>): nat {
    if ws == [] then 0 else WakersOwing(ws[..|ws| - 1]) + Bit(ws[|ws| - 1].pc.WDec?)
  }

  lemma {:induction false} TasksUpdate(ts: seq<Task>, i: nat, q: Task)
    requires i < |ts|
    ensures TasksInFlight(ts[i := q]) == TasksInFlight(ts) - Bit(InFlight(ts[i].pc)) + Bit(InFlight(q.pc))
    decreases |ts|
  {
    var n := |ts| - 1;
    if i < n {
      TasksUpdate(ts[..n], i, q);
      assert ts[i := q][..n] == ts[..n][i := q];
    } else {
      assert ts[i := q][..n] == ts[..n];
    }
  }

  lemma {:induction false} WakersUpdate(ws: seq<Waker>, i: nat, q: Waker)
    requires i < |ws|
    ensures WakersOwing(ws[i := q]) == WakersOwing(ws) - Bit(ws[i].pc.WDec?) + Bit(q.pc.WDec?)
    decreases |ws|
  {
    var n := |ws| - 1;
    if i < n {
      WakersUpdate(ws[..n], i, q);
      assert ws[i := q][..n] == ws[..n][i := q];
    } else {
      assert ws[i := q][..n] == ws[..n];
    }
  }

  lemma {:induction false} NobodyInFlight(ts: seq<Task>, t: nat)
    requires TasksInFlight(ts) == 0 && t < |ts|
    ensures !InFlight(ts[t].pc)
    decreases |ts|
  {
    if t < |ts| - 1 {
      NobodyInFlight(ts[..|ts| - 1], t);
    }
  }

  // Invariant -------------------------------------------------------------------------------------------------

  predicate TaskHolds(pc: TaskPc) {
    || pc.Load? || pc.Refuse? || pc.Enqueue? || pc.Rel? || pc.UnqCheck? || pc.UnqRetry? || pc.UnqDel?
    || pc.UnqDec? || pc.UnqRel?
  }

  predicate WakerHolds(pc: WakerPc) { pc.Scan? || pc.WDec? || pc.WNull? || pc.WRel? }

  /** After queueing and before the own removal. */
  predicate Queueable(pc: TaskPc) {
    pc.Rel? || pc.Sleep? || pc.UnqRead? || pc.UnqAcq? || pc.UnqCheck? || pc.UnqDel?
  }

  /** The waker that holds the lock is removing task t. */
  ghost predicate BeingRemoved(st: State, t: nat) {
    && st.lock.ByWaker? && st.lock.j < |st.wakers|
    && (st.wakers[st.lock.j].pc.WDec? || st.wakers[st.lock.j].pc.WNull?) && st.wakers[st.lock.j].target == t
  }

  ghost predicate TaskOk(st: State, t: nat)
    requires t < |st.tasks|
  {
    var q := st.tasks[t];
    && (TaskHolds(q.pc) <==> st.lock == ByTask(t))
    && (t in st.chain ==> Queueable(q.pc) && q.ptr)
    && (Queueable(q.pc) && q.ptr ==> t in st.chain || BeingRemoved(st, t))
    && (q.pc.Acq? || q.pc.Load? || q.pc.Enqueue? || q.pc.UnqDel? ==> q.ptr) && (q.pc.UnqRetry? ==> !q.ptr)
  }

  /** Queued, or about to be with the value already loaded. */
  ghost predicate Committed(st: State, t: nat)
    requires t < |st.tasks|
  {
    t in st.chain || st.tasks[t].pc.Enqueue?
  }

  /** No task queued on the futex, or about to be, has loaded an older version. */
  ghost predicate NoStale(st: State, key: nat, ver: nat) {
    forall t :: 0 <= t < |st.tasks| && Committed(st, t) && st.tasks[t].key == key ==> st.tasks[t].loaded >= ver
  }

  ghost predicate PassedOver(st: State, key: nat, i: nat)
    requires Shape(st)
  {
    i <= |st.chain| && forall k :: 0 <= k < i ==> st.tasks[st.chain[k]].key != key
  }

  /** The waker stops only at the end of the list. */
  predicate Sweeps(w: Waker) { w.all || w.woke == 0 }

  /** A waker that is not to wake all removes at most one task, and then stops. */
  predicate WokeOk(w: Waker) {
    && (w.pc.Store? || w.pc.Peek? || w.pc.WAcq? ==> w.woke == 0)
    && (w.pc.Scan? && !w.all ==> w.woke == 0)
    && (w.pc.WDec? || w.pc.WNull? ==> w.woke >= 1 && (!w.all ==> w.woke == 1))
    && (w.pc.WRel? || w.pc.Done? ==> w.all || w.woke <= 1)
  }

  ghost predicate WakerOk(st: State, j: nat)
    requires Shape(st) && j < |st.wakers|
  {
    var w := st.wakers[j];
    assert WakerShape(st, w);
    && (WakerHolds(w.pc) <==> st.lock == ByWaker(j))
    && (!w.pc.Ready? && !w.pc.Store? ==> w.ver <= st.version[w.key])
    && (w.pc.Scan? || w.pc.WDec? || w.pc.WNull? ==> PassedOver(st, w.key, w.i))
    && (w.pc.WDec? || w.pc.WNull? ==>
          && w.target !in st.chain && st.tasks[w.target].ptr
          && (st.tasks[w.target].pc.Sleep? || st.tasks[w.target].pc.UnqRead? || st.tasks[w.target].pc.UnqAcq?))
    && WokeOk(w)
    && (w.pc.WRel? && Sweeps(w) ==> PassedOver(st, w.key, |st.chain|))
    && (w.pc.Done? && Sweeps(w) ==> NoStale(st, w.key, w.ver))
  }

  ghost predicate Counted(st: State) {
    st.waiters == |st.chain| + TasksInFlight(st.tasks) + WakersOwing(st.wakers)
  }

  ghost predicate Inv(st: State) {
    && Shape(st) && Distinct(st.chain) && Counted(st)
    && (forall t :: 0 <= t < |st.tasks| ==> TaskOk(st, t))
    && (forall j :: 0 <= j < |st.wakers| ==> WakerOk(st, j))
  }

  // Steps of tasks ----------------------------------------------------------------------------------------------

  /** The list after a task's step, as a set. */
  lemma TaskChainIs(st: State, t: nat, c: Choice)
    requires Inv(st) && t < |st.tasks| && Allowed(st, c)
    ensures Distinct(TaskChain(st, t, c))
    ensures forall u :: u in TaskChain(st, t, c) <==>
              (u in st.chain && !(u == t && st.tasks[t].pc.UnqDel?)) || (u == t && st.tasks[t].pc.Enqueue?)
    ensures |TaskChain(st, t, c)|
         == |st.chain| + Bit(st.tasks[t].pc.Enqueue?) - Bit(st.tasks[t].pc.UnqDel?)
  {
    assert TaskOk(st, t);
    if st.tasks[t].pc.Enqueue? {
      Inserted(st.chain, c.place, t);
    } else if st.tasks[t].pc.UnqDel? {
      RemovedIs(st.chain, t);
    }
  }

  lemma TaskKeepsShape(st: State, t: nat, c: Choice)
    requires Inv(st) && t < |st.tasks| && Allowed(st, c)
    ensures Shape(TaskGo(st, t, c)) && Distinct(TaskGo(st, t, c).chain) && Counted(TaskGo(st, t, c))
  {
    TaskChainIs(st, t, c);
    TasksUpdate(st.tasks, t, TaskAfter(st, t, c));
    var st' := TaskGo(st, t, c);
    forall k | 0 <= k < |st'.chain| ensures st'.chain[k] < |st.tasks| {
      assert st'.chain[k] in st'.chain;
    }
    forall j | 0 <= j < |st.wakers| ensures WakerShape(st', st'.wakers[j]) {
      assert WakerShape(st, st.wakers[j]);
    }
  }

  lemma TaskKeepsOther(st: State, t: nat, c: Choice, u: nat)
    requires Inv(st) && t < |st.tasks| && Allowed(st, c) && u < |st.tasks| && u != t
    ensures TaskOk(TaskGo(st, t, c), u)
  {
    TaskChainIs(st, t, c);
    assert TaskOk(st, t) && TaskOk(st, u);
    hide TaskAfter, TaskChain;
  }

  lemma TaskKeepsOwn(st: State, t: nat, c: Choice)
    requires Inv(st) && t < |st.tasks| && Allowed(st, c)
    ensures TaskOk(TaskGo(st, t, c), t)
  {
    TaskChainIs(st, t, c);
    assert TaskOk(st, t);
    hide TaskChain;
  }

  lemma TaskKeepsNoStale(st: State, t: nat, c: Choice, key: nat, ver: nat)
    requires Inv(st) && t < |st.tasks| && Allowed(st, c) && key < |st.version| && ver <= st.version[key]
    requires NoStale(st, key, ver)
    ensures NoStale(TaskGo(st, t, c), key, ver)
  {
    TaskChainIs(st, t, c);
    assert TaskOk(st, t);
    var st' := TaskGo(st, t, c);
    forall u | 0 <= u < |st.tasks| && Committed(st', u) && st'.tasks[u].key == key ensures st'.tasks[u].loaded >= ver {
      assert u != t || !st.tasks[t].pc.Load? ==> Committed(st, u);
    }
  }

  /** While a waker holds the lock, tasks leave the list and its keys alone. */
  lemma TaskLeavesList(st: State, t: nat, c: Choice, j: nat)
    requires Inv(st) && t < |st.tasks| && Allowed(st, c) && j < |st.wakers| && st.lock == ByWaker(j)
    ensures TaskGo(st, t, c).chain == st.chain && TaskGo(st, t, c).lock == st.lock
    ensures t in st.chain ==> TaskAfter(st, t, c).key == st.tasks[t].key
  {
    assert TaskOk(st, t);
  }

  lemma TaskKeepsPassed(st: State, t: nat, c: Choice, j: nat, key: nat, i: nat)
    requires Inv(st) && t < |st.tasks| && Allowed(st, c) && j < |st.wakers| && st.lock == ByWaker(j)
    requires PassedOver(st, key, i) && Shape(TaskGo(st, t, c))
    ensures PassedOver(TaskGo(st, t, c), key, i)
  {
    TaskLeavesList(st, t, c, j);
    hide TaskAfter, TaskChain;
    forall k | 0 <= k < i ensures TaskGo(st, t, c).tasks[st.chain[k]].key != key {
      assert st.chain[k] in st.chain;
    }
  }

  lemma TaskKeepsWaker(st: State, t: nat, c: Choice, j: nat)
    requires Inv(st) && t < |st.tasks| && Allowed(st, c) && j < |st.wakers| && Shape(TaskGo(st, t, c))
    ensures WakerOk(TaskGo(st, t, c), j)
  {
    var w, st' := st.wakers[j], TaskGo(st, t, c);
    assert WakerOk(st, j) && TaskOk(st, t) && WakerShape(st, w);
    if WakerHolds(w.pc) {
      TaskLeavesList(st, t, c, j);
      if w.pc.WRel? {
        if w.all {
          TaskKeepsPassed(st, t, c, j, w.key, |st.chain|);
        }
      } else {
        TaskKeepsPassed(st, t, c, j, w.key, w.i);
      }
    } else if w.pc.Done? && Sweeps(w) {
      TaskKeepsNoStale(st, t, c, w.key, w.ver);
    }
  }

  lemma TaskKeepsInv(st: State, t: nat, c: Choice)
    requires Inv(st) && t < |st.tasks| && Allowed(st, c)
    ensures Inv(TaskGo(st, t, c))
  {
    TaskKeepsShape(st, t, c);
    var st' := TaskGo(st, t, c);
    forall u | 0 <= u < |st.tasks| ensures TaskOk(st', u) {
      if u == t {
        TaskKeepsOwn(st, t, c);
      } else {
        TaskKeepsOther(st, t, c, u);
      }
    }
    forall j | 0 <= j < |st.wakers| ensures WakerOk(st', j) {
      TaskKeepsWaker(st, t, c, j);
    }
    hide TaskAfter, TaskChain, TaskOk, WakerOk;
  }

  // Steps of wakers -----------------------------------------------------------------------------------------------

  lemma WakerChainIs(st: State, j: nat, c: Choice)
    requires Inv(st) && j < |st.wakers| && Allowed(st, c)
    ensures var w, st' := st.wakers[j], WakerGo(st, j, c);
            && Distinct(st'.chain)
            && (forall u :: u in st'.chain <==> u in st.chain && !(Hit(st, w) && u == st.chain[w.i]))
            && |st'.chain| == |st.chain| - Bit(Hit(st, w))
  {
    var w := st.wakers[j];
    if Hit(st, w) {
      WithoutDistinct(st.chain, w.i);
      forall u ensures u in Without(st.chain, w.i) <==> u in st.chain && u != st.chain[w.i] {
        WithoutHas(st.chain, w.i, u);
      }
    }
    hide WakerAfter, WakerTasks;
  }

  lemma WakerKeepsShape(st: State, j: nat, c: Choice)
    requires Inv(st) && j < |st.wakers| && Allowed(st, c)
    ensures Shape(WakerGo(st, j, c)) && Counted(WakerGo(st, j, c))
  {
    var w, st' := st.wakers[j], WakerGo(st, j, c);
    WakerChainIs(st, j, c);
    WakersUpdate(st.wakers, j, WakerAfter(st, j, c));
    assert WakerShape(st, w);
    if w.pc.WNull? {
      TasksUpdate(st.tasks, w.target, st.tasks[w.target].(ptr := false));
    }
    forall k | 0 <= k < |st'.chain| ensures st'.chain[k] < |st.tasks| {
      assert st'.chain[k] in st'.chain;
    }
    forall i | 0 <= i < |st.wakers| ensures WakerShape(st', st'.wakers[i]) {
      assert WakerShape(st, st.wakers[i]);
    }
  }

  lemma WakerKeepsTask(st: State, j: nat, c: Choice, t: nat)
    requires Inv(st) && j < |st.wakers| && Allowed(st, c) && t < |st.tasks|
    ensures TaskOk(WakerGo(st, j, c), t)
  {
    WakerChainIs(st, j, c);
    assert WakerOk(st, j) && TaskOk(st, t) && WakerShape(st, st.wakers[j]);
    if Hit(st, st.wakers[j]) {
      assert TaskOk(st, st.chain[st.wakers[j].i]);
    }
  }

  lemma StoreKeepsNoStale(st: State, j: nat, c: Choice, key: nat, ver: nat)
    requires Inv(st) && j < |st.wakers| && Allowed(st, c) && NoStale(st, key, ver)
    ensures NoStale(WakerGo(st, j, c), key, ver)
  {
    WakerChainIs(st, j, c);
    var st' := WakerGo(st, j, c);
    forall u | 0 <= u < |st.tasks| && Committed(st', u) && st'.tasks[u].key == key ensures st'.tasks[u].loaded >= ver {
      assert Committed(st, u);
    }
  }

  lemma WakerKeepsOther(st: State, j: nat, c: Choice, i: nat)
    requires Inv(st) && j < |st.wakers| && Allowed(st, c) && i < |st.wakers| && i != j && Shape(WakerGo(st, j, c))
    ensures WakerOk(WakerGo(st, j, c), i)
  {
    var w := st.wakers[i];
    assert WakerOk(st, j) && WakerOk(st, i) && WakerShape(st, w) && WakerShape(st, st.wakers[j]);
    WakerChainIs(st, j, c);
    if w.pc.Done? && Sweeps(w) {
      StoreKeepsNoStale(st, j, c, w.key, w.ver);
    }
    hide WakerAfter;
  }

  /** A count of zero means nobody is queued and nobody has loaded the word without being queued yet. */
  lemma ZeroMeansNobody(st: State, key: nat, ver: nat)
    requires Inv(st) && st.waiters == 0
    ensures NoStale(st, key, ver)
  {
    forall t | 0 <= t < |st.tasks| ensures !Committed(st, t) {
      NobodyInFlight(st.tasks, t);
    }
  }

  /** After a full pass with the lock held nobody is left: whoever loads and queues does so under the lock. */
  lemma PassMeansNobody(st: State, j: nat, key: nat, ver: nat)
    requires Inv(st) && j < |st.wakers| && st.lock == ByWaker(j) && PassedOver(st, key, |st.chain|)
    ensures NoStale(st, key, ver)
  {
    forall t | 0 <= t < |st.tasks| && st.tasks[t].key == key ensures !Committed(st, t) {
      assert TaskOk(st, t);
    }
  }

  lemma ScanKeepsPassed(st: State, j: nat, c: Choice)
    requires Inv(st) && j < |st.wakers| && Allowed(st, c) && Shape(WakerGo(st, j, c)) && st.wakers[j].pc.Scan?
    ensures var w := WakerAfter(st, j, c);
            PassedOver(WakerGo(st, j, c), w.key, w.i) && (w.pc.WRel? ==> w.i == |st.chain|)
  {
    assert WakerOk(st, j);
  }

  lemma WakerKeepsOwn(st: State, j: nat, c: Choice)
    requires Inv(st) && j < |st.wakers| && Allowed(st, c) && Shape(WakerGo(st, j, c))
    ensures WakerOk(WakerGo(st, j, c), j)
  {
    var w, st' := st.wakers[j], WakerGo(st, j, c);
    assert WakerOk(st, j) && WakerShape(st, w);
    WakerChainIs(st, j, c);
    if w.pc.Scan? {
      ScanKeepsPassed(st, j, c);
      if Hit(st, w) {
        assert TaskOk(st, st.chain[w.i]);
      }
    } else if w.pc.Peek? && st.waiters == 0 {
      ZeroMeansNobody(st, w.key, w.ver);
      StoreKeepsNoStale(st, j, c, w.key, w.ver);
    } else if w.pc.WRel? && Sweeps(w) {
      PassMeansNobody(st, j, w.key, w.ver);
      StoreKeepsNoStale(st, j, c, w.key, w.ver);
    }
  }

  lemma WakerKeepsInv(st: State, j: nat, c: Choice)
    requires Inv(st) && j < |st.wakers| && Allowed(st, c)
    ensures Inv(WakerGo(st, j, c))
  {
    WakerKeepsShape(st, j, c);
    WakerChainIs(st, j, c);
    var st' := WakerGo(st, j, c);
    forall t | 0 <= t < |st.tasks| ensures TaskOk(st', t) {
      WakerKeepsTask(st, j, c, t);
    }
    forall i | 0 <= i < |st.wakers| ensures WakerOk(st', i) {
      if i == j {
        WakerKeepsOwn(st, j, c);
      } else {
        WakerKeepsOther(st, j, c, i);
      }
    }
    hide WakerAfter, TaskOk, WakerOk;
  }

  // Runs ---------------------------------------------------------------------------------------------------------

  ghost predicate Init(st: State) {
    && Shape(st) && st.waiters == 0 && st.lock == Free && st.chain == []
    && (forall t :: 0 <= t < |st.tasks| ==> st.tasks[t].pc == Idle)
    && (forall j :: 0 <= j < |st.wakers| ==> st.wakers[j].pc == Ready)
  }

  ghost predicate Next(st: State, st': State) {
    && Shape(st)
    && exists x: nat, c: Choice ::
         && Allowed(st, c)
         && ((x < |st.tasks| && st' == TaskGo(st, x, c)) || (x < |st.wakers| && st' == WakerGo(st, x, c)))
  }

  ghost predicate IsRun(run: seq<State>) {
    |run| > 0 && Init(run[0]) && forall i :: 0 <= i < |run| - 1 ==> Next(run[i], run[i + 1])
  }

  lemma {:induction false} NoneInFlight(ts: seq<Task>, ws: seq<Waker>)
    requires forall t :: 0 <= t < |ts| ==> ts[t].pc == Idle
    requires forall j :: 0 <= j < |ws| ==> ws[j].pc == Ready
    ensures TasksInFlight(ts) == 0 && WakersOwing(ws) == 0
    decreases |ts| + |ws|
  {
    if ts != [] {
      NoneInFlight(ts[..|ts| - 1], ws);
    } else if ws != [] {
      NoneInFlight(ts, ws[..|ws| - 1]);
    }
  }

  lemma StepKeepsInv(st: State, st': State)
    requires Inv(st) && Next(st, st')
    ensures Inv(st')
  {
    hide TaskGo, WakerGo, Inv;
    var x: nat, c: Choice :| && Allowed(st, c)
      && ((x < |st.tasks| && st' == TaskGo(st, x, c)) || (x < |st.wakers| && st' == WakerGo(st, x, c)));
    if x < |st.tasks| && st' == TaskGo(st, x, c) {
      TaskKeepsInv(st, x, c);
    } else {
      WakerKeepsInv(st, x, c);
    }
  }

  lemma InitInv(st: State)
    requires Init(st)
    ensures Inv(st)
  {
    NoneInFlight(st.tasks, st.wakers);
  }

  lemma {:induction false} RunInv(run: seq<State>, i: nat)
    requires IsRun(run) && i < |run|
    ensures Inv(run[i])
    decreases i
  {
    hide Inv, Next, Init;
    if i == 0 {
      InitInv(run[0]);
    } else {
      RunInv(run, i - 1);
      assert Next(run[i - 1], run[i - 1 + 1]);
      StepKeepsInv(run[i - 1], run[i]);
    }
  }

  /** The count is always the queued tasks plus those on their way in or out. */
  lemma WaitersExact(run: seq<State>, i: nat)
    requires IsRun(run) && i < |run|
    ensures run[i].waiters == |run[i].chain| + TasksInFlight(run[i].tasks) + WakersOwing(run[i].wakers)
  {
    RunInv(run, i);
  }

  /**
   No lost wake-up: when a waker that stored to the word has completed `wake_proc` with WAKE_ALL,
   whoever is queued on that futex loaded the word after that store.
   */
  lemma NoLostWakeUp(run: seq<State>, i: nat, j: nat, t: nat)
    requires IsRun(run) && i < |run| && j < |run[i].wakers| && t < |run[i].tasks|
    requires run[i].wakers[j].pc.Done? && run[i].wakers[j].all
    requires t in run[i].chain && run[i].tasks[t].key == run[i].wakers[j].key
    ensures run[i].tasks[t].loaded >= run[i].wakers[j].ver
  {
    RunInv(run, i);
    assert WakerOk(run[i], j);
    assert Committed(run[i], t);
  }

  /**
   WAKE_NEXT: a waker that has completed has removed at most one task, and if it removed none,
   whoever is queued on that futex loaded the word after the waker's store.
   */
  lemma WakeNextExact(run: seq<State>, i: nat, j: nat)
    requires IsRun(run) && i < |run| && j < |run[i].wakers|
    requires run[i].wakers[j].pc.Done? && !run[i].wakers[j].all
    ensures run[i].wakers[j].woke <= 1
    ensures run[i].wakers[j].woke == 0 ==>
              forall t :: 0 <= t < |run[i].tasks| && t in run[i].chain && run[i].tasks[t].key == run[i].wakers[j].key
                ==> run[i].tasks[t].loaded >= run[i].wakers[j].ver
  {
    RunInv(run, i);
    assert WakerOk(run[i], j);
    if run[i].wakers[j].woke == 0 {
      forall t | 0 <= t < |run[i].tasks| && t in run[i].chain && run[i].tasks[t].key == run[i].wakers[j].key
        ensures run[i].tasks[t].loaded >= run[i].wakers[j].ver
      {
        assert Committed(run[i], t);
      }
    }
  }

  /** Every task counted as removed was queued on the waker's futex and left the list in that step. */
  lemma WokenWasQueued(run: seq<State>, i: nat, j: nat)
    requires IsRun(run) && i + 1 < |run| && j < |run[i].wakers| && j < |run[i + 1].wakers|
    requires run[i + 1].wakers[j].woke > run[i].wakers[j].woke
    ensures exists t: nat :: && t < |run[i].tasks| && t in run[i].chain && t !in run[i + 1].chain
                             && run[i].tasks[t].key == run[i].wakers[j].key
  {
    RunInv(run, i);
    var st, st' := run[i], run[i + 1];
    assert Next(st, st');
    var x: nat, c: Choice :| && Allowed(st, c)
      && ((x < |st.tasks| && st' == TaskGo(st, x, c)) || (x < |st.wakers| && st' == WakerGo(st, x, c)));
    assert x == j && st' == WakerGo(st, j, c);
    HitRemoves(st, j, c);
  }

  lemma HitRemoves(st: State, j: nat, c: Choice)
    requires Inv(st) && j < |st.wakers| && Allowed(st, c) && WakerAfter(st, j, c).woke > st.wakers[j].woke
    ensures exists t: nat :: && t < |st.tasks| && t in st.chain && t !in WakerGo(st, j, c).chain
                             && st.tasks[t].key == st.wakers[j].key
  {
    var w := st.wakers[j];
    WakerChainIs(st, j, c);
    assert Hit(st, w);
    var t := st.chain[w.i];
    assert t in st.chain;
  }

  /** A task removes itself only while it is queued: a set lock_ptr, seen under the lock, means so. */
  lemma UnqueueIsSafe(run: seq<State>, i: nat, t: nat)
    requires IsRun(run) && i < |run| && t < |run[i].tasks|
    requires run[i].tasks[t].pc.UnqDel?
    ensures t in run[i].chain
  {
    RunInv(run, i);
    assert TaskOk(run[i], t);
  }

  // Values ---------------------------------------------------------------------------------------------------------

  /** After a load that found the expected value, until the wait is over. */
  predicate Accepted(pc: TaskPc) {
    pc.Enqueue? || pc.Rel? || pc.Sleep? || pc.UnqRead? || pc.UnqAcq? || pc.UnqCheck? || pc.UnqRetry? || pc.UnqDel?
    || pc.UnqDec? || pc.UnqRel?
  }

  /** After a load that found another value. */
  predicate Refused(pc: TaskPc) { pc.Refuse? || pc.DecOnly? }

  /** The word still has the version that the task loaded. */
  predicate Current(st: State, q: Task)
    requires |st.value| == |st.version| && q.key < |st.value|
  {
    q.loaded == st.version[q.key]
  }

  /** As long as the word has the version loaded, it has the expected value exactly when the task was let in. */
  predicate TaskValue(st: State, q: Task)
    requires |st.value| == |st.version| && q.key < |st.value|
  {
    && (Accepted(q.pc) || Refused(q.pc) ==> q.loaded <= st.version[q.key])
    && (Accepted(q.pc) && Current(st, q) ==> st.value[q.key] == q.val)
    && (Refused(q.pc) && Current(st, q) ==> st.value[q.key] != q.val)
  }

  /** As long as the word has the version a waker made, it has that waker's value. */
  predicate WakerValue(st: State, w: Waker)
    requires |st.value| == |st.version| && w.key < |st.value|
  {
    !w.pc.Ready? && !w.pc.Store? ==>
      w.ver <= st.version[w.key] && (w.ver == st.version[w.key] ==> st.value[w.key] == w.val)
  }

  ghost predicate Values(st: State)
    requires Shape(st)
  {
    && (forall t :: 0 <= t < |st.tasks| ==> TaskValue(st, st.tasks[t]))
    && (forall j :: 0 <= j < |st.wakers| ==> WakerShape(st, st.wakers[j]) && WakerValue(st, st.wakers[j]))
  }

  lemma TaskKeepsValues(st: State, t: nat, c: Choice)
    requires Shape(st) && Values(st) && t < |st.tasks| && Allowed(st, c) && Shape(TaskGo(st, t, c))
    ensures Values(TaskGo(st, t, c))
  {
    var st' := TaskGo(st, t, c);
    forall j | 0 <= j < |st.wakers| ensures WakerShape(st', st'.wakers[j]) && WakerValue(st', st'.wakers[j]) {
      assert WakerShape(st, st.wakers[j]) && WakerValue(st, st.wakers[j]);
    }
    forall u | 0 <= u < |st.tasks| ensures TaskValue(st', st'.tasks[u]) {
      assert TaskValue(st, st.tasks[u]);
    }
  }

  lemma WakerKeepsValues(st: State, j: nat, c: Choice)
    requires Shape(st) && Values(st) && j < |st.wakers| && Allowed(st, c) && Shape(WakerGo(st, j, c))
    ensures Values(WakerGo(st, j, c))
  {
    var st' := WakerGo(st, j, c);
    assert WakerShape(st, st.wakers[j]) && WakerValue(st, st.wakers[j]);
    forall i | 0 <= i < |st.wakers| ensures WakerShape(st', st'.wakers[i]) && WakerValue(st', st'.wakers[i]) {
      assert WakerShape(st, st.wakers[i]) && WakerValue(st, st.wakers[i]) && WakerShape(st', st'.wakers[i]);
    }
    forall u | 0 <= u < |st.tasks| ensures TaskValue(st', st'.tasks[u]) {
      assert TaskValue(st, st.tasks[u]);
    }
  }

  lemma StepKeepsValues(st: State, st': State)
    requires Inv(st) && Values(st) && Next(st, st') && Inv(st')
    ensures Values(st')
  {
    hide TaskGo, WakerGo, Values, TaskOk, WakerOk;
    var x: nat, c: Choice :| && Allowed(st, c)
      && ((x < |st.tasks| && st' == TaskGo(st, x, c)) || (x < |st.wakers| && st' == WakerGo(st, x, c)));
    if x < |st.tasks| && st' == TaskGo(st, x, c) {
      TaskKeepsValues(st, x, c);
    } else {
      WakerKeepsValues(st, x, c);
    }
  }

  lemma InitValues(st: State)
    requires Init(st)
    ensures Values(st)
  {
    forall j | 0 <= j < |st.wakers| ensures WakerShape(st, st.wakers[j]) && WakerValue(st, st.wakers[j]) {
      assert WakerShape(st, st.wakers[j]);
    }
  }

  lemma {:induction false} RunValues(run: seq<State>, i: nat)
    requires IsRun(run) && i < |run|
    ensures Inv(run[i]) && Values(run[i])
    decreases i
  {
    hide Inv, Next, Init, Values;
    RunInv(run, i);
    if i == 0 {
      InvShape(run[0]);
      InitValues(run[0]);
    } else {
      RunValues(run, i - 1);
      assert Next(run[i - 1], run[i - 1 + 1]);
      InvShape(run[i - 1]);
      InvShape(run[i]);
      StepKeepsValues(run[i - 1], run[i]);
    }
  }

  lemma InvShape(st: State)
    requires Inv(st)
    ensures Shape(st)
  {
  }

  /**
   Who sleeps and who is refused: a task in the wait queue expected the value that its word had in the
   version it loaded, and a task that is refused expected another. So while that version is current, the
   word has the value a queued task expects, and not the one a refused task expects.
   */
  lemma WaitsOnValue(run: seq<State>, i: nat, t: nat)
    requires IsRun(run) && i < |run| && t < |run[i].tasks|
    ensures Shape(run[i])
    ensures var st, q := run[i], run[i].tasks[t];
            && (t in st.chain ==> q.loaded <= st.version[q.key] && (Current(st, q) ==> st.value[q.key] == q.val))
            && (Refused(q.pc) ==> q.loaded <= st.version[q.key] && (Current(st, q) ==> st.value[q.key] != q.val))
  {
    RunValues(run, i);
    assert TaskOk(run[i], t) && TaskValue(run[i], run[i].tasks[t]);
  }

  /** A queued task whose word no longer has the value it expects: the word was stored to after its load. */
  lemma ChangedSinceLoad(run: seq<State>, i: nat, t: nat)
    requires IsRun(run) && i < |run| && t < |run[i].tasks| && t in run[i].chain
    ensures Shape(run[i])
    ensures var st, q := run[i], run[i].tasks[t]; st.value[q.key] != q.val ==> q.loaded < st.version[q.key]
  {
    WaitsOnValue(run, i, t);
  }

  /**
   No lost wake-up, by values: when the last store to a word was made by a waker that has completed with
   WAKE_ALL, or with WAKE_NEXT and found nobody, the word has that waker's value and everybody queued
   on it expects exactly this value.
   */
  lemma QueuedExpectsWord(run: seq<State>, i: nat, j: nat, t: nat)
    requires IsRun(run) && i < |run| && j < |run[i].wakers| && t < |run[i].tasks| && Shape(run[i])
    requires run[i].wakers[j].pc.Done? && Sweeps(run[i].wakers[j]) && WakerShape(run[i], run[i].wakers[j])
    requires run[i].wakers[j].ver == run[i].version[run[i].wakers[j].key]
    requires t in run[i].chain && run[i].tasks[t].key == run[i].wakers[j].key
    ensures run[i].tasks[t].val == run[i].wakers[j].val == run[i].value[run[i].tasks[t].key]
  {
    var st := run[i];
    RunValues(run, i);
    WaitsOnValue(run, i, t);
    assert WakerOk(st, j) && WakerValue(st, st.wakers[j]) && Committed(st, t);
  }
}
