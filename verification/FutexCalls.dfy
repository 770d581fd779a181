/**
 What whole calls on a futex do: a wait that is let in or refused, a wait that is given up or woken, and
 a wake. Each call is taken from any state that a run reaches, and runs alone from there.
 */
module FutexCalls {
  import opened Sequences
  import opened Futex

  // Waiting ----------------------------------------------------------------------------------------------

  /** Task t can run with these choices: the place to be queued at is one among the other queued tasks. */
  ghost predicate TaskCan(st: State, t: nat, c: Choice) {
    Inv(st) && Shape(st) && t < |st.tasks| && c.key < |st.value| && c.place + Bit(t in st.chain) <= |st.chain|
  }

  /** The state after k steps of task t alone. */
  ghost function TaskAlone(st: State, t: nat, c: Choice, k: nat): (r: State)
    requires TaskCan(st, t, c)
    ensures TaskCan(r, t, c)
    decreases k
  {
    if k == 0 then st
    else
      TaskKeepsInv(st, t, c);
      TaskKeepsSizes(st, t, c);
      TaskAlone(TaskGo(st, t, c), t, c, k - 1)
  }

  lemma TaskKeepsSizes(st: State, t: nat, c: Choice)
    requires TaskCan(st, t, c)
    ensures var st' := TaskGo(st, t, c);
            && |st'.tasks| == |st.tasks| && st'.value == st.value && st'.version == st.version
            && c.place + Bit(t in st'.chain) <= |st'.chain|
  {
    OwnOk(st, t);
    TaskChainIs(st, t, c);
  }

  lemma TaskStep(st: State, t: nat, c: Choice, k: nat)
    requires TaskCan(st, t, c) && k > 0
    ensures TaskCan(TaskGo(st, t, c), t, c) && TaskAlone(st, t, c, k) == TaskAlone(TaskGo(st, t, c), t, c, k - 1)
  {
    TaskKeepsInv(st, t, c);
    TaskKeepsSizes(st, t, c);
    hide Inv, TaskGo;
  }

  lemma TaskCanGo(st: State, t: nat, c: Choice)
    requires TaskCan(st, t, c)
    ensures Shape(st) && Allowed(st, c)
  {
    hide Inv;
  }

  lemma OwnOk(st: State, t: nat)
    requires Inv(st) && t < |st.tasks|
    ensures TaskOk(st, t)
  {
  }

  /** The first three steps: counted, and at the load with the bucket locked. */
  lemma ComesToLoad(st: State, t: nat, c: Choice)
    requires TaskCan(st, t, c) && st.lock == Free && st.tasks[t].pc == Idle
    ensures TaskAlone(st, t, c, 3) ==
            st.(waiters := st.waiters + 1, lock := ByTask(t),
                tasks := st.tasks[t := Task(Load, c.key, c.val, st.tasks[t].loaded, true)])
  {
    hide Inv, Removed;
    TaskStep(st, t, c, 3);
    var st1 := TaskGo(st, t, c);
    TaskStep(st1, t, c, 2);
    var st2 := TaskGo(st1, t, c);
    TaskStep(st2, t, c, 1);
    var st3 := TaskGo(st2, t, c);
    assert st3.tasks == st.tasks[t := Task(Load, c.key, c.val, st.tasks[t].loaded, true)];
  }

  lemma {:induction false} TaskSplit(st: State, t: nat, c: Choice, j: nat, k: nat)
    requires TaskCan(st, t, c)
    ensures TaskAlone(st, t, c, j + k) == TaskAlone(TaskAlone(st, t, c, j), t, c, k)
    decreases j
  {
    hide Inv, TaskGo;
    if j > 0 {
      TaskCanGo(st, t, c);
      TaskStep(st, t, c, j + k);
      TaskStep(st, t, c, j);
      TaskSplit(TaskGo(st, t, c), t, c, j - 1, k);
    }
  }

  /** From the load on: asleep in the queue, or out again. */
  lemma LoadDecides(st: State, t: nat, c: Choice)
    requires TaskCan(st, t, c) && st.lock == ByTask(t) && st.tasks[t].pc == Load
    ensures var st', q := TaskAlone(st, t, c, 3), st.tasks[t];
            && st'.lock == Free && st'.wakers == st.wakers
            && if st.value[q.key] == q.val then
                 st' == st.(lock := Free, chain := st.chain[..c.place] + [t] + st.chain[c.place..],
                            tasks := st.tasks[t := q.(pc := Sleep, loaded := st.version[q.key])])
               else
                 st' == st.(lock := Free, waiters := st.waiters - 1,
                            tasks := st.tasks[t := q.(pc := Idle, loaded := st.version[q.key])])
  {
    hide Inv, Removed;
    OwnOk(st, t);
    TaskStep(st, t, c, 3);
    var st1 := TaskGo(st, t, c);
    TaskStep(st1, t, c, 2);
    var st2 := TaskGo(st1, t, c);
    TaskStep(st2, t, c, 1);
    var st3 := TaskGo(st2, t, c);
  }

  /**
   A wait alone: the task is asleep in the queue with the word's present version if the word has the
   value it expects, and out again, with count and queue as before, if it has not.
   */
  lemma WaitAlone(st: State, t: nat, c: Choice)
    requires TaskCan(st, t, c) && st.lock == Free && st.tasks[t].pc == Idle
    ensures var st' := TaskAlone(st, t, c, 6);
            && st'.lock == Free && st'.value == st.value && st'.wakers == st.wakers
            && if st.value[c.key] == c.val then
                 && st'.chain == st.chain[..c.place] + [t] + st.chain[c.place..] && st'.waiters == st.waiters + 1
                 && st'.tasks == st.tasks[t := Task(Sleep, c.key, c.val, st.version[c.key], true)]
               else
                 && st'.chain == st.chain && st'.waiters == st.waiters
                 && st'.tasks == st.tasks[t := Task(Idle, c.key, c.val, st.version[c.key], true)]
  {
    hide Inv, Removed;
    ComesToLoad(st, t, c);
    TaskSplit(st, t, c, 3, 3);
    var at := TaskAlone(st, t, c, 3);
    LoadDecides(at, t, c);
    assert at.tasks[t := Task(Sleep, c.key, c.val, st.version[c.key], true)]
        == st.tasks[t := Task(Sleep, c.key, c.val, st.version[c.key], true)];
    assert at.tasks[t := Task(Idle, c.key, c.val, st.version[c.key], true)]
        == st.tasks[t := Task(Idle, c.key, c.val, st.version[c.key], true)];
  }

  /** A task that was woken leaves with its next two steps and changes nothing else. */
  lemma WokenLeaves(st: State, t: nat, c: Choice)
    requires TaskCan(st, t, c) && st.tasks[t].pc == Sleep && !st.tasks[t].ptr
    ensures TaskAlone(st, t, c, 2) == st.(tasks := st.tasks[t := st.tasks[t].(pc := Idle)])
  {
    hide Inv, Removed;
    TaskStep(st, t, c, 2);
    var st1 := TaskGo(st, t, c);
    TaskStep(st1, t, c, 1);
  }

  /** A task that was woken while it waited for the bucket lock sees so, unlocks the bucket and leaves. */
  lemma RetryLeaves(st: State, t: nat, c: Choice)
    requires TaskCan(st, t, c) && st.tasks[t].pc == UnqAcq && !st.tasks[t].ptr && st.lock == Free
    ensures TaskAlone(st, t, c, 4) == st.(tasks := st.tasks[t := st.tasks[t].(pc := Idle)])
  {
    hide Inv, Removed;
    TaskStep(st, t, c, 4);
    var st1 := TaskGo(st, t, c);
    TaskStep(st1, t, c, 3);
    var st2 := TaskGo(st1, t, c);
    TaskStep(st2, t, c, 2);
    var st3 := TaskGo(st2, t, c);
    TaskStep(st3, t, c, 1);
    assert st3.lock == Free;
  }

  /** A task that gives up takes itself out of the queue and the count, and leaves. */
  lemma GiveUpAlone(st: State, t: nat, c: Choice)
    requires TaskCan(st, t, c) && st.tasks[t].pc == Sleep && t in st.chain && st.lock == Free && !c.again
    ensures TaskAlone(st, t, c, 7) ==
            st.(waiters := st.waiters - 1, chain := Removed(st.chain, t),
                tasks := st.tasks[t := st.tasks[t].(pc := Idle)])
  {
    hide Inv, Removed, TaskGo, TaskAlone;
    ComesToDelete(st, t, c);
    GivesUp(TaskAlone(st, t, c, 4), t, c);
    TaskSplit(st, t, c, 4, 3);
  }

  /** A queued task that stops waiting locks the bucket and finds itself still queued. */
  lemma ComesToDelete(st: State, t: nat, c: Choice)
    requires TaskCan(st, t, c) && st.tasks[t].pc == Sleep && t in st.chain && st.lock == Free
    ensures TaskAlone(st, t, c, 4) == st.(lock := ByTask(t), tasks := st.tasks[t := st.tasks[t].(pc := UnqDel)])
  {
    hide Inv, Removed;
    OwnOk(st, t);
    TaskStep(st, t, c, 4);
    var st1 := TaskGo(st, t, c);
    TaskStep(st1, t, c, 3);
    var st2 := TaskGo(st1, t, c);
    TaskStep(st2, t, c, 2);
    var st3 := TaskGo(st2, t, c);
    TaskStep(st3, t, c, 1);
  }

  lemma GivesUp(st: State, t: nat, c: Choice)
    requires TaskCan(st, t, c) && st.tasks[t].pc == UnqDel && !c.again
    ensures TaskAlone(st, t, c, 3) ==
            st.(lock := Free, waiters := st.waiters - 1, chain := Removed(st.chain, t),
                tasks := st.tasks[t := st.tasks[t].(pc := Idle)])
  {
    hide Inv, Removed;
    TaskStep(st, t, c, 3);
    var st1 := TaskGo(st, t, c);
    TaskStep(st1, t, c, 2);
    var st2 := TaskGo(st1, t, c);
    TaskStep(st2, t, c, 1);
  }

  // Waking -----------------------------------------------------------------------------------------------

  ghost predicate WakerCan(st: State, j: nat, c: Choice) {
    Inv(st) && Shape(st) && j < |st.wakers| && c.key < |st.value| && c.place == 0
  }

  /** The state after k steps of waker j alone. */
  ghost function WakerAlone(st: State, j: nat, c: Choice, k: nat): (r: State)
    requires WakerCan(st, j, c)
    ensures WakerCan(r, j, c) && j < |r.wakers|
    decreases k
  {
    if k == 0 then st
    else
      WakerKeepsInv(st, j, c);
      WakerKeepsSizes(st, j, c);
      WakerAlone(WakerGo(st, j, c), j, c, k - 1)
  }

  lemma WakerKeepsSizes(st: State, j: nat, c: Choice)
    requires WakerCan(st, j, c)
    ensures var st' := WakerGo(st, j, c); |st'.wakers| == |st.wakers| && |st'.value| == |st.value|
  {
    assert WakerShape(st, st.wakers[j]);
  }

  lemma WakerCanGo(st: State, j: nat, c: Choice)
    requires WakerCan(st, j, c)
    ensures Shape(st) && Allowed(st, c)
  {
    hide Inv;
  }

  lemma WakerStep(st: State, j: nat, c: Choice, k: nat)
    requires WakerCan(st, j, c) && k > 0
    ensures WakerCan(WakerGo(st, j, c), j, c) && WakerAlone(st, j, c, k) == WakerAlone(WakerGo(st, j, c), j, c, k - 1)
  {
    WakerKeepsInv(st, j, c);
    WakerKeepsSizes(st, j, c);
    hide Inv, WakerGo;
  }

  lemma {:induction false} WakerSplit(st: State, j: nat, c: Choice, a: nat, b: nat)
    requires WakerCan(st, j, c)
    ensures WakerAlone(st, j, c, a + b) == WakerAlone(WakerAlone(st, j, c, a), j, c, b)
    decreases a
  {
    hide Inv, WakerGo;
    if a > 0 {
      WakerCanGo(st, j, c);
      WakerStep(st, j, c, a + b);
      WakerStep(st, j, c, a);
      WakerSplit(WakerGo(st, j, c), j, c, a - 1, b);
    }
  }

  // What is left in the queue

  ghost predicate InTasks(ts: seq<Task>, chain: seq<nat>) {
    forall k :: 0 <= k < |chain| ==> chain[k] < |ts|
  }

  /** The queue without the tasks on one futex. */
  ghost function Others(ts: seq<Task>, chain: seq<nat>, key: nat): seq<nat>
    requires InTasks(ts, chain)
    decreases |chain|
  {
    if chain == [] then []
    else
      assert InTasks(ts, chain[1..]);
      if ts[chain[0]].key == key then Others(ts, chain[1..], key) else [chain[0]] + Others(ts, chain[1..], key)
  }

  /** The first task in the queue on one futex, by its place, or the end of the queue. */
  ghost function First(ts: seq<Task>, chain: seq<nat>, key: nat): (k: nat)
    requires InTasks(ts, chain)
    ensures k <= |chain| && (forall i :: 0 <= i < k ==> ts[chain[i]].key != key)
    ensures k < |chain| ==> ts[chain[k]].key == key
    decreases |chain|
  {
    if chain == [] || ts[chain[0]].key == key then 0
    else
      assert InTasks(ts, chain[1..]);
      var k := First(ts, chain[1..], key);
      assert forall i :: 1 <= i < k + 1 ==> chain[1..][i - 1] == chain[i];
      k + 1
  }

  lemma {:induction false} OthersWithout(ts: seq<Task>, chain: seq<nat>, key: nat, i: nat)
    requires InTasks(ts, chain) && i < |chain| && ts[chain[i]].key == key
    ensures InTasks(ts, Without(chain, i)) && Others(ts, Without(chain, i), key) == Others(ts, chain, key)
    decreases |chain|
  {
    var rest := chain[1..];
    assert InTasks(ts, rest);
    if i == 0 {
      assert Without(chain, 0) == rest;
    } else {
      OthersWithout(ts, rest, key, i - 1);
      assert Without(chain, i) == [chain[0]] + Without(rest, i - 1);
      assert Without(chain, i)[1..] == Without(rest, i - 1);
    }
  }

  lemma {:induction false} OthersAll(ts: seq<Task>, chain: seq<nat>, key: nat)
    requires InTasks(ts, chain) && forall k :: 0 <= k < |chain| ==> ts[chain[k]].key != key
    ensures Others(ts, chain, key) == chain
    decreases |chain|
  {
    if chain != [] {
      var rest := chain[1..];
      assert forall k :: 0 <= k < |rest| ==> rest[k] == chain[k + 1];
      OthersAll(ts, rest, key);
    }
  }

  lemma {:induction false} OthersSameKeys(ts: seq<Task>, ts': seq<Task>, chain: seq<nat>, key: nat)
    requires InTasks(ts, chain) && |ts'| == |ts| && forall t :: 0 <= t < |ts| ==> ts'[t].key == ts[t].key
    ensures InTasks(ts', chain) && Others(ts', chain, key) == Others(ts, chain, key)
    decreases |chain|
  {
    if chain != [] {
      assert InTasks(ts, chain[1..]);
      OthersSameKeys(ts, ts', chain[1..], key);
    }
  }

  /** The tasks after some were woken: the lock_ptr of each of these is cleared, and nothing else. */
  ghost predicate Woke(ts: seq<Task>, ts': seq<Task>, chain: seq<nat>, chain': seq<nat>) {
    && |ts'| == |ts|
    && forall t :: 0 <= t < |ts| ==>
         ts'[t] == if t in chain && t !in chain' then ts[t].(ptr := false) else ts[t]
  }

  /** What a scan under the lock has come to. */
  ghost predicate Scanned(st: State, st': State, j: nat, chain': seq<nat>)
    requires j < |st.wakers|
  {
    && |st'.wakers| == |st.wakers| && st'.value == st.value && st'.version == st.version && st'.lock == st.lock
    && st'.chain == chain' && |chain'| <= |st.chain| && st'.waiters == st.waiters - (|st.chain| - |chain'|)
    && Woke(st.tasks, st'.tasks, st.chain, chain')
    && st'.wakers[j].woke == st.wakers[j].woke + (|st.chain| - |chain'|)
    && st'.wakers[j].key == st.wakers[j].key && st'.wakers[j].val == st.wakers[j].val
    && st'.wakers[j].ver == st.wakers[j].ver && st'.wakers[j].all == st.wakers[j].all
  }

  lemma ScannedOn(st: State, st1: State, st2: State, j: nat, c1: seq<nat>, c2: seq<nat>)
    requires j < |st.wakers| && Scanned(st, st1, j, c1) && j < |st1.wakers| && Scanned(st1, st2, j, c2)
    requires (forall t :: t in c1 ==> t in st.chain) && (forall t :: t in c2 ==> t in c1)
    ensures Scanned(st, st2, j, c2)
  {
  }

  /** Removing one task takes three steps. */
  lemma HitSteps(st: State, j: nat, c: Choice)
    requires WakerCan(st, j, c) && Hit(st, st.wakers[j])
    ensures var st', i := WakerAlone(st, j, c, 3), st.wakers[j].i;
            && Scanned(st, st', j, Without(st.chain, i)) && st'.wakers[j].i == i
            && st'.wakers[j].pc == if st.wakers[j].all then Scan else WRel
  {
    hide Inv, Distinct;
    var i := st.wakers[j].i;
    ChainDistinct(st);
    WithoutOnly(st.chain, i);
    WakerStep(st, j, c, 3);
    var st1 := WakerGo(st, j, c);
    WakerStep(st1, j, c, 2);
    var st2 := WakerGo(st1, j, c);
    WakerStep(st2, j, c, 1);
  }

  lemma WithoutOnly(s: seq<nat>, i: nat)
    requires Distinct(s) && i < |s|
    ensures |Without(s, i)| == |s| - 1
    ensures forall t :: t in s && t !in Without(s, i) <==> t == s[i]
  {
    forall t ensures t in s && t !in Without(s, i) <==> t == s[i] {
      WithoutHas(s, i, t);
    }
  }

  lemma ChainDistinct(st: State)
    requires Inv(st)
    ensures Distinct(st.chain) && InTasks(st.tasks, st.chain)
  {
  }

  /** At the end of the queue the scan ends. */
  lemma EndSteps(st: State, j: nat, c: Choice)
    requires WakerCan(st, j, c) && st.wakers[j].pc == Scan && st.wakers[j].i >= |st.chain|
    ensures var st' := WakerAlone(st, j, c, 1); Scanned(st, st', j, st.chain) && st'.wakers[j].pc == WRel
  {
    hide Inv;
    WakerStep(st, j, c, 1);
  }

  /** A task on another futex is passed over. */
  lemma SkipSteps(st: State, j: nat, c: Choice)
    requires WakerCan(st, j, c) && st.wakers[j].pc == Scan && st.wakers[j].i < |st.chain| && !Hit(st, st.wakers[j])
    ensures var st' := WakerAlone(st, j, c, 1);
            Scanned(st, st', j, st.chain) && st'.wakers[j].pc == Scan && st'.wakers[j].i == st.wakers[j].i + 1
  {
    hide Inv;
    WakerStep(st, j, c, 1);
  }

  ghost predicate Scans(st: State, j: nat, c: Choice) {
    WakerCan(st, j, c) && st.wakers[j].pc == Scan && PassedOver(st, st.wakers[j].key, st.wakers[j].i)
    && InTasks(st.tasks, st.chain)
  }

  ghost predicate SameCall(st: State, st': State, j: nat) {
    && j < |st.wakers| && j < |st'.wakers|
    && st'.wakers[j].all == st.wakers[j].all && st'.wakers[j].key == st.wakers[j].key
  }

  lemma SkipScans(st: State, st': State, j: nat, c: Choice)
    requires Scans(st, j, c) && !Hit(st, st.wakers[j]) && st.wakers[j].i < |st.chain|
    requires WakerCan(st', j, c) && Scanned(st, st', j, st.chain) && st'.wakers[j].pc == Scan
    requires st'.wakers[j].i == st.wakers[j].i + 1
    ensures Scans(st', j, c) && st'.tasks == st.tasks && SameCall(st, st', j)
    ensures st'.chain == st.chain && |st'.chain| - st'.wakers[j].i < |st.chain| - st.wakers[j].i
  {
    hide Inv;
    ChainDistinct(st');
    assert st'.tasks == st.tasks;
  }

  lemma HitScans(st: State, st': State, j: nat, c: Choice)
    requires Scans(st, j, c) && Hit(st, st.wakers[j]) && WakerCan(st', j, c) && st'.wakers[j].pc == Scan
    requires Scanned(st, st', j, Without(st.chain, st.wakers[j].i)) && st'.wakers[j].i == st.wakers[j].i
    ensures Scans(st', j, c) && SameCall(st, st', j) && |st'.chain| - st'.wakers[j].i < |st.chain| - st.wakers[j].i
    ensures Scanned(st, st', j, st'.chain)
    ensures Others(st'.tasks, st'.chain, st.wakers[j].key) == Others(st.tasks, st.chain, st.wakers[j].key)
    ensures forall t :: t in Others(st'.tasks, st'.chain, st.wakers[j].key) ==> t in st'.chain
    ensures forall t :: t in st'.chain ==> t in st.chain
  {
    hide Inv;
    var w := st.wakers[j];
    ChainDistinct(st');
    HitPasses(st, st', w.key, w.i);
    OthersWithout(st.tasks, st.chain, w.key, w.i);
    OthersSameKeys(st.tasks, st'.tasks, st'.chain, w.key);
    OthersAreIn(st'.tasks, st'.chain, w.key);
  }

  /** With WAKE_ALL the scan takes every task on the futex out of the queue and wakes it. */
  lemma {:induction false} ScanAll(st: State, j: nat, c: Choice) returns (k: nat)
    requires Scans(st, j, c) && st.wakers[j].all && j < |st.wakers|
    ensures var st' := WakerAlone(st, j, c, k);
            && j < |st'.wakers| && st'.wakers[j].pc == WRel && InTasks(st.tasks, st.chain)
            && Scanned(st, st', j, Others(st.tasks, st.chain, st.wakers[j].key))
    decreases |st.chain| - st.wakers[j].i
  {
    hide Inv, WakerCan, WakerAlone, WakerGo, Others, PassedOver, Scans, Hit, Scanned, Shape, InTasks;
    ScanParts(st, j, c);
    var w := st.wakers[j];
    if w.i >= |st.chain| {
      k := 1;
      EndSteps(st, j, c);
      ScansToEnd(st, j, c);
    } else if Hit(st, w) {
      HitSteps(st, j, c);
      var st3 := WakerAlone(st, j, c, 3);
      HitScans(st, st3, j, c);
      var k3 := ScanAll(st3, j, c);
      WakerSplit(st, j, c, 3, k3);
      k := 3 + k3;
      ScannedOn(st, st3, WakerAlone(st3, j, c, k3), j, st3.chain, Others(st.tasks, st.chain, w.key));
    } else {
      SkipSteps(st, j, c);
      var st1 := WakerAlone(st, j, c, 1);
      SkipScans(st, st1, j, c);
      var k1 := ScanAll(st1, j, c);
      WakerSplit(st, j, c, 1, k1);
      k := 1 + k1;
      OthersAreIn(st.tasks, st.chain, w.key);
      ScannedOn(st, st1, WakerAlone(st1, j, c, k1), j, st1.chain, Others(st.tasks, st.chain, w.key));
    }
  }

  lemma ScanParts(st: State, j: nat, c: Choice)
    requires Scans(st, j, c)
    ensures WakerCan(st, j, c) && Shape(st) && j < |st.wakers| && st.wakers[j].pc == Scan && InTasks(st.tasks, st.chain)
    ensures st.wakers[j].i <= |st.chain|
  {
    hide Inv;
  }

  lemma ScansToEnd(st: State, j: nat, c: Choice)
    requires Scans(st, j, c) && st.wakers[j].i >= |st.chain|
    ensures Others(st.tasks, st.chain, st.wakers[j].key) == st.chain
  {
    hide Inv;
    OthersAll(st.tasks, st.chain, st.wakers[j].key);
  }

  lemma HitPasses(st: State, st': State, key: nat, i: nat)
    requires Shape(st) && Shape(st') && PassedOver(st, key, i) && i < |st.chain| && st'.chain == Without(st.chain, i)
    requires |st'.tasks| == |st.tasks| && forall t :: 0 <= t < |st.tasks| ==> st'.tasks[t].key == st.tasks[t].key
    ensures PassedOver(st', key, i)
  {
  }

  lemma {:induction false} OthersAreIn(ts: seq<Task>, chain: seq<nat>, key: nat)
    requires InTasks(ts, chain)
    ensures |Others(ts, chain, key)| <= |chain|
    ensures forall t :: t in Others(ts, chain, key) <==> t in chain && 0 <= t < |ts| && ts[t].key != key
    decreases |chain|
  {
    if chain != [] {
      assert InTasks(ts, chain[1..]);
      OthersAreIn(ts, chain[1..], key);
      assert chain == [chain[0]] + chain[1..];
    }
  }

  lemma FirstWithout(ts: seq<Task>, chain: seq<nat>, key: nat, i: nat)
    requires InTasks(ts, chain) && i <= |chain| && (forall k :: 0 <= k < i ==> ts[chain[k]].key != key)
    requires i < |chain| ==> ts[chain[i]].key == key
    ensures First(ts, chain, key) == i
  {
  }

  /** The queue after WAKE_NEXT: without the first task on the futex, if there is one. */
  ghost function NextOut(ts: seq<Task>, chain: seq<nat>, key: nat): seq<nat>
    requires InTasks(ts, chain)
  {
    var k := First(ts, chain, key);
    if k < |chain| then Without(chain, k) else chain
  }

  /** With WAKE_NEXT the scan takes the first task on the futex out of the queue and wakes it, and no other. */
  lemma {:induction false} ScanNext(st: State, j: nat, c: Choice) returns (k: nat)
    requires Scans(st, j, c) && j < |st.wakers| && !st.wakers[j].all
    ensures var st' := WakerAlone(st, j, c, k);
            && st'.wakers[j].pc == WRel && InTasks(st.tasks, st.chain)
            && Scanned(st, st', j, NextOut(st.tasks, st.chain, st.wakers[j].key))
    decreases |st.chain| - st.wakers[j].i
  {
    hide Inv, WakerCan, WakerAlone, WakerGo, PassedOver, Scans, Hit, Scanned, Shape, InTasks, NextOut;
    ScanParts(st, j, c);
    var w := st.wakers[j];
    ScanStops(st, j, c);
    if w.i >= |st.chain| {
      k := 1;
      EndSteps(st, j, c);
    } else if Hit(st, w) {
      k := 3;
      HitSteps(st, j, c);
    } else {
      SkipSteps(st, j, c);
      var st1 := WakerAlone(st, j, c, 1);
      SkipScans(st, st1, j, c);
      var k1 := ScanNext(st1, j, c);
      WakerSplit(st, j, c, 1, k1);
      k := 1 + k1;
      NextOutIn(st.tasks, st.chain, w.key);
      ScannedOn(st, st1, WakerAlone(st1, j, c, k1), j, st1.chain, NextOut(st.tasks, st.chain, w.key));
    }
  }

  lemma NextOutIn(ts: seq<Task>, chain: seq<nat>, key: nat)
    requires InTasks(ts, chain)
    ensures forall t :: t in NextOut(ts, chain, key) ==> t in chain
  {
  }

  lemma ScanStops(st: State, j: nat, c: Choice)
    requires Scans(st, j, c)
    ensures st.wakers[j].i >= |st.chain| ==> NextOut(st.tasks, st.chain, st.wakers[j].key) == st.chain
    ensures Hit(st, st.wakers[j]) ==> NextOut(st.tasks, st.chain, st.wakers[j].key) == Without(st.chain, st.wakers[j].i)
  {
    hide Inv;
    var w := st.wakers[j];
    if w.i >= |st.chain| || Hit(st, w) {
      FirstWithout(st.tasks, st.chain, w.key, w.i);
    }
  }

  /** The store and what follows up to the scan, or to the end if nobody waits. */
  lemma StoresFirst(st: State, j: nat, c: Choice)
    requires WakerCan(st, j, c) && st.wakers[j].pc == Ready && st.lock == Free
    ensures var st' := WakerAlone(st, j, c, if st.waiters == 0 then 3 else 4);
            && st'.value == st.value[c.key := c.val] && st'.version == st.version[c.key := st.version[c.key] + 1]
            && st'.chain == st.chain && st'.tasks == st.tasks && st'.waiters == st.waiters
            && st'.lock == (if st.waiters == 0 then Free else ByWaker(j))
            && st'.wakers[j] == Waker(if st.waiters == 0 then Done else Scan, c.key, c.val, st.version[c.key] + 1,
                                      if st.waiters == 0 then st.wakers[j].i else 0, st.wakers[j].target, c.again, 0)
  {
    hide Inv;
    WakerStep(st, j, c, if st.waiters == 0 then 3 else 4);
    var st1 := WakerGo(st, j, c);
    WakerStep(st1, j, c, if st.waiters == 0 then 2 else 3);
    var st2 := WakerGo(st1, j, c);
    WakerStep(st2, j, c, if st.waiters == 0 then 1 else 2);
    var st3 := WakerGo(st2, j, c);
    if st.waiters != 0 {
      WakerStep(st3, j, c, 1);
    }
  }

  lemma UnlocksLast(st: State, j: nat, c: Choice)
    requires WakerCan(st, j, c) && st.wakers[j].pc == WRel
    ensures WakerAlone(st, j, c, 1) == st.(lock := Free, wakers := st.wakers[j := st.wakers[j].(pc := Done)])
  {
    hide Inv;
    WakerStep(st, j, c, 1);
  }

  /** A waker that is done may wake again. */
  lemma StartsAgain(st: State, j: nat, c: Choice)
    requires WakerCan(st, j, c) && st.wakers[j].pc == Done
    ensures WakerAlone(st, j, c, 1) == st.(wakers := st.wakers[j := st.wakers[j].(pc := Ready)])
  {
    hide Inv;
    WakerStep(st, j, c, 1);
  }

  /** The queue after a wake. */
  ghost function LeftInQueue(ts: seq<Task>, chain: seq<nat>, key: nat, all: bool): seq<nat>
    requires InTasks(ts, chain)
  {
    if all then Others(ts, chain, key) else NextOut(ts, chain, key)
  }

  /**
   A wake alone: it stores its value under a new version, takes out of the queue and wakes every task on
   the futex, or with WAKE_NEXT the first one if there is one, gives back their counts, and ends with
   the bucket unlocked and the number of tasks it woke.
   */
  lemma WakeAlone(st: State, j: nat, c: Choice) returns (k: nat)
    requires WakerCan(st, j, c) && st.wakers[j].pc == Ready && st.lock == Free
    ensures InTasks(st.tasks, st.chain)
    ensures var st', left := WakerAlone(st, j, c, k), LeftInQueue(st.tasks, st.chain, c.key, c.again);
            && st'.wakers[j].pc == Done && st'.wakers[j].woke == |st.chain| - |left| && st'.lock == Free
            && st'.value == st.value[c.key := c.val] && st'.version == st.version[c.key := st.version[c.key] + 1]
            && st'.chain == left && st'.waiters == st.waiters - (|st.chain| - |left|)
            && Woke(st.tasks, st'.tasks, st.chain, left)
  {
    hide Inv, WakerAlone, WakerGo, Others, NextOut, PassedOver;
    ChainDistinct(st);
    StoresFirst(st, j, c);
    if st.waiters == 0 {
      k := 3;
      NobodyQueued(st);
      assert LeftInQueue(st.tasks, st.chain, c.key, c.again) == st.chain by { NothingLeft(st.tasks, st.chain, c.key); }
    } else {
      var st4 := WakerAlone(st, j, c, 4);
      StartsScan(st4, j, c);
      var k4;
      if c.again {
        k4 := ScanAll(st4, j, c);
      } else {
        k4 := ScanNext(st4, j, c);
      }
      var st5 := WakerAlone(st4, j, c, k4);
      UnlocksLast(st5, j, c);
      WakerSplit(st4, j, c, k4, 1);
      WakerSplit(st, j, c, 4, k4 + 1);
      k := 4 + (k4 + 1);
    }
  }

  lemma StartsScan(st: State, j: nat, c: Choice)
    requires WakerCan(st, j, c) && st.wakers[j].pc == Scan && st.wakers[j].i == 0
    ensures Scans(st, j, c)
  {
    ChainDistinct(st);
  }

  lemma NothingLeft(ts: seq<Task>, chain: seq<nat>, key: nat)
    requires chain == []
    ensures InTasks(ts, chain) && Others(ts, chain, key) == [] && NextOut(ts, chain, key) == []
  {
  }

  lemma NobodyQueued(st: State)
    requires Inv(st) && st.waiters == 0
    ensures st.chain == []
  {
  }
}
