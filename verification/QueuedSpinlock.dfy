/**
 The queued spinlock: a word with a locked byte, a pending byte and a tail, and one queue node per
 thread. Every shared read, store and atomic operation of every thread is one step.
 */
module QueuedSpinlock {

  // The tail field ---------------------------------------------------------------------------------

  /** `encode_tail`: the thread in the bits from 18 on, the nesting index in bits 16 and 17. */
  function EncodeTail(cpu: nat, idx: nat): nat {
    (cpu + 1) * 0x40000 + idx * 0x10000
  }

  /** `decode_tail`: the place of the node in the pool. */
  function DecodeTail(tail: nat): int {
    4 * (tail / 0x40000 - 1) + tail / 0x10000 % 4
  }

  /** A tail names its node, leaves the two low bytes free and is never zero: below it is a thread or NONE. */
  lemma TailReadsBack(cpu: nat, idx: nat)
    requires cpu < 0x3fff && idx < 4
    ensures DecodeTail(EncodeTail(cpu, idx)) == 4 * cpu + idx
    ensures EncodeTail(cpu, idx) % 0x10000 == 0 && 0 < EncodeTail(cpu, idx) < 0x1_0000_0000
  {
    var t := EncodeTail(cpu, idx);
    assert t / 0x10000 == 4 * (cpu + 1) + idx;
    assert t / 0x40000 == cpu + 1;
  }

  // The step system --------------------------------------------------------------------------------

  const NONE := -1

  /** The lock word; `tail` is a thread or NONE. */
  datatype Word = Word(locked: bool, pending: bool, tail: int)

  const ZERO := Word(false, false, NONE)
  const PENDING_ONLY := Word(false, true, NONE)

  datatype Pc =
    | Idle
    | Fast                          // the first compare-and-swap of `lock_acquire`
    | AwaitHandOver | TryOrPend     // slow path: wait out 0,1,0; then trylock or pending
    | PendingWait | PendingTake     // pending: wait for the owner, take over
    | NodeInit | TryRead | TryCas   // queue: prepare the node, try once more
    | Exchange                      // put the node at the tail
    | LinkPrev | NodeWait | NodeNext  // link behind the predecessor, wait to be head, read next
    | HeadWait | HeadLock           // head: wait for owner and pending, claim the lock
    | NextWait | PassOn             // holding: find the successor and make it head
    | Critical

  datatype Thread = Thread(pc: Pc, val: Word, prev: int, nxt: int)

  /**
   The shared memory and the threads, with history: `chain` is the holder that has yet to pass the
   head role on, if any, followed by the queue; `enq` and `deq` are the threads in the order of
   their tail exchanges and of their acquisitions from the queue.
   */
  datatype State = State(word: Word, next: seq<int>, flag: seq<bool>, ts: seq<Thread>,
                         chain: seq<nat>, enq: seq<nat>, deq: seq<nat>, holder: int, pend: int)

  predicate ThreadWf(n: nat, t: Thread) {
    NONE <= t.nxt < n && (t.pc.LinkPrev? ==> 0 <= t.prev < n) && (t.pc.PassOn? ==> 0 <= t.nxt < n)
  }

  ghost predicate Wf(n: nat, st: State) {
    && |st.next| == |st.flag| == |st.ts| == n && NONE <= st.word.tail < n
    && (forall t :: 0 <= t < n ==> NONE <= st.next[t] < n && ThreadWf(n, st.ts[t]))
  }

  /** Is the queue head alone, and the word still what it read? */
  predicate LastOut(st: State, p: nat)
    requires p < |st.ts|
  {
    st.ts[p].val.tail == p && st.word == st.ts[p].val
  }

  predicate HeadGets(st: State, p: nat)
    requires p < |st.ts|
  {
    st.ts[p].pc.HeadLock? && (st.ts[p].val.tail != p || st.word == st.ts[p].val)
  }

  // A step of thread p, field by field --------------------------------------------------------------

  function WordAfter(st: State, p: nat): Word
    requires p < |st.ts|
  {
    var t, w := st.ts[p], st.word;
    match t.pc
    case Fast => if w == ZERO then w.(locked := true) else w
    case TryOrPend =>
      if t.val.pending || t.val.tail != NONE || w != t.val then w
      else if t.val.locked then w.(pending := true) else w.(locked := true)
    case PendingTake => w.(locked := true, pending := false)
    case TryCas => if w == ZERO then w.(locked := true) else w
    case Exchange => w.(tail := p)
    case HeadLock =>
      if t.val.tail != p then w.(locked := true)
      else if w == t.val then Word(true, false, NONE)
      else w
    case Critical => w.(locked := false)
    case Idle => w
    case AwaitHandOver => w
    case PendingWait => w
    case NodeInit => w
    case TryRead => w
    case LinkPrev => w
    case NodeWait => w
    case NodeNext => w
    case HeadWait => w
    case NextWait => w
    case PassOn => w
  }

  function NextAfter(n: nat, st: State, p: nat): seq<int>
    requires Wf(n, st) && p < n
  {
    var t := st.ts[p];
    if t.pc.NodeInit? then st.next[p := NONE]
    else if t.pc.LinkPrev? then st.next[t.prev := p]
    else st.next
  }

  function FlagAfter(n: nat, st: State, p: nat): seq<bool>
    requires Wf(n, st) && p < n
  {
    var t := st.ts[p];
    if t.pc.NodeInit? then st.flag[p := false]
    else if t.pc.PassOn? then st.flag[t.nxt := true]
    else st.flag
  }

  function ThreadAfter(n: nat, st: State, p: nat): Thread
    requires Wf(n, st) && p < n
  {
    var t, w := st.ts[p], st.word;
    match t.pc
    case Idle => t.(pc := Fast)
    case Fast => if w == ZERO then t.(pc := Critical) else t.(pc := AwaitHandOver, val := w)
    case AwaitHandOver => if t.val == PENDING_ONLY then t.(val := w) else t.(pc := TryOrPend)
    case TryOrPend =>
      if t.val.pending || t.val.tail != NONE then t.(pc := NodeInit)
      else if w != t.val then t.(val := w)
      else t.(pc := if t.val.locked then PendingWait else Critical)
    case PendingWait => if w.locked then t else t.(pc := PendingTake)
    case PendingTake => t.(pc := Critical)
    case NodeInit => t.(pc := TryRead)
    case TryRead => t.(pc := if w == ZERO then TryCas else Exchange)
    case TryCas => t.(pc := if w == ZERO then Critical else Exchange)
    case Exchange => t.(pc := if w.tail == NONE then HeadWait else LinkPrev, prev := w.tail, nxt := NONE)
    case LinkPrev => t.(pc := NodeWait)
    case NodeWait => if st.flag[p] then t.(pc := NodeNext) else t
    case NodeNext => t.(pc := HeadWait, nxt := st.next[p])
    case HeadWait => if w.locked || w.pending then t else t.(pc := HeadLock, val := w)
    case HeadLock =>
      if t.val.tail != p then t.(pc := if t.nxt == NONE then NextWait else PassOn)
      else if w == t.val then t.(pc := Critical)
      else t.(val := w)
    case NextWait => if st.next[p] == NONE then t else t.(pc := PassOn, nxt := st.next[p])
    case PassOn => t.(pc := Critical)
    case Critical => t.(pc := Idle)
  }

  function ChainAfter(st: State, p: nat): seq<nat>
    requires p < |st.ts|
  {
    var t := st.ts[p];
    if t.pc.Exchange? then st.chain + [p]
    else if (t.pc.PassOn? || (t.pc.HeadLock? && LastOut(st, p))) && st.chain != [] then st.chain[1..]
    else st.chain
  }

  /** The step in which thread p gets the lock. */
  predicate Acquires(st: State, p: nat)
    requires p < |st.ts|
  {
    var t, w := st.ts[p], st.word;
    || (t.pc.Fast? && w == ZERO) || (t.pc.TryCas? && w == ZERO) || t.pc.PendingTake? || HeadGets(st, p)
    || (t.pc.TryOrPend? && w == t.val && w == ZERO)
  }

  predicate BecomesPending(st: State, p: nat)
    requires p < |st.ts|
  {
    st.ts[p].pc.TryOrPend? && st.word == st.ts[p].val && st.word == Word(true, false, NONE)
  }

  function Go(n: nat, st: State, p: nat): State
    requires Wf(n, st) && p < n
  {
    State(WordAfter(st, p), NextAfter(n, st, p), FlagAfter(n, st, p), st.ts[p := ThreadAfter(n, st, p)],
          ChainAfter(st, p),
          if st.ts[p].pc.Exchange? then st.enq + [p] else st.enq,
          if HeadGets(st, p) then st.deq + [p] else st.deq,
          if Acquires(st, p) then p else if st.ts[p].pc.Critical? then NONE else st.holder,
          if BecomesPending(st, p) then p else if st.ts[p].pc.PendingTake? then NONE else st.pend)
  }

  ghost predicate Init(n: nat, st: State) {
    && Wf(n, st)
    && st.word == ZERO && st.chain == [] && st.enq == [] && st.deq == [] && st.holder == NONE && st.pend == NONE
    && forall t :: 0 <= t < n ==> st.ts[t].pc == Idle
  }

  // Who holds and who is pending ----------------------------------------------------------------------

  predicate Holding(pc: Pc) { pc.Critical? || pc.NextWait? || pc.PassOn? }

  predicate IsPending(pc: Pc) { pc.PendingWait? || pc.PendingTake? }

  predicate InChain(pc: Pc) {
    pc.LinkPrev? || pc.NodeWait? || pc.NodeNext? || pc.HeadWait? || pc.HeadLock? || pc.NextWait? || pc.PassOn?
  }

  ghost predicate OwnersAt(st: State, t: nat)
    requires t < |st.ts|
  {
    var pc := st.ts[t].pc;
    && (Holding(pc) <==> st.holder == t) && (IsPending(pc) <==> st.pend == t)
    && (pc.PendingTake? ==> !st.word.locked)
    && (pc.HeadLock? ==> !st.word.locked && !st.word.pending)
  }

  ghost predicate Owners(n: nat, st: State)
    requires Wf(n, st)
  {
    && (st.word.locked <==> 0 <= st.holder < n) && (st.word.pending <==> 0 <= st.pend < n)
    && NONE <= st.holder < n && NONE <= st.pend < n
    && forall t :: 0 <= t < n ==> OwnersAt(st, t)
  }

  // The queue ----------------------------------------------------------------------------------------------

  predicate HasNode(pc: Pc) { pc.TryRead? || pc.TryCas? || pc.Exchange? }

  ghost predicate NodesAt(st: State, t: nat)
    requires t < |st.ts| == |st.next| == |st.flag|
  {
    && (InChain(st.ts[t].pc) <==> t in st.chain)
    && (HasNode(st.ts[t].pc) ==> st.next[t] == NONE && !st.flag[t])
  }

  ghost predicate ChainShape(n: nat, st: State) {
    && (forall i :: 0 <= i < |st.chain| ==> st.chain[i] < n)
    && (forall i, j :: 0 <= i < j < |st.chain| ==> st.chain[i] != st.chain[j])
    && st.word.tail == if st.chain == [] then NONE else st.chain[|st.chain| - 1]
  }

  /** The head of the chain, and what it knows of its successor. */
  ghost predicate HeadOk(n: nat, st: State)
    requires Wf(n, st) && ChainShape(n, st) && st.chain != []
  {
    var h, t, more := st.chain[0], st.ts[st.chain[0]], |st.chain| > 1;
    && ((t.pc.NodeWait? && st.flag[h]) || t.pc.NodeNext? || t.pc.HeadWait? || t.pc.HeadLock? || t.pc.NextWait? || t.pc.PassOn?)
    && (t.pc.HeadWait? || t.pc.HeadLock? || t.pc.NextWait? || t.pc.PassOn? ==>
          t.nxt == NONE || (more && t.nxt == st.chain[1] && st.ts[st.chain[1]].pc.NodeWait?))
    && (t.pc.NextWait? || t.pc.PassOn? || (t.pc.HeadLock? && t.val.tail != h) ==> more)
    && (t.pc.PassOn? ==> t.nxt != NONE)
  }

  /** Neighbours in the chain: the later one waits, and is linked as soon as it has stored the link. */
  ghost predicate LinkOk(n: nat, st: State, k: nat)
    requires Wf(n, st) && ChainShape(n, st) && k + 1 < |st.chain|
  {
    var a, b := st.chain[k], st.chain[k + 1];
    var t := st.ts[b];
    && (t.pc.LinkPrev? || t.pc.NodeWait?) && !st.flag[b]
    && (t.pc.LinkPrev? ==> t.prev == a)
    && st.next[a] == if t.pc.NodeWait? then b else NONE
  }

  ghost predicate Chain(n: nat, st: State)
    requires Wf(n, st)
  {
    && ChainShape(n, st)
    && (forall t :: 0 <= t < n ==> NodesAt(st, t))
    && (st.chain != [] ==> HeadOk(n, st) && st.next[st.chain[|st.chain| - 1]] == NONE)
    && (forall k {:trigger LinkOk(n, st, k)} :: 0 <= k < |st.chain| - 1 ==> LinkOk(n, st, k))
  }

  ghost predicate Inv(n: nat, st: State) {
    Wf(n, st) && Owners(n, st) && Chain(n, st)
  }

  lemma InitInv(n: nat, st: State)
    requires Init(n, st)
    ensures Inv(n, st)
  {
  }

  // Owners and pending are kept --------------------------------------------------------------------------

  lemma GoWf(n: nat, st: State, p: nat)
    requires Wf(n, st) && p < n
    ensures Wf(n, Go(n, st, p))
  {
    ThreadStaysWf(n, st, p);
    assert ThreadWf(n, st.ts[p]) && NONE <= st.next[p] < n;
    hide ThreadAfter;
  }

  lemma ThreadStaysWf(n: nat, st: State, p: nat)
    requires Wf(n, st) && p < n
    ensures ThreadWf(n, ThreadAfter(n, st, p))
  {
    assert ThreadWf(n, st.ts[p]) && NONE <= st.next[p] < n;
  }

  /** At a head that may claim the lock the word shows a tail, so no shortcut to the lock is open. */
  lemma TailShown(n: nat, st: State, t: nat)
    requires Inv(n, st) && t < n && InChain(st.ts[t].pc)
    ensures st.word.tail != NONE && st.chain != []
  {
    assert NodesAt(st, t);
  }

  predicate HeadOnly(pc: Pc) {
    pc.NodeNext? || pc.HeadWait? || pc.HeadLock? || pc.NextWait? || pc.PassOn?
  }

  /** A thread past its node wait is the head of the chain; so is one whose flag is up. */
  lemma IsHead(n: nat, st: State, t: nat)
    requires Inv(n, st) && t < n && (HeadOnly(st.ts[t].pc) || (st.ts[t].pc.NodeWait? && st.flag[t]))
    ensures st.chain != [] && st.chain[0] == t
  {
    assert NodesAt(st, t);
    var i :| 0 <= i < |st.chain| && st.chain[i] == t;
    assert i == 0 || LinkOk(n, st, i - 1);
  }

  lemma OthersKeepOwners(n: nat, st: State, p: nat, q: nat)
    requires Inv(n, st) && p < n && q < n && q != p
    ensures OwnersAt(Go(n, st, p), q)
  {
    hide ThreadAfter, NextAfter, FlagAfter, ChainAfter;
    assert OwnersAt(st, p) && OwnersAt(st, q);
    if st.ts[q].pc.HeadLock? {
      TailShown(n, st, q);
      IsHead(n, st, q);
    }
    if st.ts[p].pc.HeadLock? {
      IsHead(n, st, p);
    }
  }

  lemma OwnOwners(n: nat, st: State, p: nat)
    requires Inv(n, st) && p < n
    ensures OwnersAt(Go(n, st, p), p)
  {
    hide NextAfter, FlagAfter, ChainAfter;
    assert OwnersAt(st, p);
  }

  lemma GoKeepsOwners(n: nat, st: State, p: nat)
    requires Inv(n, st) && p < n && Wf(n, Go(n, st, p))
    ensures Owners(n, Go(n, st, p))
  {
    forall t | 0 <= t < n ensures OwnersAt(Go(n, st, p), t) {
      if t == p {
        OwnOwners(n, st, p);
      } else {
        OthersKeepOwners(n, st, p, t);
      }
    }
    assert OwnersAt(st, p);
    hide ThreadAfter, NextAfter, FlagAfter, ChainAfter, OwnersAt;
  }

  // The queue is kept, step kind by step kind ------------------------------------------------------------------

  /** Steps outside the queue leave it alone. */
  lemma OutsideKeepsChain(n: nat, st: State, p: nat)
    requires Inv(n, st) && p < n && Wf(n, Go(n, st, p))
    requires !InChain(st.ts[p].pc) && !st.ts[p].pc.Exchange?
    ensures Chain(n, Go(n, st, p))
  {
    var st' := Go(n, st, p);
    assert NodesAt(st, p);
    OutsideNodes(n, st, p);
    hide ThreadAfter;
    assert st'.chain == st.chain && st'.word.tail == st.word.tail;
    forall t | t in st.chain ensures st'.ts[t] == st.ts[t] && st'.next[t] == st.next[t] && st'.flag[t] == st.flag[t] {
    }
    forall k | 0 <= k < |st.chain| - 1 ensures LinkOk(n, st', k) {
      assert LinkOk(n, st, k) && st.chain[k] in st.chain && st.chain[k + 1] in st.chain;
    }
    if st.chain != [] {
      assert st.chain[0] in st.chain && st.chain[|st.chain| - 1] in st.chain;
      assert |st.chain| > 1 ==> st.chain[1] in st.chain;
    }
    forall t | 0 <= t < n ensures NodesAt(st', t) {
      assert NodesAt(st, t);
    }
  }

  lemma OutsideNodes(n: nat, st: State, p: nat)
    requires Inv(n, st) && p < n && !InChain(st.ts[p].pc) && !st.ts[p].pc.Exchange?
    ensures NodesAt(Go(n, st, p), p)
    ensures Go(n, st, p).word.tail == st.word.tail && Go(n, st, p).chain == st.chain
  {
    assert NodesAt(st, p);
  }

  /** The exchange puts the thread behind the last one. */
  lemma ExchangeKeepsShape(n: nat, st: State, p: nat)
    requires Inv(n, st) && p < n && Wf(n, Go(n, st, p)) && st.ts[p].pc.Exchange?
    ensures var st' := Go(n, st, p);
            && p !in st.chain && st'.chain == st.chain + [p] && st'.next == st.next && st'.flag == st.flag
            && ChainShape(n, st')
  {
    ExchangeEffect(n, st, p);
    hide Go, Inv, NodesAt;
    var c := st.chain;
    assert forall i :: 0 <= i < |c| ==> (c + [p])[i] == c[i] && c[i] in c;
  }

  lemma ExchangeEffect(n: nat, st: State, p: nat)
    requires Inv(n, st) && p < n && st.ts[p].pc.Exchange?
    ensures ChainShape(n, st) && p !in st.chain
    ensures var st' := Go(n, st, p);
            st'.chain == st.chain + [p] && st'.next == st.next && st'.flag == st.flag && st'.word.tail == p
  {
    assert NodesAt(st, p);
    hide HeadOk, LinkOk, Owners, ThreadAfter;
  }

  lemma ExchangeKeepsLink(n: nat, st: State, p: nat, k: nat)
    requires Inv(n, st) && p < n && Wf(n, Go(n, st, p)) && st.ts[p].pc.Exchange?
    requires ChainShape(n, Go(n, st, p)) && Go(n, st, p).chain == st.chain + [p] && p !in st.chain && k < |st.chain|
    ensures LinkOk(n, Go(n, st, p), k)
  {
    assert NodesAt(st, p) && st.chain[k] in st.chain;
    if k < |st.chain| - 1 {
      assert LinkOk(n, st, k) && st.chain[k + 1] in st.chain;
    }
  }

  lemma ExchangeKeepsChain(n: nat, st: State, p: nat)
    requires Inv(n, st) && p < n && Wf(n, Go(n, st, p)) && st.ts[p].pc.Exchange?
    ensures Chain(n, Go(n, st, p))
  {
    var st', c := Go(n, st, p), st.chain;
    ExchangeKeepsShape(n, st, p);
    assert NodesAt(st, p);
    forall k | 0 <= k < |c + [p]| - 1 ensures LinkOk(n, st', k) {
      ExchangeKeepsLink(n, st, p, k);
    }
    if c != [] {
      assert c[0] in c && (|c| > 1 ==> c[1] in c);
    }
    forall t | 0 <= t < n ensures NodesAt(st', t) {
      assert NodesAt(st, t);
    }
  }

  /** The index of a thread that has yet to store its link, and of its predecessor. */
  lemma LinkIndex(n: nat, st: State, p: nat) returns (i: nat)
    requires Inv(n, st) && p < n && st.ts[p].pc.LinkPrev?
    ensures i + 1 < |st.chain| && st.chain[i + 1] == p && st.chain[i] == st.ts[p].prev
  {
    assert NodesAt(st, p);
    var j :| 0 <= j < |st.chain| && st.chain[j] == p;
    assert j > 0;
    i := j - 1;
    assert LinkOk(n, st, i);
  }

  lemma LinkKeepsChain(n: nat, st: State, p: nat)
    requires Inv(n, st) && p < n && Wf(n, Go(n, st, p)) && st.ts[p].pc.LinkPrev?
    ensures Chain(n, Go(n, st, p))
  {
    var st', c := Go(n, st, p), st.chain;
    var i := LinkIndex(n, st, p);
    assert st'.chain == c && st'.flag == st.flag && st'.word == st.word;
    forall k | 0 <= k < |c| - 1 ensures LinkOk(n, st', k) {
      assert LinkOk(n, st, k);
    }
    forall t | 0 <= t < n ensures NodesAt(st', t) {
      LinkKeepsNodes(n, st, p, t);
    }
  }

  lemma LinkKeepsNodes(n: nat, st: State, p: nat, t: nat)
    requires Inv(n, st) && p < n && t < n && st.ts[p].pc.LinkPrev?
    ensures NodesAt(Go(n, st, p), t)
  {
    var i := LinkIndex(n, st, p);
    assert NodesAt(st, t) && NodesAt(st, st.chain[i]);
  }

  /** Steps of the chain that only read. */
  predicate ReadsOnly(pc: Pc) { pc.NodeWait? || pc.NodeNext? || pc.HeadWait? || pc.NextWait? }

  lemma ReadKeepsNodes(n: nat, st: State, p: nat, t: nat)
    requires Inv(n, st) && p < n && t < n && ReadsOnly(st.ts[p].pc)
    ensures NodesAt(Go(n, st, p), t)
  {
    assert NodesAt(st, t);
  }

  lemma ReadKeepsLinks(n: nat, st: State, p: nat, k: nat)
    requires Inv(n, st) && p < n && Wf(n, Go(n, st, p)) && ReadsOnly(st.ts[p].pc)
    requires ChainShape(n, Go(n, st, p)) && k < |st.chain| - 1 && Go(n, st, p).chain == st.chain
    ensures LinkOk(n, Go(n, st, p), k)
  {
    assert LinkOk(n, st, k);
    if Go(n, st, p).ts[p] != st.ts[p] {
      IsHead(n, st, p);
    }
  }

  lemma ReadKeepsChain(n: nat, st: State, p: nat)
    requires Inv(n, st) && p < n && Wf(n, Go(n, st, p)) && ReadsOnly(st.ts[p].pc)
    ensures Chain(n, Go(n, st, p))
  {
    var st', c := Go(n, st, p), st.chain;
    assert NodesAt(st, p);
    assert st'.chain == c && st'.word == st.word && st'.next == st.next && st'.flag == st.flag;
    forall k | 0 <= k < |c| - 1 ensures LinkOk(n, st', k) {
      ReadKeepsLinks(n, st, p, k);
    }
    forall t | 0 <= t < n ensures NodesAt(st', t) {
      ReadKeepsNodes(n, st, p, t);
    }
    if st'.ts[p] != st.ts[p] {
      IsHead(n, st, p);
      ReadKeepsHead(n, st, p);
    }
    hide ThreadAfter, LinkOk, NodesAt;
  }

  lemma ReadKeepsHead(n: nat, st: State, p: nat)
    requires Inv(n, st) && p < n && Wf(n, Go(n, st, p)) && ReadsOnly(st.ts[p].pc) && ChainShape(n, Go(n, st, p))
    requires st.chain != [] && st.chain[0] == p && Go(n, st, p).chain == st.chain && Go(n, st, p).ts[p] != st.ts[p]
    ensures HeadOk(n, Go(n, st, p))
  {
    assert |st.chain| <= 1 || LinkOk(n, st, 0);
    assert |st.chain| > 1 ==> st.chain[1] != p;
  }

  /** A head that stays: the word changed under it, or it took the lock with others behind it. */
  lemma HeadLockKeepsChain(n: nat, st: State, p: nat)
    requires Inv(n, st) && p < n && Wf(n, Go(n, st, p)) && st.ts[p].pc.HeadLock? && !LastOut(st, p)
    ensures Chain(n, Go(n, st, p))
  {
    var st', c := Go(n, st, p), st.chain;
    IsHead(n, st, p);
    assert NodesAt(st, p);
    assert st'.chain == c && st'.word.tail == st.word.tail && st'.next == st.next && st'.flag == st.flag;
    forall k | 0 <= k < |c| - 1 ensures LinkOk(n, st', k) {
      assert LinkOk(n, st, k) && c[k + 1] != p;
    }
    forall t | 0 <= t < n ensures NodesAt(st', t) {
      assert NodesAt(st, t);
    }
    assert |c| > 1 ==> c[1] != p;
  }

  /** The only thread in the queue takes the lock and empties it. */
  lemma LastOutKeepsChain(n: nat, st: State, p: nat)
    requires Inv(n, st) && p < n && Wf(n, Go(n, st, p)) && st.ts[p].pc.HeadLock? && LastOut(st, p)
    ensures st.chain == [p] && Chain(n, Go(n, st, p))
  {
    IsHead(n, st, p);
    assert OwnersAt(st, p);
    assert st.chain == [p];
    forall t | 0 <= t < n ensures NodesAt(Go(n, st, p), t) {
      assert NodesAt(st, t);
    }
  }

  /** The holder makes its successor the head. */
  lemma PassKeepsChain(n: nat, st: State, p: nat)
    requires Inv(n, st) && p < n && Wf(n, Go(n, st, p)) && st.ts[p].pc.PassOn?
    ensures Chain(n, Go(n, st, p))
  {
    var st', c := Go(n, st, p), st.chain;
    IsHead(n, st, p);
    assert NodesAt(st, p);
    assert st'.chain == c[1..] && st'.word.tail == st.word.tail && st'.next == st.next;
    assert LinkOk(n, st, 0) && st.ts[p].nxt == c[1];
    forall k | 0 <= k < |c[1..]| - 1 ensures LinkOk(n, st', k) {
      assert LinkOk(n, st, k + 1);
      assert c[1..][k] == c[k + 1] && c[1..][k + 1] == c[k + 2] && c[k + 2] != c[1];
    }
    forall t | 0 <= t < n ensures NodesAt(st', t) {
      PassKeepsNodes(n, st, p, t);
    }
  }

  lemma PassKeepsNodes(n: nat, st: State, p: nat, t: nat)
    requires Inv(n, st) && p < n && t < n && st.ts[p].pc.PassOn?
    ensures NodesAt(Go(n, st, p), t)
  {
    PassEffect(n, st, p);
    RestOfChain(st.chain, t);
    assert NodesAt(st, t) && NodesAt(st, st.chain[1]);
    hide Go, HeadOk, LinkOk, Owners;
  }

  lemma RestOfChain(c: seq<nat>, t: nat)
    requires c != [] && forall i, j :: 0 <= i < j < |c| ==> c[i] != c[j]
    ensures t in c[1..] <==> t in c && t != c[0]
  {
    if t in c[1..] {
      var i :| 0 <= i < |c[1..]| && c[1..][i] == t;
      assert c[i + 1] == t;
    }
    assert c == [c[0]] + c[1..];
  }

  /** Passing on the lock removes the head, makes it the holder and sets the flag of the next. */
  lemma PassEffect(n: nat, st: State, p: nat)
    requires Inv(n, st) && p < n && st.ts[p].pc.PassOn?
    ensures |st.chain| > 1 && st.chain[0] == p && st.ts[p].nxt == st.chain[1]
    ensures InChain(st.ts[st.chain[1]].pc)
    ensures var st' := Go(n, st, p);
            && st'.chain == st.chain[1..] && st'.next == st.next && st'.flag == st.flag[st.chain[1] := true]
            && st'.ts == st.ts[p := st.ts[p].(pc := Critical)]
  {
    IsHead(n, st, p);
    assert NodesAt(st, st.chain[1]);
  }

  lemma GoKeepsInv(n: nat, st: State, p: nat)
    requires Inv(n, st) && p < n
    ensures Inv(n, Go(n, st, p))
  {
    GoWf(n, st, p);
    GoKeepsOwners(n, st, p);
    var pc := st.ts[p].pc;
    if pc.Exchange? {
      ExchangeKeepsChain(n, st, p);
    } else if pc.LinkPrev? {
      LinkKeepsChain(n, st, p);
    } else if ReadsOnly(pc) {
      ReadKeepsChain(n, st, p);
    } else if pc.HeadLock? {
      if LastOut(st, p) {
        LastOutKeepsChain(n, st, p);
      } else {
        HeadLockKeepsChain(n, st, p);
      }
    } else if pc.PassOn? {
      PassKeepsChain(n, st, p);
    } else {
      OutsideKeepsChain(n, st, p);
    }
  }

  // First in, first out ---------------------------------------------------------------------------------------

  /** The waiters: the chain without a holder that has yet to pass on. */
  function Queue(st: State): seq<nat>
    requires forall i :: 0 <= i < |st.chain| ==> st.chain[i] < |st.ts|
  {
    if st.chain != [] && Holding(st.ts[st.chain[0]].pc) then st.chain[1..] else st.chain
  }

  lemma ExchangeMoves(n: nat, st: State, p: nat)
    requires Inv(n, st) && p < n && Inv(n, Go(n, st, p)) && st.ts[p].pc.Exchange?
    ensures Queue(Go(n, st, p)) == Queue(st) + [p]
  {
    assert NodesAt(st, p);
    assert Go(n, st, p).chain == st.chain + [p];
    if st.chain != [] {
      assert st.chain[0] in st.chain && (st.chain + [p])[1..] == st.chain[1..] + [p];
    }
  }

  lemma LastMoves(n: nat, st: State, p: nat)
    requires Inv(n, st) && p < n && st.ts[p].pc.HeadLock? && LastOut(st, p)
    ensures Queue(st) == [p] && HeadGets(st, p) && Go(n, st, p).chain == []
  {
    GoWf(n, st, p);
    LastOutKeepsChain(n, st, p);
  }

  lemma AcquireMoves(n: nat, st: State, p: nat)
    requires Inv(n, st) && p < n && Inv(n, Go(n, st, p)) && st.ts[p].pc.HeadLock?
    ensures Queue(st) != [] && Queue(st)[0] == p
    ensures Queue(Go(n, st, p)) == if HeadGets(st, p) then Queue(st)[1..] else Queue(st)
  {
    IsHead(n, st, p);
    if LastOut(st, p) {
      LastMoves(n, st, p);
    } else {
      assert Go(n, st, p).chain == st.chain;
      hide Chain, Owners;
    }
  }

  lemma PassMoves(n: nat, st: State, p: nat)
    requires Inv(n, st) && p < n && Inv(n, Go(n, st, p)) && st.ts[p].pc.PassOn?
    ensures Queue(Go(n, st, p)) == Queue(st)
  {
    IsHead(n, st, p);
    assert LinkOk(n, st, 0);
    assert Go(n, st, p).chain == st.chain[1..] && st.chain[1] != p;
  }

  /** All other steps keep the chain and who of it holds the lock. */
  lemma OtherMoves(n: nat, st: State, p: nat)
    requires Inv(n, st) && p < n && Inv(n, Go(n, st, p))
    requires !st.ts[p].pc.Exchange? && !st.ts[p].pc.HeadLock? && !st.ts[p].pc.PassOn?
    ensures Queue(Go(n, st, p)) == Queue(st)
  {
    assert Go(n, st, p).chain == st.chain;
    assert NodesAt(st, p);
    if st.chain != [] && st.chain[0] == p {
      assert InChain(st.ts[p].pc);
    }
  }

  /** The queue moves only by an exchange at its end and an acquisition at its front. */
  lemma QueueMoves(n: nat, st: State, p: nat)
    requires Inv(n, st) && p < n && Inv(n, Go(n, st, p))
    ensures HeadGets(st, p) ==> Queue(st) != [] && Queue(st)[0] == p
    ensures Queue(Go(n, st, p))
         == if st.ts[p].pc.Exchange? then Queue(st) + [p]
            else if HeadGets(st, p) then Queue(st)[1..] else Queue(st)
  {
    if st.ts[p].pc.Exchange? {
      ExchangeMoves(n, st, p);
    } else if st.ts[p].pc.HeadLock? {
      AcquireMoves(n, st, p);
    } else if st.ts[p].pc.PassOn? {
      PassMoves(n, st, p);
    } else {
      OtherMoves(n, st, p);
    }
  }

  ghost predicate InOrder(st: State)
    requires forall i :: 0 <= i < |st.chain| ==> st.chain[i] < |st.ts|
  {
    st.enq == st.deq + Queue(st)
  }

  lemma GoKeepsOrder(n: nat, st: State, p: nat)
    requires Inv(n, st) && p < n && Inv(n, Go(n, st, p)) && InOrder(st)
    ensures InOrder(Go(n, st, p))
  {
    hide Inv, Queue, WordAfter, ThreadAfter, ChainAfter, NextAfter, FlagAfter, Acquires, BecomesPending, Wf;
    ChainBound(n, st);
    ChainBound(n, Go(n, st, p));
    QueueMoves(n, st, p);
    var st' := Go(n, st, p);
    if st.ts[p].pc.Exchange? {
      assert st.enq + [p] == st.deq + (Queue(st) + [p]);
    } else if HeadGets(st, p) {
      assert st.deq + Queue(st) == st.deq + [p] + Queue(st)[1..];
    }
  }

  lemma ChainBound(n: nat, st: State)
    requires Inv(n, st)
    ensures Wf(n, st) && forall i :: 0 <= i < |st.chain| ==> st.chain[i] < |st.ts|
  {
  }

  // Runs -------------------------------------------------------------------------------------------------------

  ghost predicate IsRun(n: nat, run: seq<State>) {
    && |run| > 0 && Init(n, run[0])
    && forall i :: 0 <= i < |run| - 1 ==> Wf(n, run[i]) && exists p: nat :: p < n && run[i + 1] == Go(n, run[i], p)
  }

  ghost predicate Good(n: nat, st: State) {
    Inv(n, st) && InOrder(st)
  }

  lemma {:induction false} RunGood(n: nat, run: seq<State>, i: nat)
    requires IsRun(n, run) && i < |run|
    ensures Good(n, run[i])
    decreases i
  {
    if i == 0 {
      InitInv(n, run[0]);
    } else {
      RunGood(n, run, i - 1);
      assert Wf(n, run[i - 1]);
      var p: nat :| p < n && run[i - 1 + 1] == Go(n, run[i - 1], p);
      GoKeepsInv(n, run[i - 1], p);
      GoKeepsOrder(n, run[i - 1], p);
    }
  }

  /** At most one thread holds the lock and at most one is pending; the word shows exactly whether one does. */
  lemma OneHolderOnePending(n: nat, run: seq<State>, i: nat, s: nat, t: nat)
    requires IsRun(n, run) && i < |run| && s < n && t < n
    ensures |run[i].ts| == n
    ensures Holding(run[i].ts[s].pc) && Holding(run[i].ts[t].pc) ==> s == t
    ensures IsPending(run[i].ts[s].pc) && IsPending(run[i].ts[t].pc) ==> s == t
    ensures Holding(run[i].ts[s].pc) ==> run[i].word.locked
    ensures IsPending(run[i].ts[s].pc) ==> run[i].word.pending
    ensures run[i].word.locked ==> exists u :: 0 <= u < n && Holding(run[i].ts[u].pc)
    ensures run[i].word.pending ==> exists u :: 0 <= u < n && IsPending(run[i].ts[u].pc)
  {
    RunGood(n, run, i);
    var st := run[i];
    assert OwnersAt(st, s) && OwnersAt(st, t);
    if st.word.locked {
      assert OwnersAt(st, st.holder);
    }
    if st.word.pending {
      assert OwnersAt(st, st.pend);
    }
  }

  /** The tail names the last waiter, and there is a tail exactly when somebody waits in the queue. */
  lemma TailIsLastWaiter(n: nat, run: seq<State>, i: nat)
    requires IsRun(n, run) && i < |run|
    ensures forall k :: 0 <= k < |run[i].chain| ==> run[i].chain[k] < |run[i].ts|
    ensures run[i].word.tail == if Queue(run[i]) == [] then NONE else Queue(run[i])[|Queue(run[i])| - 1]
  {
    RunGood(n, run, i);
  }

  /** Queued threads acquire the lock in the order of their tail exchanges. */
  lemma QueueIsFifo(n: nat, run: seq<State>, i: nat)
    requires IsRun(n, run) && i < |run|
    ensures run[i].deq <= run[i].enq
    ensures forall k :: 0 <= k < |run[i].chain| ==> run[i].chain[k] < |run[i].ts|
    ensures run[i].enq == run[i].deq + Queue(run[i])
  {
    RunGood(n, run, i);
  }
}
