/**
 Every thread in the queued spinlock can still get the lock: from every state that a run reaches there is
 a way to go on in which it does. In particular no state is a deadlock and no waiter is forgotten.
 */
module SpinlockProgress {
  import opened QueuedSpinlock

  ghost predicate Schedule(n: nat, s: seq<nat>) {
    forall i :: 0 <= i < |s| ==> s[i] < n
  }

  /** The state after the threads of a schedule have taken their steps. */
  ghost function Play(n: nat, st: State, s: seq<nat>): (r: State)
    requires Wf(n, st) && Schedule(n, s)
    ensures Wf(n, r)
    decreases |s|
  {
    if s == [] then st else GoWf(n, st, s[0]); Play(n, Go(n, st, s[0]), s[1..])
  }

  lemma {:induction false} PlayKeepsInv(n: nat, st: State, s: seq<nat>)
    requires Inv(n, st) && Schedule(n, s)
    ensures Inv(n, Play(n, st, s))
    decreases |s|
  {
    hide Inv, Go;
    InvWf(n, st);
    if s != [] {
      GoKeepsInv(n, st, s[0]);
      InvWf(n, Go(n, st, s[0]));
      PlayKeepsInv(n, Go(n, st, s[0]), s[1..]);
    }
  }

  lemma InvWf(n: nat, st: State)
    requires Inv(n, st)
    ensures Wf(n, st)
  {
  }

  lemma {:induction false} PlayJoin(n: nat, st: State, a: seq<nat>, b: seq<nat>)
    requires Wf(n, st) && Schedule(n, a) && Schedule(n, b)
    ensures Schedule(n, a + b) && Play(n, st, a + b) == Play(n, Play(n, st, a), b)
    decreases |a|
  {
    hide Go, Wf;
    if a == [] {
      assert a + b == b;
    } else {
      GoWf(n, st, a[0]);
      assert (a + b)[1..] == a[1..] + b;
      PlayJoin(n, Go(n, st, a[0]), a[1..], b);
    }
  }

  lemma PlayFirst(n: nat, st: State, p: nat, rest: seq<nat>)
    requires Wf(n, st) && p < n && Wf(n, Go(n, st, p)) && Schedule(n, rest)
    ensures Schedule(n, [p] + rest) && Play(n, st, [p] + rest) == Play(n, Go(n, st, p), rest)
  {
    hide Go, Wf;
    assert ([p] + rest)[1..] == rest;
  }

  // The holder leaves -----------------------------------------------------------------------------------

  function HolderDist(st: State, h: nat): nat
    requires h < |st.ts| == |st.next|
  {
    var pc := st.ts[h].pc;
    if pc.Critical? then 1 else if pc.PassOn? then 2 else if st.next[h] != NONE then 3 else 4
  }

  /** Who has to move for the holder to get out: the holder, or the successor it waits for. */
  function Mover(st: State, h: nat): nat
    requires h < |st.ts| == |st.next|
  {
    if st.ts[h].pc.NextWait? && st.next[h] == NONE && |st.chain| > 1 then st.chain[1] else h
  }

  /** The move takes the holder one step nearer to leaving; when it passes the head role on it leaves the queue. */
  ghost predicate Nearer(n: nat, st: State, h: nat, st': State)
    requires h < |st.ts| == |st.next|
  {
    && st'.pend == st.pend && st'.chain == (if st.ts[h].pc.PassOn? && st.chain != [] then st.chain[1..] else st.chain)
    && if st.ts[h].pc.Critical? then st'.holder == NONE
       else
         && |st'.next| == |st'.ts| == n && h < n && st'.holder == h && HolderDist(st', h) < HolderDist(st, h)
         && st.chain != [] && (st'.ts[h].pc.Critical? <==> st.ts[h].pc.PassOn?)
  }

  lemma CriticalMoves(n: nat, st: State, h: nat)
    requires Inv(n, st) && h < n && st.holder == h && st.ts[h].pc.Critical?
    ensures Nearer(n, st, h, Go(n, st, h))
  {
    assert NodesAt(st, h);
  }

  lemma WaiterMoves(n: nat, st: State, h: nat)
    requires Inv(n, st) && h < n && st.holder == h && st.ts[h].pc.NextWait?
    ensures Mover(st, h) < n && Nearer(n, st, h, Go(n, st, Mover(st, h)))
  {
    IsHead(n, st, h);
    if st.next[h] == NONE {
      LinkMoves(n, st, h);
    }
  }

  lemma PasserMoves(n: nat, st: State, h: nat)
    requires Inv(n, st) && h < n && st.holder == h && st.ts[h].pc.PassOn?
    ensures Nearer(n, st, h, Go(n, st, h))
  {
    IsHead(n, st, h);
  }

  lemma HolderMoves(n: nat, st: State, h: nat)
    requires Inv(n, st) && h < n && st.holder == h
    ensures |st.ts| == |st.next| == n && Mover(st, h) < n && Nearer(n, st, h, Go(n, st, Mover(st, h)))
  {
    assert OwnersAt(st, h);
    hide Nearer, Go;
    if st.ts[h].pc.Critical? {
      CriticalMoves(n, st, h);
    } else if st.ts[h].pc.NextWait? {
      WaiterMoves(n, st, h);
    } else {
      PasserMoves(n, st, h);
    }
  }

  /** The successor of a holder that waits for it links itself. */
  lemma LinkMoves(n: nat, st: State, h: nat)
    requires Inv(n, st) && h < n && st.ts[h].pc.NextWait? && st.next[h] == NONE && st.chain != [] && st.chain[0] == h
    ensures |st.chain| > 1 && st.chain[1] < n && st.ts[st.chain[1]].pc.LinkPrev? && st.ts[st.chain[1]].prev == h
    ensures st.chain[1] in st.chain && st.chain[1] != h
  {
    assert LinkOk(n, st, 0);
  }

  lemma {:induction false} HolderLeaves(n: nat, st: State, h: nat) returns (s: seq<nat>)
    requires Inv(n, st) && h < n && st.holder == h && |st.next| == |st.ts| == n
    ensures Schedule(n, s) && Wf(n, st) && Inv(n, Play(n, st, s))
    ensures !st.ts[h].pc.Critical? ==> st.chain != []
    ensures var st' := Play(n, st, s);
            && st'.holder == NONE && st'.pend == st.pend
            && st'.chain == if st.ts[h].pc.Critical? then st.chain else st.chain[1..]
    decreases HolderDist(st, h)
  {
    hide Inv, Go, HolderDist, Mover;
    InvWf(n, st);
    HolderMoves(n, st, h);
    var p := Mover(st, h);
    var st1 := Go(n, st, p);
    GoKeepsInv(n, st, p);
    InvWf(n, st1);
    if st.ts[h].pc.Critical? {
      s := [p];
      PlayFirst(n, st, p, []);
      assert [p] + [] == [p];
    } else {
      var rest := HolderLeaves(n, st1, h);
      PlayFirst(n, st, p, rest);
      s := [p] + rest;
    }
  }

  // The next one takes the lock -------------------------------------------------------------------------------

  /** Once the owner has gone, a pending thread gets the lock with its next step or two. */
  lemma PendTakes(n: nat, st: State, q: nat) returns (s: seq<nat>)
    requires Inv(n, st) && q < n && st.holder == NONE && st.pend == q
    ensures Schedule(n, s) && Wf(n, st) && Inv(n, Play(n, st, s))
    ensures var st' := Play(n, st, s);
            st'.holder == q && st'.pend == NONE && st'.chain == st.chain
  {
    assert OwnersAt(st, q);
    var st1 := Go(n, st, q);
    GoKeepsInv(n, st, q);
    if st.ts[q].pc.PendingTake? {
      s := [q];
      PlayFirst(n, st, q, []);
      assert [q] + [] == [q];
    } else {
      var st2 := Go(n, st1, q);
      GoKeepsInv(n, st1, q);
      PlayFirst(n, st1, q, []);
      assert [q] + [] == [q];
      PlayFirst(n, st, q, [q]);
      s := [q] + [q];
    }
    hide Inv, Go;
  }

  function HeadDist(st: State, h: nat): nat
    requires h < |st.ts|
  {
    match st.ts[h].pc
    case NodeWait => 5
    case NodeNext => 4
    case HeadWait => 3
    case _ => if HeadGets(st, h) then 1 else 2
  }

  /** With the owner gone and nobody pending, each step of the queue's head takes it nearer to the lock. */
  lemma HeadMoves(n: nat, st: State, h: nat)
    requires Inv(n, st) && st.holder == NONE && st.pend == NONE && st.chain != [] && st.chain[0] == h
    ensures h < n
    ensures var st' := Go(n, st, h);
            && |st'.ts| == n && st'.pend == NONE
            && if HeadGets(st, h) then
                 st'.holder == h && st'.chain == (if st'.ts[h].pc.Critical? then st.chain[1..] else st.chain)
               else st'.holder == NONE && st'.chain == st.chain && HeadDist(st', h) < HeadDist(st, h)
  {
    assert OwnersAt(st, h);
  }

  lemma {:induction false} HeadTakes(n: nat, st: State, h: nat) returns (s: seq<nat>)
    requires Inv(n, st) && st.holder == NONE && st.pend == NONE && st.chain != [] && st.chain[0] == h && h < |st.ts|
    ensures Schedule(n, s) && Wf(n, st) && Inv(n, Play(n, st, s))
    ensures var st' := Play(n, st, s);
            && st'.holder == h && st'.pend == NONE && |st'.ts| == |st'.next| == n
            && st'.chain == if st'.ts[h].pc.Critical? then st.chain[1..] else st.chain
    decreases HeadDist(st, h)
  {
    hide Inv, Go, HeadDist;
    InvWf(n, st);
    HeadMoves(n, st, h);
    var st1 := Go(n, st, h);
    GoKeepsInv(n, st, h);
    InvWf(n, st1);
    if HeadGets(st, h) {
      s := [h];
      PlayFirst(n, st, h, []);
      assert [h] + [] == [h];
    } else {
      var rest := HeadTakes(n, st1, h);
      PlayFirst(n, st, h, rest);
      s := [h] + rest;
    }
  }

  /** Steps a thread outside the queue needs for a lock that nobody has or wants. */
  function FreeDist(t: Thread): nat {
    match t.pc
    case Fast => 1
    case Idle => 2
    case TryCas => 1
    case TryRead => 2
    case NodeInit => 3
    case TryOrPend => if t.val.pending || t.val.tail != NONE then 4 else if t.val != ZERO then 2 else 1
    case AwaitHandOver => if t.val == PENDING_ONLY then 6 else 5
    case _ => 7
  }

  /** Nobody has the lock or waits for it: then the word is zero. */
  ghost predicate Empty(st: State) {
    st.holder == NONE && st.pend == NONE && st.chain == []
  }

  lemma EmptyIsZero(n: nat, st: State, t: nat)
    requires Inv(n, st) && Empty(st) && t < n
    ensures st.word == ZERO && !Holding(st.ts[t].pc) && !IsPending(st.ts[t].pc) && !InChain(st.ts[t].pc)
  {
    assert OwnersAt(st, t) && NodesAt(st, t);
  }

  lemma FreeMoves(n: nat, st: State, t: nat)
    requires Inv(n, st) && Empty(st) && t < n && |st.ts| == n
    ensures var st' := Go(n, st, t);
            && |st'.ts| == n
            && if st.ts[t].pc.Exchange? then st'.holder == NONE && st'.pend == NONE && st'.chain == [t]
               else st'.holder == t || (Empty(st') && FreeDist(st'.ts[t]) < FreeDist(st.ts[t]))
  {
    EmptyIsZero(n, st, t);
  }

  lemma {:induction false} FreeTakes(n: nat, st: State, t: nat) returns (s: seq<nat>)
    requires Inv(n, st) && Empty(st) && t < n && |st.ts| == n
    ensures Schedule(n, s) && Wf(n, st) && Play(n, st, s).holder == t
    decreases FreeDist(st.ts[t])
  {
    hide Inv, Go, FreeDist, ThreadAfter;
    InvWf(n, st);
    FreeMoves(n, st, t);
    var st1 := Go(n, st, t);
    GoKeepsInv(n, st, t);
    InvWf(n, st1);
    var rest := [];
    if st.ts[t].pc.Exchange? {
      rest := HeadTakes(n, st1, t);
    } else if st1.holder != t {
      rest := FreeTakes(n, st1, t);
    }
    PlayFirst(n, st, t, rest);
    s := [t] + rest;
  }

  /** The head of the queue, if it is not the one we want in, is served and gone. */
  lemma HeadServed(n: nat, st: State, h: nat) returns (s: seq<nat>)
    requires Inv(n, st) && st.holder == NONE && st.pend == NONE && st.chain != [] && st.chain[0] == h && h < |st.ts|
    ensures Schedule(n, s) && Wf(n, st) && Inv(n, Play(n, st, s))
    ensures var st' := Play(n, st, s); st'.holder == NONE && st'.pend == NONE && |st'.chain| < |st.chain|
  {
    var a := HeadTakes(n, st, h);
    var st1 := Play(n, st, a);
    InvWf(n, st1);
    hide Inv, Play;
    var b := HolderLeaves(n, st1, h);
    PlayJoin(n, st, a, b);
    s := a + b;
  }

  // Everybody gets in --------------------------------------------------------------------------------------------

  function Bit(b: bool): nat { if b then 1 else 0 }

  lemma {:induction false} GetsIn(n: nat, st: State, t: nat) returns (s: seq<nat>)
    requires Inv(n, st) && t < n && |st.ts| == n
    ensures Schedule(n, s) && Wf(n, st) && Play(n, st, s).holder == t
    decreases |st.chain|, Bit(st.pend != NONE), Bit(st.holder != NONE)
  {
    InvFacts(n, st);
    hide Inv, Go, Play;
    s := [];
    if st.holder == t {
      PlayNothing(n, st);
    } else if Empty(st) {
      s := FreeTakes(n, st, t);
    } else {
      var a := OneServed(n, st, t);
      var st1 := Play(n, st, a);
      s := a;
      if st1.holder != t {
        InvFacts(n, st1);
        var b := GetsIn(n, st1, t);
        PlayJoin(n, st, a, b);
        s := a + b;
      }
    }
  }

  lemma PlayNothing(n: nat, st: State)
    requires Wf(n, st)
    ensures Play(n, st, []) == st
  {
  }

  lemma InvFacts(n: nat, st: State)
    requires Inv(n, st)
    ensures Wf(n, st) && |st.ts| == |st.next| == n && NONE <= st.holder < n && NONE <= st.pend < n
    ensures forall i :: 0 <= i < |st.chain| ==> st.chain[i] < n
  {
  }

  /** Whoever is in front of t, or t itself, makes way. */
  lemma OneServed(n: nat, st: State, t: nat) returns (s: seq<nat>)
    requires Inv(n, st) && t < n && |st.ts| == n && st.holder != t && !Empty(st)
    ensures Schedule(n, s) && Wf(n, st) && Inv(n, Play(n, st, s))
    ensures var st' := Play(n, st, s);
            || st'.holder == t || |st'.chain| < |st.chain|
            || (|st'.chain| == |st.chain| && st.pend != NONE && st'.pend == NONE)
            || (|st'.chain| == |st.chain| && st'.pend == st.pend && st.holder != NONE && st'.holder == NONE)
  {
    InvFacts(n, st);
    hide Inv, Go, Play;
    if st.holder != NONE {
      s := HolderLeaves(n, st, st.holder);
    } else if st.pend != NONE {
      s := PendTakes(n, st, st.pend);
    } else if st.chain[0] == t {
      s := HeadTakes(n, st, t);
    } else {
      s := HeadServed(n, st, st.chain[0]);
    }
  }

  /** From every state of every run there is a way to go on in which thread t gets the lock. */
  lemma EverybodyCanGetIn(n: nat, run: seq<State>, i: nat, t: nat) returns (s: seq<nat>)
    requires IsRun(n, run) && i < |run| && t < n
    ensures Schedule(n, s) && Wf(n, run[i]) && Play(n, run[i], s).holder == t
  {
    RunGood(n, run, i);
    InvFacts(n, run[i]);
    s := GetsIn(n, run[i], t);
  }

  // Whose turn it is -------------------------------------------------------------------------------------------------

  /**
   Who can get the lock next, in every state of every run: nobody while it is held; the pending thread
   alone if there is one; else the head of the queue alone if there is one. So neither is overtaken.
   */
  lemma WhoIsNext(n: nat, run: seq<State>, i: nat, p: nat)
    requires IsRun(n, run) && i < |run| && p < n && |run[i].ts| == n && Acquires(run[i], p)
    ensures var st := run[i];
            && st.holder == NONE
            && (st.pend != NONE ==> p == st.pend)
            && (st.pend == NONE && st.chain != [] ==> p == st.chain[0])
  {
    RunGood(n, run, i);
    var st := run[i];
    assert OwnersAt(st, p);
    if st.ts[p].pc.HeadLock? {
      IsHead(n, st, p);
    }
  }
}
