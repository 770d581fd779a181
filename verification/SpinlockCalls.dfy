/**
 What `lock_acquire` and `lock_release` of the queued spinlock do: which of its ways in a thread takes, by what
 it finds in the word. Each call is taken from any state and runs alone from there.
 */
module SpinlockCalls {
  import opened QueuedSpinlock

  /** The state after k steps of p alone. */
  function Alone(n: nat, st: State, p: nat, k: nat): (r: State)
    requires Wf(n, st) && p < n
    ensures Wf(n, r)
    decreases k
  {
    if k == 0 then st else GoWf(n, st, p); Alone(n, Go(n, st, p), p, k - 1)
  }

  lemma AloneStep(n: nat, st: State, p: nat, k: nat)
    requires Wf(n, st) && p < n && k > 0
    ensures var st1 := Go(n, st, p); Wf(n, st1) && Alone(n, st, p, k) == Alone(n, st1, p, k - 1)
  {
    hide Go, Wf;
    GoWf(n, st, p);
  }

  lemma AloneNone(n: nat, st: State, p: nat)
    requires Wf(n, st) && p < n
    ensures Alone(n, st, p, 0) == st
  {
  }

  lemma {:induction false} AloneSplit(n: nat, st: State, p: nat, j: nat, k: nat)
    requires Wf(n, st) && p < n
    ensures Alone(n, st, p, j + k) == Alone(n, Alone(n, st, p, j), p, k)
    decreases j
  {
    hide Go, Wf, Alone;
    if j == 0 {
      AloneNone(n, st, p);
    } else {
      AloneStep(n, st, p, j + k);
      AloneStep(n, st, p, j);
      AloneSplit(n, Go(n, st, p), p, j - 1, k);
    }
  }

  /** Two steps of p alone. */
  lemma AloneTwo(n: nat, st: State, p: nat)
    requires Wf(n, st) && p < n
    ensures var st1 := Go(n, st, p); Wf(n, st1) && Alone(n, st, p, 2) == Go(n, st1, p)
  {
    hide Go, Wf, Alone;
    AloneStep(n, st, p, 2);
    var st1 := Go(n, st, p);
    AloneStep(n, st1, p, 1);
    AloneNone(n, Go(n, st1, p), p);
  }

  /** The other threads and their nodes are as before. */
  predicate Others(st: State, st': State, p: nat) {
    && |st'.ts| == |st.ts| && |st'.next| == |st.next| && |st'.flag| == |st.flag|
    && (forall q :: 0 <= q < |st.ts| && q != p ==> st'.ts[q] == st.ts[q])
    && (forall q :: 0 <= q < |st.next| && q != p ==> st'.next[q] == st.next[q])
    && (forall q :: 0 <= q < |st.flag| && q != p ==> st'.flag[q] == st.flag[q])
  }

  /** The free word is taken at once. */
  lemma AcquireFree(n: nat, st: State, p: nat)
    requires Wf(n, st) && p < n && st.ts[p].pc == Idle && st.word == ZERO
    ensures var st' := Alone(n, st, p, 2);
            && st'.ts[p].pc == Critical && st'.word == Word(true, false, NONE) && st'.holder == p
            && st'.chain == st.chain && st'.pend == st.pend && Others(st, st', p)
  {
    AloneTwo(n, st, p);
  }

  /** A word that is not free is looked at again. */
  lemma MeetsWord(n: nat, st: State, p: nat)
    requires Wf(n, st) && p < n && st.ts[p].pc == Idle && st.word != ZERO
    ensures var st' := Alone(n, st, p, 2);
            && st'.ts[p].pc == AwaitHandOver && st'.ts[p].val == st.word
            && st'.word == st.word && st'.holder == st.holder
            && st'.chain == st.chain && st'.pend == st.pend && st'.enq == st.enq && Others(st, st', p)
  {
    AloneTwo(n, st, p);
  }

  /** In the middle of a hand-over, with the word at 0,1,0, a thread waits and takes no other way in. */
  lemma WaitsOutHandOver(n: nat, st: State, p: nat, k: nat)
    requires Wf(n, st) && p < n && st.word == PENDING_ONLY
    requires st.ts[p].pc == AwaitHandOver && st.ts[p].val == PENDING_ONLY
    ensures Alone(n, st, p, k) == st
  {
    if k > 0 {
      assert Go(n, st, p).ts == st.ts;
      KeepsPlace(n, st, p, k);
    }
  }

  lemma {:induction false} KeepsPlace(n: nat, st: State, p: nat, k: nat)
    requires Wf(n, st) && p < n && k > 0 && Go(n, st, p) == st
    ensures Alone(n, st, p, k) == st
    decreases k
  {
    if k > 1 {
      KeepsPlace(n, st, p, k - 1);
    }
  }

  /** The word is held and nobody waits: the thread becomes the pending one and stays out of the queue. */
  lemma AcquirePending(n: nat, st: State, p: nat)
    requires Wf(n, st) && p < n && st.ts[p].pc == Idle && st.word == Word(true, false, NONE)
    ensures var st' := Alone(n, st, p, 4);
            && st'.ts[p].pc == PendingWait && st'.word == Word(true, true, NONE) && st'.pend == p
            && st'.holder == st.holder && st'.chain == st.chain && Others(st, st', p)
  {
    hide Alone;
    MeetsWord(n, st, p);
    var st2 := Alone(n, st, p, 2);
    AloneTwo(n, st2, p);
    AloneSplit(n, st, p, 2, 2);
  }

  /** Anybody else queues up: its node is the new tail and the last of the chain. */
  lemma AcquireQueued(n: nat, st: State, p: nat)
    requires Wf(n, st) && p < n && st.ts[p].pc == Idle && (st.word.tail != NONE || (st.word.pending && st.word.locked))
    ensures var st' := Alone(n, st, p, 7);
            && st'.ts[p].pc == (if st.word.tail == NONE then HeadWait else LinkPrev) && st'.ts[p].prev == st.word.tail
            && st'.word == st.word.(tail := p) && st'.chain == st.chain + [p] && st'.enq == st.enq + [p]
            && st'.holder == st.holder && st'.pend == st.pend && Others(st, st', p)
            && st'.next[p] == NONE && !st'.flag[p]
  {
    hide Alone, Wf, Others;
    MeetsWord(n, st, p);
    var st2 := Alone(n, st, p, 2);
    Refuses(n, st2, p);
    var st4 := Alone(n, st2, p, 2);
    PreparesNode(n, st4, p);
    var st6 := Alone(n, st4, p, 2);
    Enqueues(n, st6, p);
    AloneSplit(n, st, p, 2, 2);
    AloneSplit(n, st, p, 4, 2);
    AloneSplit(n, st, p, 6, 1);
    var st7 := Alone(n, st6, p, 1);
    OthersOn(st, st2, st4, p);
    OthersOn(st, st4, st6, p);
    OthersOn(st, st6, st7, p);
  }

  lemma OthersOn(a: State, b: State, c: State, p: nat)
    requires Others(a, b, p) && Others(b, c, p)
    ensures Others(a, c, p)
  {
  }

  lemma Refuses(n: nat, st: State, p: nat)
    requires Wf(n, st) && p < n && st.ts[p].pc == AwaitHandOver && st.ts[p].val == st.word
    requires st.word.tail != NONE || (st.word.pending && st.word.locked)
    ensures var st' := Alone(n, st, p, 2);
            && st'.ts[p].pc == NodeInit && st'.word == st.word && st'.holder == st.holder
            && st'.chain == st.chain && st'.pend == st.pend && st'.enq == st.enq && Others(st, st', p)
  {
    AloneTwo(n, st, p);
  }

  lemma PreparesNode(n: nat, st: State, p: nat)
    requires Wf(n, st) && p < n && st.ts[p].pc == NodeInit && st.word != ZERO
    ensures var st' := Alone(n, st, p, 2);
            && st'.ts[p].pc == Exchange && st'.word == st.word && st'.holder == st.holder && st'.next[p] == NONE
            && !st'.flag[p] && st'.chain == st.chain && st'.pend == st.pend && st'.enq == st.enq && Others(st, st', p)
  {
    AloneTwo(n, st, p);
  }

  lemma Enqueues(n: nat, st: State, p: nat)
    requires Wf(n, st) && p < n && st.ts[p].pc == Exchange
    ensures var st' := Alone(n, st, p, 1);
            && st'.ts[p].pc == (if st.word.tail == NONE then HeadWait else LinkPrev) && st'.ts[p].prev == st.word.tail
            && st'.word == st.word.(tail := p) && st'.chain == st.chain + [p] && st'.enq == st.enq + [p]
            && st'.holder == st.holder && st'.pend == st.pend && Others(st, st', p)
            && st'.next[p] == st.next[p] && st'.flag[p] == st.flag[p]
  {
    AloneStep(n, st, p, 1);
  }

  /** Releasing clears the locked byte and nothing else, and the thread is outside again. */
  lemma ReleaseAlone(n: nat, st: State, p: nat)
    requires Wf(n, st) && p < n && st.ts[p].pc == Critical
    ensures var st' := Alone(n, st, p, 1);
            && st'.ts[p].pc == Idle && st'.word == st.word.(locked := false) && st'.holder == NONE
            && st'.chain == st.chain && st'.pend == st.pend && Others(st, st', p)
  {
    AloneStep(n, st, p, 1);
  }

  /** Locking and unlocking a free lock leaves it free. */
  lemma AcquireThenRelease(n: nat, st: State, p: nat)
    requires Wf(n, st) && p < n && st.ts[p].pc == Idle && st.word == ZERO
    ensures var st' := Alone(n, st, p, 3);
            && st'.ts[p].pc == Idle && st'.word == ZERO && st'.chain == st.chain && st'.pend == st.pend
            && Others(st, st', p)
  {
    hide Alone, Wf;
    AcquireFree(n, st, p);
    ReleaseAlone(n, Alone(n, st, p, 2), p);
    AloneSplit(n, st, p, 2, 1);
  }
}
