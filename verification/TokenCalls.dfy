/**
 What whole calls on the token-based lock do: entering, giving up, leaving and recovering. Each call is taken
 from any state and runs alone from there, with any answer of the min-array.
 */
module TokenCalls {
  import opened TokenLock

  /** The state after k steps of p alone, with the same abort signal and min-array answer in each. */
  function Alone(st: State, p: nat, c: Choice, k: nat): (r: State)
    requires p < |st.procs|
    ensures |r.procs| == |st.procs|
    decreases k
  {
    if k == 0 then st else Alone(Go(st, p, c), p, c, k - 1)
  }

  lemma {:induction false} AloneSplit(st: State, p: nat, c: Choice, j: nat, k: nat)
    requires p < |st.procs|
    ensures Alone(st, p, c, j + k) == Alone(Alone(st, p, c, j), p, c, k)
    decreases j
  {
    hide Moved;
    if j > 0 {
      AloneSplit(Go(st, p, c), p, c, j - 1, k);
    }
  }

  /** One, two or three steps of p alone. */
  lemma AloneFew(st: State, p: nat, c: Choice)
    requires p < |st.procs|
    ensures Alone(st, p, c, 1) == Go(st, p, c) && Alone(st, p, c, 2) == Go(Go(st, p, c), p, c)
    ensures Alone(st, p, c, 3) == Go(Go(Go(st, p, c), p, c), p, c)
  {
    hide Moved;
    var st1 := Go(st, p, c);
    var st2 := Go(st1, p, c);
    var st3 := Go(st2, p, c);
    assert Alone(st, p, c, 3) == Alone(st1, p, c, 2) == Alone(st2, p, c, 1) == Alone(st3, p, c, 0);
  }

  predicate Others(st: State, st': State, p: nat) {
    && |st'.procs| == |st.procs| && st'.counter == st.counter && st'.token == st.token
    && (forall q :: 0 <= q < |st.procs| && q != p ==> st'.procs[q] == st.procs[q])
  }

  // Promotion ------------------------------------------------------------------------------------------------

  /** Whom a promotion by p finds: what the min-array answers, itself if it insists, or nobody. */
  function Found(st: State, p: nat, c: Choice, x: Ctx): Status {
    if st.status.Taken? || (c.infinite && !x.Flag()) then st.status else Taken(if c.infinite then p else c.peer)
  }

  function PromoteSteps(st: State, c: Choice, x: Ctx): nat {
    if st.status.Taken? then 1 else if c.infinite && !x.Flag() then 2 else 3
  }

  /** A promotion alone: a free word comes to name whom it finds, and a taken one stays. */
  lemma PromoteAlone(st: State, p: nat, c: Choice, x: Ctx)
    requires p < |st.procs| && st.procs[p].pc == ReadStatus(x)
    ensures var st' := Alone(st, p, c, PromoteSteps(st, c, x));
            && st'.procs[p].pc == After(x) && st'.status == Found(st, p, c, x) && Others(st, st', p)
            && st'.procs[p].inside == st.procs[p].inside && st'.procs[p].token == st.procs[p].token
  {
    hide After;
    AloneFew(st, p, c);
  }

  // Entering -------------------------------------------------------------------------------------------------

  /** A process that the word names goes straight in. */
  lemma NamedEnters(st: State, p: nat, c: Choice)
    requires p < |st.procs| && st.procs[p].pc == Rem && st.status == Taken(p)
    ensures var st' := Alone(st, p, c, 3); st'.procs[p].pc == Critical && st'.status == st.status && Others(st, st', p)
  {
    AloneFew(st, p, c);
  }

  /** Any other process draws a token. */
  lemma DrawsToken(st: State, p: nat, c: Choice)
    requires p < |st.procs| && st.procs[p].pc == Rem && st.status != Taken(p)
    ensures var st' := Alone(st, p, c, 5);
            && st'.procs[p].pc == ReadStatus(Entry) && st'.status == st.status
            && st'.procs[p].token == st.token && Others(st.(token := st.token + 1), st', p)
  {
    AloneFew(st, p, c);
    AloneFew(Alone(st, p, c, 3), p, c);
    AloneSplit(st, p, c, 3, 2);
  }

  /** The last two reads: in if the word names p, waiting if it does not. */
  lemma ChecksIn(st: State, p: nat, c: Choice)
    requires p < |st.procs| && st.procs[p].pc == Check
    ensures var st' := Alone(st, p, c, if st.status == Taken(p) then 2 else 1);
            && st'.procs[p].pc == (if st.status == Taken(p) then Critical else Wait)
            && st'.status == st.status && Others(st, st', p) && st'.procs[p].token == st.procs[p].token
  {
    AloneFew(st, p, c);
  }

  /**
   Entering alone: a process the word names is inside and draws nothing; any other draws the next token,
   hands a free word to whom the min-array answers, and is inside if that is itself and waits if it is not.
   */
  lemma EnterAlone(st: State, p: nat, c: Choice) returns (k: nat)
    requires p < |st.procs| && st.procs[p].pc == Rem
    ensures var st' := Alone(st, p, c, k);
            && st'.status == (if st.status.Taken? || c.infinite then st.status else Taken(c.peer))
            && st'.procs[p].pc == (if st'.status == Taken(p) then Critical else Wait)
            && if st.status == Taken(p) then Others(st, st', p)
               else Others(st.(token := st.token + 1), st', p) && st'.procs[p].token == st.token
  {
    hide Alone;
    if st.status == Taken(p) {
      NamedEnters(st, p, c);
      k := 3;
    } else {
      DrawsToken(st, p, c);
      var st5 := Alone(st, p, c, 5);
      PromoteAlone(st5, p, c, Entry);
      var k1 := PromoteSteps(st5, c, Entry);
      var st6 := Alone(st5, p, c, k1);
      ChecksIn(st6, p, c);
      var k2 := if st6.status == Taken(p) then 2 else 1;
      AloneSplit(st, p, c, 5, k1);
      AloneSplit(st, p, c, 5 + k1, k2);
      k := 5 + k1 + k2;
    }
  }

  /** Without an abort signal a process waits for as long as the word does not name it. */
  lemma {:induction false} KeepsWaiting(st: State, p: nat, c: Choice, k: nat)
    requires p < |st.procs| && st.procs[p].pc == Wait && st.status != Taken(p) && !c.leave
    ensures Alone(st, p, c, k) == st
    decreases k
  {
    if k > 0 {
      assert Go(st, p, c).procs == st.procs;
      KeepsWaiting(st, p, c, k - 1);
    }
  }

  /** A process that waits and is named is inside after two steps. */
  lemma WaiterEnters(st: State, p: nat, c: Choice)
    requires p < |st.procs| && st.procs[p].pc == Wait && st.status == Taken(p)
    ensures var st' := Alone(st, p, c, 2); st'.procs[p].pc == Critical && st'.status == st.status && Others(st, st', p)
  {
    AloneFew(st, p, c);
  }

  // Giving up ----------------------------------------------------------------------------------------------

  lemma ReadsOnce(st: State, p: nat, c: Choice)
    requires p < |st.procs| && st.procs[p].pc.AbortRead?
    ensures var st' := Alone(st, p, c, 1);
            && st'.procs[p].pc == (if st.procs[p].pc.ctx.Abort? && st.status == Taken(p) then Critical else Rem)
            && st'.status == st.status && Others(st, st', p)
  {
    AloneFew(st, p, c);
  }

  lemma StartsAbort(st: State, p: nat, c: Choice)
    requires p < |st.procs| && st.procs[p].pc == Wait && st.status != Taken(p) && c.leave
    ensures var st' := Alone(st, p, c, 3);
            st'.procs[p].pc == ReadStatus(Abort) && st'.status == st.status && Others(st, st', p)
  {
    AloneFew(st, p, c);
  }

  /**
   Giving up alone: a free word names whom the min-array answers, or this process if it answers nobody,
   and the process is inside if it is named after all and out if it is not.
   */
  lemma AbortAlone(st: State, p: nat, c: Choice) returns (k: nat)
    requires p < |st.procs| && st.procs[p].pc == Wait && st.status != Taken(p) && c.leave
    ensures var st' := Alone(st, p, c, k);
            && st'.status == (if st.status.Taken? then st.status else Taken(if c.infinite then p else c.peer))
            && st'.procs[p].pc == (if st'.status == Taken(p) then Critical else Rem) && Others(st, st', p)
  {
    hide Alone;
    StartsAbort(st, p, c);
    var st3 := Alone(st, p, c, 3);
    PromoteAlone(st3, p, c, Abort);
    var k1 := PromoteSteps(st3, c, Abort);
    ReadsOnce(Alone(st3, p, c, k1), p, c);
    AloneSplit(st, p, c, 3, k1);
    AloneSplit(st, p, c, 3 + k1, 1);
    k := 3 + k1 + 1;
  }

  // Leaving -----------------------------------------------------------------------------------------------

  /** The exit code up to the promotion frees the word under a new tag. */
  lemma Frees(st: State, p: nat, c: Choice)
    requires p < |st.procs| && st.procs[p].pc == Critical
    ensures var st' := Alone(st, p, c, 5);
            && st'.procs[p].pc == ReadStatus(Exit) && !st'.procs[p].inside && st'.status == Free(st.counter + 1)
            && Others(st.(counter := st.counter + 1), st', p)
  {
    AloneFew(st, p, c);
    AloneFew(Alone(st, p, c, 3), p, c);
    AloneSplit(st, p, c, 3, 2);
  }

  /** Leaving alone: out, and the word names whom the min-array answers or is free. */
  lemma ExitAlone(st: State, p: nat, c: Choice) returns (k: nat)
    requires p < |st.procs| && st.procs[p].pc == Critical
    ensures var st' := Alone(st, p, c, k);
            && st'.procs[p].pc == Rem && !st'.procs[p].inside && Others(st.(counter := st.counter + 1), st', p)
            && st'.status == (if c.infinite then Free(st.counter + 1) else Taken(c.peer))
  {
    hide Alone;
    Frees(st, p, c);
    var st5 := Alone(st, p, c, 5);
    PromoteAlone(st5, p, c, Exit);
    k := 5 + PromoteSteps(st5, c, Exit);
    AloneSplit(st, p, c, 5, PromoteSteps(st5, c, Exit));
  }

  // Recovering -------------------------------------------------------------------------------------------

  lemma StartsRecovery(st: State, p: nat, c: Choice)
    requires p < |st.procs| && st.procs[p].pc == Down
    ensures var st' := Alone(st, p, c, 2);
            && st'.procs[p].pc == (if st.status == Taken(p) then Withdraw(Recovery) else Rem)
            && st'.status == st.status && Others(st, st', p)
  {
    AloneFew(st, p, c);
  }

  lemma Withdraws(st: State, p: nat, c: Choice)
    requires p < |st.procs| && st.procs[p].pc == Withdraw(Recovery) && st.status == Taken(p)
    ensures var st' := Alone(st, p, c, 2);
            st'.procs[p].pc == AbortRead(Recovery) && st'.status == st.status && Others(st, st', p)
  {
    AloneFew(st, p, c);
  }

  function RecoverSteps(st: State, p: nat): nat {
    if st.status == Taken(p) then 5 else 2
  }

  /** Recovering alone: the word stays, so a process that crashed inside is still the one that is named. */
  lemma RecoverAlone(st: State, p: nat, c: Choice)
    requires p < |st.procs| && st.procs[p].pc == Down
    ensures var st' := Alone(st, p, c, RecoverSteps(st, p));
            st'.procs[p].pc == Rem && st'.status == st.status && Others(st, st', p)
  {
    hide Alone;
    StartsRecovery(st, p, c);
    if st.status == Taken(p) {
      var st2 := Alone(st, p, c, 2);
      Withdraws(st2, p, c);
      ReadsOnce(Alone(st2, p, c, 2), p, c);
      AloneSplit(st, p, c, 2, 2);
      AloneSplit(st, p, c, 4, 1);
    }
  }

  /** A process that crashed inside the section is inside again after its recovery and the next entry. */
  lemma RecoverThenEnter(st: State, p: nat, c: Choice)
    requires p < |st.procs| && st.procs[p].pc == Down && st.status == Taken(p)
    ensures var st' := Alone(st, p, c, 8); st'.procs[p].pc == Critical && st'.status == st.status && Others(st, st', p)
  {
    hide Alone;
    RecoverAlone(st, p, c);
    NamedEnters(Alone(st, p, c, 5), p, c);
    AloneSplit(st, p, c, 5, 3);
  }
}
