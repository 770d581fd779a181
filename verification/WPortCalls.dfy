/**
 What whole calls on the W-port lock do: entering, giving up, leaving and recovering. Each call is taken from
 any state and runs alone from there.
 */
module WPortCalls {
  import opened CyclicScan
  import opened WPortLock

  /** The state after k steps of p alone; `leave` is its abort signal. */
  function Alone(n: nat, st: State, p: nat, leave: bool, k: nat): (r: State)
    requires Wf(n, st) && p < n
    ensures Wf(n, r)
    decreases k
  {
    if k == 0 then st else GoWf(n, st, p, leave); Alone(n, Go(n, st, p, leave), p, leave, k - 1)
  }

  lemma AloneStep(n: nat, st: State, p: nat, leave: bool, k: nat)
    requires Wf(n, st) && p < n && k > 0
    ensures var st1 := Go(n, st, p, leave); Wf(n, st1) && Alone(n, st, p, leave, k) == Alone(n, st1, p, leave, k - 1)
  {
    hide Go, Wf;
    GoWf(n, st, p, leave);
  }

  lemma {:induction false} AloneSplit(n: nat, st: State, p: nat, leave: bool, j: nat, k: nat)
    requires Wf(n, st) && p < n
    ensures Alone(n, st, p, leave, j + k) == Alone(n, Alone(n, st, p, leave, j), p, leave, k)
    decreases j
  {
    hide Go, Wf, Alone;
    if j == 0 {
      assert Alone(n, st, p, leave, 0) == st by { AloneNone(n, st, p, leave); }
    } else {
      AloneStep(n, st, p, leave, j + k);
      AloneStep(n, st, p, leave, j);
      AloneSplit(n, Go(n, st, p, leave), p, leave, j - 1, k);
    }
  }

  lemma AloneNone(n: nat, st: State, p: nat, leave: bool)
    requires Wf(n, st) && p < n
    ensures Alone(n, st, p, leave, 0) == st
  {
  }

  /** Two steps of p alone. */
  lemma AloneTwo(n: nat, st: State, p: nat, leave: bool)
    requires Wf(n, st) && p < n
    ensures var st1 := Go(n, st, p, leave); Wf(n, st1) && Alone(n, st, p, leave, 2) == Go(n, st1, p, leave)
  {
    hide Go, Wf, Alone;
    AloneStep(n, st, p, leave, 2);
    var st1 := Go(n, st, p, leave);
    AloneStep(n, st1, p, leave, 1);
    AloneNone(n, Go(n, st1, p, leave), p, leave);
  }

  /** The other processes and the sequence counter are as before. */
  predicate Others(st: State, st': State, p: nat) {
    && |st'.procs| == |st.procs| && st'.counter == st.counter
    && (forall q :: 0 <= q < |st.procs| && q != p ==> st'.procs[q] == st.procs[q])
  }

  // Promotion ------------------------------------------------------------------------------------------------

  /** Whom a promotion by p finds: the next registered process, itself if it insists, or nobody. */
  function Found(n: nat, st: State, p: nat, c: Ctx): Csst
    requires Wf(n, st)
  {
    if st.csst.Taken? || (st.active == {} && !c.Flag()) then st.csst
    else if st.active == {} then Taken(p)
    else Taken(NextPort(n, st.active, st.csst.owner))
  }

  function PromoteSteps(st: State, c: Ctx): nat {
    if st.csst.Taken? then 1 else if st.active == {} && !c.Flag() then 2 else 3
  }

  /** A promotion alone: a free word comes to name whom it finds, and a taken one stays. */
  lemma PromoteAlone(n: nat, st: State, p: nat, leave: bool, c: Ctx)
    requires Wf(n, st) && p < n && st.procs[p].pc == ReadCsst(c)
    ensures var st' := Alone(n, st, p, leave, PromoteSteps(st, c));
            && st'.procs[p].pc == After(c) && st'.csst == Found(n, st, p, c) && st'.active == st.active
            && Others(st, st', p) && st'.procs[p].inside == st.procs[p].inside
  {
    hide After;
    if st.csst.Taken? {
      AloneStep(n, st, p, leave, 1);
    } else if st.active == {} && !c.Flag() {
      AloneTwo(n, st, p, leave);
    } else {
      AloneStep(n, st, p, leave, 3);
      AloneTwo(n, Go(n, st, p, leave), p, leave);
    }
  }

  // Entering -------------------------------------------------------------------------------------------------

  function EnterSteps(n: nat, st: State, p: nat): nat
    requires Wf(n, st) && p < n
  {
    if st.csst == Taken(p) then 3 else if st.csst.Taken? then 5
    else if NextPort(n, st.active + {p}, st.csst.owner) == p then 8 else 7
  }

  /** A process that the word names goes straight in. */
  lemma NamedEnters(n: nat, st: State, p: nat, leave: bool)
    requires Wf(n, st) && p < n && st.procs[p].pc == Rem && st.csst == Taken(p)
    ensures var st' := Alone(n, st, p, leave, 3);
            st'.procs[p].pc == Critical && st'.csst == st.csst && st'.active == st.active && Others(st, st', p)
  {
    AloneStep(n, st, p, leave, 3);
    AloneTwo(n, Go(n, st, p, leave), p, leave);
  }

  /** Any other process registers. */
  lemma Registers(n: nat, st: State, p: nat, leave: bool)
    requires Wf(n, st) && p < n && st.procs[p].pc == Rem && st.csst != Taken(p)
    ensures var st' := Alone(n, st, p, leave, 3);
            && st'.procs[p].pc == ReadCsst(Entry) && st'.csst == st.csst && st'.active == st.active + {p}
            && Others(st, st', p)
  {
    AloneStep(n, st, p, leave, 3);
    AloneTwo(n, Go(n, st, p, leave), p, leave);
  }

  /** The last two reads: in if the word names p, waiting if it does not. */
  lemma ChecksIn(n: nat, st: State, p: nat, leave: bool)
    requires Wf(n, st) && p < n && st.procs[p].pc == Check
    ensures var st' := Alone(n, st, p, leave, if st.csst == Taken(p) then 2 else 1);
            && st'.procs[p].pc == (if st.csst == Taken(p) then Critical else Wait)
            && st'.csst == st.csst && st'.active == st.active && Others(st, st', p)
  {
    if st.csst == Taken(p) {
      AloneTwo(n, st, p, leave);
    } else {
      AloneStep(n, st, p, leave, 1);
    }
  }

  /**
   Entering alone: a process the word names is inside and leaves no mark; any other registers, hands a free
   word to the next registered process, and is inside if that is itself and waits if it is not.
   */
  lemma EnterAlone(n: nat, st: State, p: nat, leave: bool)
    requires Wf(n, st) && p < n && st.procs[p].pc == Rem
    ensures var st' := Alone(n, st, p, leave, EnterSteps(n, st, p));
            && st'.active == (if st.csst == Taken(p) then st.active else st.active + {p})
            && st'.csst == (if st.csst.Taken? then st.csst else Taken(NextPort(n, st.active + {p}, st.csst.owner)))
            && st'.procs[p].pc == (if st'.csst == Taken(p) then Critical else Wait) && Others(st, st', p)
  {
    hide Wf, Alone;
    if st.csst == Taken(p) {
      NamedEnters(n, st, p, leave);
    } else {
      Registers(n, st, p, leave);
      var st3 := Alone(n, st, p, leave, 3);
      PromoteAlone(n, st3, p, leave, Entry);
      var k := PromoteSteps(st3, Entry);
      var st4 := Alone(n, st3, p, leave, k);
      ChecksIn(n, st4, p, leave);
      AloneSplit(n, st, p, leave, 3, k);
      AloneSplit(n, st, p, leave, 3 + k, if st4.csst == Taken(p) then 2 else 1);
    }
  }

  /** Without an abort signal a process waits for as long as the word does not name it. */
  lemma {:induction false} KeepsWaiting(n: nat, st: State, p: nat, k: nat)
    requires Wf(n, st) && p < n && st.procs[p].pc == Wait && st.csst != Taken(p)
    ensures Alone(n, st, p, false, k) == st
    decreases k
  {
    if k > 0 {
      assert Go(n, st, p, false).procs == st.procs;
      KeepsWaiting(n, st, p, k - 1);
    }
  }

  /** A process that waits and is named is inside after two steps. */
  lemma WaiterEnters(n: nat, st: State, p: nat, leave: bool)
    requires Wf(n, st) && p < n && st.procs[p].pc == Wait && st.csst == Taken(p)
    ensures var st' := Alone(n, st, p, leave, 2);
            st'.procs[p].pc == Critical && st'.csst == st.csst && st'.active == st.active && Others(st, st', p)
  {
    AloneTwo(n, st, p, leave);
  }

  // Giving up ----------------------------------------------------------------------------------------------

  /** A process that gives up takes back its registration. */
  lemma Unregisters(n: nat, st: State, p: nat)
    requires Wf(n, st) && p < n && st.procs[p].pc == Wait && st.csst != Taken(p)
    ensures var st' := Alone(n, st, p, true, 3);
            && st'.procs[p].pc == ReadCsst(Abort) && st'.csst == st.csst && st'.active == st.active - {p}
            && Others(st, st', p)
  {
    AloneStep(n, st, p, true, 3);
    AloneTwo(n, Go(n, st, p, true), p, true);
  }

  function AbortSteps(st: State): nat {
    if st.csst.Taken? then 5 else 7
  }

  /**
   Giving up alone: the process is no longer registered, a free word names the next registered process,
   or this one if there is none, and it is inside if it is named after all and out if it is not.
   */
  lemma AbortAlone(n: nat, st: State, p: nat)
    requires Wf(n, st) && p < n && st.procs[p].pc == Wait && st.csst != Taken(p)
    ensures var st', rest := Alone(n, st, p, true, AbortSteps(st)), st.active - {p};
            && st'.active == rest && Others(st, st', p)
            && st'.csst == (if st.csst.Taken? then st.csst
                            else if rest == {} then Taken(p) else Taken(NextPort(n, rest, st.csst.owner)))
            && st'.procs[p].pc == (if st'.csst == Taken(p) then Critical else Rem)
            && (st'.csst == Taken(p) <==> st.csst.Free? && rest == {})
  {
    hide Wf, Alone;
    Unregisters(n, st, p);
    var st3 := Alone(n, st, p, true, 3);
    PromoteAlone(n, st3, p, true, Abort);
    var k := PromoteSteps(st3, Abort);
    var st4 := Alone(n, st3, p, true, k);
    ReadsOnce(n, st4, p, true);
    AloneSplit(n, st, p, true, 3, k);
    AloneSplit(n, st, p, true, 3 + k, 1);
  }

  lemma ReadsOnce(n: nat, st: State, p: nat, leave: bool)
    requires Wf(n, st) && p < n && st.procs[p].pc.AbortRead?
    ensures var st' := Alone(n, st, p, leave, 1);
            && st'.procs[p].pc == (if st.procs[p].pc.ctx.Abort? && st.csst == Taken(p) then Critical else Rem)
            && st'.csst == st.csst && st'.active == st.active && Others(st, st', p)
  {
    AloneStep(n, st, p, leave, 1);
  }

  // Leaving -----------------------------------------------------------------------------------------------

  lemma ReadsOwner(n: nat, st: State, p: nat, leave: bool)
    requires Wf(n, st) && p < n && st.procs[p].pc == Critical && st.csst == Taken(p)
    ensures var st' := Alone(n, st, p, leave, 2);
            && st'.procs[p].pc == ExitUnset && st'.procs[p].own == p && st'.csst == st.csst && st'.active == st.active
            && Others(st, st', p)
  {
    AloneTwo(n, st, p, leave);
  }

  lemma ReadsCounter(n: nat, st: State, p: nat, leave: bool)
    requires Wf(n, st) && p < n && st.procs[p].pc == ExitUnset
    ensures var st' := Alone(n, st, p, leave, 2);
            && st'.procs[p].pc == WriteSeq && st'.procs[p].own == st.procs[p].own && st'.procs[p].s == st.counter
            && st'.csst == st.csst && st'.active == st.active - {p} && Others(st, st', p)
  {
    AloneTwo(n, st, p, leave);
  }

  lemma Releases(n: nat, st: State, p: nat, leave: bool)
    requires Wf(n, st) && p < n && st.procs[p].pc == WriteSeq
    ensures var st', s := Alone(n, st, p, leave, 2), st.procs[p].s + 1;
            && st'.procs[p].pc == ReadCsst(Exit) && !st'.procs[p].inside && st'.csst == Free(s, st.procs[p].own)
            && st'.active == st.active && Others(st.(counter := s), st', p)
  {
    AloneTwo(n, st, p, leave);
  }

  /** The exit code up to the promotion frees the word under a new tag. */
  lemma Frees(n: nat, st: State, p: nat, leave: bool)
    requires Wf(n, st) && p < n && st.procs[p].pc == Critical && st.csst == Taken(p)
    ensures var st' := Alone(n, st, p, leave, 6);
            && st'.procs[p].pc == ReadCsst(Exit) && !st'.procs[p].inside && st'.csst == Free(st.counter + 1, p)
            && st'.active == st.active - {p} && Others(st.(counter := st.counter + 1), st', p)
  {
    hide Wf, Alone;
    ReadsOwner(n, st, p, leave);
    var st2 := Alone(n, st, p, leave, 2);
    ReadsCounter(n, st2, p, leave);
    var st4 := Alone(n, st2, p, leave, 2);
    Releases(n, st4, p, leave);
    AloneSplit(n, st, p, leave, 2, 2);
    AloneSplit(n, st, p, leave, 4, 2);
  }

  function ExitSteps(st: State, p: nat): nat {
    if st.active - {p} == {} then 8 else 9
  }

  /** Leaving alone: out, no longer registered, and the word names the next registered process or is free. */
  lemma ExitAlone(n: nat, st: State, p: nat, leave: bool)
    requires Wf(n, st) && p < n && st.procs[p].pc == Critical && st.csst == Taken(p)
    ensures var st', rest := Alone(n, st, p, leave, ExitSteps(st, p)), st.active - {p};
            && st'.procs[p].pc == Rem && !st'.procs[p].inside && st'.active == rest
            && Others(st.(counter := st.counter + 1), st', p)
            && st'.csst == (if rest == {} then Free(st.counter + 1, p) else Taken(NextPort(n, rest, p)))
  {
    hide Wf, Alone;
    Frees(n, st, p, leave);
    var st6 := Alone(n, st, p, leave, 6);
    PromoteAlone(n, st6, p, leave, Exit);
    AloneSplit(n, st, p, leave, 6, PromoteSteps(st6, Exit));
  }

  // Recovering -------------------------------------------------------------------------------------------

  lemma StartsRecovery(n: nat, st: State, p: nat, leave: bool)
    requires Wf(n, st) && p < n && st.procs[p].pc == Down
    ensures var st' := Alone(n, st, p, leave, 2);
            && st'.procs[p].pc == (if st.csst == Taken(p) then Unset(Recovery) else Rem)
            && st'.csst == st.csst && st'.active == st.active && Others(st, st', p)
  {
    AloneTwo(n, st, p, leave);
  }

  lemma Withdraws(n: nat, st: State, p: nat, leave: bool)
    requires Wf(n, st) && p < n && st.procs[p].pc == Unset(Recovery) && st.csst == Taken(p)
    ensures var st' := Alone(n, st, p, leave, 2);
            && st'.procs[p].pc == AbortRead(Recovery) && st'.csst == st.csst && st'.active == st.active - {p}
            && Others(st, st', p)
  {
    AloneTwo(n, st, p, leave);
  }

  function RecoverSteps(st: State, p: nat): nat {
    if st.csst == Taken(p) then 5 else 2
  }

  /**
   Recovering alone: the word stays, so a process that crashed inside is still the one that is named. Its
   registration is taken back in that case, and in that case only.
   */
  lemma RecoverAlone(n: nat, st: State, p: nat, leave: bool)
    requires Wf(n, st) && p < n && st.procs[p].pc == Down
    ensures var st' := Alone(n, st, p, leave, RecoverSteps(st, p));
            && st'.procs[p].pc == Rem && st'.csst == st.csst && Others(st, st', p)
            && st'.active == (if st.csst == Taken(p) then st.active - {p} else st.active)
  {
    hide Wf, Alone;
    StartsRecovery(n, st, p, leave);
    if st.csst == Taken(p) {
      var st2 := Alone(n, st, p, leave, 2);
      Withdraws(n, st2, p, leave);
      var st4 := Alone(n, st2, p, leave, 2);
      ReadsOnce(n, st4, p, leave);
      AloneSplit(n, st, p, leave, 2, 2);
      AloneSplit(n, st, p, leave, 4, 1);
    }
  }

  /** A process that crashed inside the section is inside again after its recovery and the next entry. */
  lemma RecoverThenEnter(n: nat, st: State, p: nat, leave: bool)
    requires Wf(n, st) && p < n && st.procs[p].pc == Down && st.csst == Taken(p)
    ensures var st' := Alone(n, st, p, leave, 8);
            st'.procs[p].pc == Critical && st'.csst == st.csst && Others(st, st', p)
  {
    hide Wf, Alone;
    RecoverAlone(n, st, p, leave);
    NamedEnters(n, Alone(n, st, p, leave, 5), p, leave);
    AloneSplit(n, st, p, leave, 5, 3);
  }
}
