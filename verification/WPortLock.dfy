/**
 The W-port recoverable abortable lock of Jayanti and Joshi, as a step system: every shared read,
 write and compare-and-swap of every process is one step, and a process may crash between any two.
 */
module WPortLock {
  import opened CyclicScan

  /** The status word: free with its sequence tag and the last owner, or taken by a process. */
  datatype Csst = Free(s: nat, owner: nat) | Taken(p: nat) {
    function Owner(): nat { if Free? then owner else p }
  }

  /** Who called `promote`. */
  datatype Ctx = Entry | Abort | Exit | Recovery {
    predicate Flag() { Abort? || Recovery? }
  }

  datatype Pc =
    | Rem                    // outside the lock
    | Try                    // first read of `tryenter`
    | SetBit
    | ReadCsst(ctx: Ctx)     // promote: read the status word
    | ReadActive(ctx: Ctx)   // promote: read the active mask
    | Cas(ctx: Ctx)          // promote: compare and swap
    | Check                  // last read of `tryenter`
    | Wait                   // the waiting loop of `enter`
    | Final                  // the read after the loop
    | Unset(ctx: Ctx)        // abort: unset the bit
    | AbortRead(ctx: Ctx)    // abort: read whether the lock came anyway
    | Critical
    | ExitRead | ExitUnset | ReadSeq | WriteSeq | Release
    | Down | Recover

  /**
   A process. Besides its program counter and local variables it carries history: whether it is
   inside the critical section, in which free period it last read the status word, and in which it
   last set its bit. Only `inside` and the bit survive a crash.
   */
  datatype Proc = Proc(pc: Pc, snap: Csst, peer: nat, s: nat, own: nat, inside: bool, seen: nat, since: nat)

  /** `tag` is the tag of the latest free period and `epoch` its number. */
  datatype State = State(csst: Csst, counter: nat, active: set<nat>, tag: nat, epoch: nat, procs: seq<Proc>)

  function After(ctx: Ctx): Pc {
    match ctx
    case Entry => Check
    case Abort => AbortRead(Abort)
    case Exit => Rem
    case Recovery => AbortRead(Recovery)
  }

  ghost predicate Wf(n: nat, st: State) {
    && |st.procs| == n && Ports(n, st.active) && st.csst.Owner() < n
    && forall q :: 0 <= q < n ==> ProcWf(n, st.procs[q])
  }

  ghost predicate ProcWf(n: nat, q: Proc) {
    && (q.pc.ReadActive? || q.pc.Cas? ==> q.snap.Free? && q.snap.owner < n)
    && (q.pc.Cas? ==> q.peer < n)
    && (q.pc.ExitUnset? || q.pc.ReadSeq? || q.pc.WriteSeq? || q.pc.Release? ==> q.own < n)
    && (q.pc.Unset? || q.pc.AbortRead? ==> q.pc.ctx.Flag())
  }

  ghost predicate Init(n: nat, st: State) {
    && n >= 1 && |st.procs| == n
    && st.csst == Free(1, 0) && st.counter == 1 && st.active == {} && st.tag == 1 && st.epoch == 0
    && forall q :: 0 <= q < n ==> st.procs[q].pc == Rem && !st.procs[q].inside
  }

  // A step of process p, field by field ----------------------------------------------------------------

  function CsstAfter(st: State, p: nat): Csst
    requires p < |st.procs|
  {
    var q := st.procs[p];
    if q.pc.Cas? && st.csst == q.snap then Taken(q.peer)
    else if q.pc.Release? then Free(q.s + 1, q.own)
    else st.csst
  }

  function CounterAfter(st: State, p: nat): nat
    requires p < |st.procs|
  {
    if st.procs[p].pc.WriteSeq? then st.procs[p].s + 1 else st.counter
  }

  function ActiveAfter(st: State, p: nat): set<nat>
    requires p < |st.procs|
  {
    var pc := st.procs[p].pc;
    if pc.SetBit? then st.active + {p}
    else if pc.Unset? || pc.ExitUnset? then st.active - {p}
    else st.active
  }

  /** The record of p after its step; `leave` is the abort signal of the waiting loop. */
  function Moved(n: nat, st: State, p: nat, leave: bool): Proc
    requires Wf(n, st) && p < n
  {
    var q, mine := st.procs[p], st.csst == Taken(p);
    match q.pc
    case Rem => q.(pc := Try)
    case Try => q.(pc := if mine then Final else SetBit)
    case SetBit => q.(pc := ReadCsst(Entry), since := st.epoch)
    case ReadCsst(c) => q.(pc := if st.csst.Taken? then After(c) else ReadActive(c), snap := st.csst, seen := st.epoch)
    case ReadActive(c) =>
      if st.active != {} then q.(pc := Cas(c), peer := NextPort(n, st.active, q.snap.owner))
      else if c.Flag() then q.(pc := Cas(c), peer := p)
      else q.(pc := After(c))
    case Cas(c) => q.(pc := After(c))
    case Check => q.(pc := if mine then Final else Wait)
    case Wait => if mine || leave then q.(pc := Final) else q
    case Final => if mine then q.(pc := Critical, inside := true) else q.(pc := Unset(Abort))
    case Unset(c) => q.(pc := ReadCsst(c))
    case AbortRead(c) => if c.Abort? && mine then q.(pc := Critical, inside := true) else q.(pc := Rem)
    case Critical => q.(pc := ExitRead)
    case ExitRead => q.(pc := ExitUnset, own := st.csst.Owner())
    case ExitUnset => q.(pc := ReadSeq)
    case ReadSeq => q.(pc := WriteSeq, s := st.counter)
    case WriteSeq => q.(pc := Release)
    case Release => q.(pc := ReadCsst(Exit), inside := false)
    case Down => q.(pc := Recover)
    case Recover => q.(pc := if mine then Unset(Recovery) else Rem)
  }

  function Go(n: nat, st: State, p: nat, leave: bool): State
    requires Wf(n, st) && p < n
  {
    var freed := st.procs[p].pc.Release?;
    State(CsstAfter(st, p), CounterAfter(st, p), ActiveAfter(st, p),
          if freed then st.procs[p].s + 1 else st.tag, if freed then st.epoch + 1 else st.epoch,
          st.procs[p := Moved(n, st, p, leave)])
  }

  ghost predicate Step(n: nat, st: State, st': State, p: nat)
    requires Wf(n, st)
  {
    p < n && (st' == Go(n, st, p, true) || st' == Go(n, st, p, false))
  }

  /** Process p crashes. Its locals are dead: every path from there sets them before it uses them. */
  ghost predicate Crash(n: nat, st: State, st': State, p: nat)
    requires Wf(n, st)
  {
    p < n && st' == st.(procs := st.procs[p := st.procs[p].(pc := Down)])
  }

  lemma InitWf(n: nat, st: State)
    requires Init(n, st)
    ensures Wf(n, st)
  {
  }

  lemma MovedWf(n: nat, st: State, p: nat, leave: bool)
    requires Wf(n, st) && p < n
    ensures ProcWf(n, Moved(n, st, p, leave))
  {
    assert ProcWf(n, st.procs[p]);
  }

  lemma GoWf(n: nat, st: State, p: nat, leave: bool)
    requires Wf(n, st) && p < n
    ensures Wf(n, Go(n, st, p, leave))
  {
    MovedWf(n, st, p, leave);
    hide Moved;
    assert ProcWf(n, st.procs[p]);
  }

  lemma StepKeepsWf(n: nat, st: State, st': State, p: nat)
    requires Wf(n, st) && (Step(n, st, st', p) || Crash(n, st, st', p))
    ensures Wf(n, st')
  {
    if Crash(n, st, st', p) {
    } else if st' == Go(n, st, p, true) {
      GoWf(n, st, p, true);
    } else {
      GoWf(n, st, p, false);
    }
  }

  // Tags and mutual exclusion, with crashes -------------------------------------------------------------

  /** What process q knows about tags, and that whoever is inside owns the word. */
  ghost predicate TagsAt(st: State, q: nat)
    requires q < |st.procs|
  {
    var r := st.procs[q];
    && (r.inside ==> st.csst == Taken(q))
    && (Leaving(r.pc) ==> r.inside)
    && (r.pc.ExitUnset? || r.pc.ReadSeq? || r.pc.WriteSeq? || r.pc.Release? ==> r.own == q)
    && (r.pc.WriteSeq? ==> r.s == st.counter)
    && (r.pc.Release? ==> st.counter == r.s + 1 && st.tag <= r.s)
    && (r.pc.ReadActive? || r.pc.Cas? ==>
          && r.snap.Free? && r.snap.s <= st.tag && r.seen <= st.epoch
          && (r.snap.s == st.tag <==> r.seen == st.epoch)
          && (st.csst.Free? && r.snap.s == st.tag ==> r.snap == st.csst))
  }

  ghost predicate Tags(n: nat, st: State)
    requires Wf(n, st)
  {
    && st.tag <= st.counter && (st.csst.Free? ==> st.csst.s == st.tag)
    && forall q :: 0 <= q < n ==> TagsAt(st, q)
  }

  lemma InitTags(n: nat, st: State)
    requires Init(n, st) && Wf(n, st)
    ensures Tags(n, st)
  {
  }

  lemma OthersKeepTags(n: nat, st: State, p: nat, leave: bool, q: nat)
    requires Wf(n, st) && Tags(n, st) && p < n && q < n && p != q
    ensures TagsAt(Go(n, st, p, leave), q)
  {
    hide Moved;
    assert TagsAt(st, p) && TagsAt(st, q);
  }

  predicate Leaving(pc: Pc) {
    pc.Critical? || pc.ExitRead? || pc.ExitUnset? || pc.ReadSeq? || pc.WriteSeq? || pc.Release?
  }

  lemma OwnTagsLeaving(n: nat, st: State, p: nat, leave: bool)
    requires Wf(n, st) && Tags(n, st) && p < n && Leaving(st.procs[p].pc)
    ensures TagsAt(Go(n, st, p, leave), p)
  {
    assert TagsAt(st, p);
  }

  lemma OwnTags(n: nat, st: State, p: nat, leave: bool)
    requires Wf(n, st) && Tags(n, st) && p < n
    ensures TagsAt(Go(n, st, p, leave), p)
  {
    if Leaving(st.procs[p].pc) {
      OwnTagsLeaving(n, st, p, leave);
    } else {
      assert TagsAt(st, p);
    }
  }

  lemma GoKeepsTags(n: nat, st: State, p: nat, leave: bool)
    requires Wf(n, st) && Tags(n, st) && p < n && Wf(n, Go(n, st, p, leave))
    ensures Tags(n, Go(n, st, p, leave))
  {
    assert TagsAt(st, p);
    forall q | 0 <= q < n ensures TagsAt(Go(n, st, p, leave), q) {
      if q == p {
        OwnTags(n, st, p, leave);
      } else {
        OthersKeepTags(n, st, p, leave, q);
      }
    }
    hide Moved, TagsAt;
  }

  lemma CrashKeepsTags(n: nat, st: State, st': State, p: nat)
    requires Wf(n, st) && Tags(n, st) && Crash(n, st, st', p) && Wf(n, st')
    ensures Tags(n, st')
  {
    forall q | 0 <= q < n ensures TagsAt(st', q) {
      assert TagsAt(st, q);
    }
  }

  ghost predicate Inv(n: nat, st: State) {
    Wf(n, st) && Tags(n, st)
  }

  lemma StepKeepsInv(n: nat, st: State, st': State, p: nat)
    requires Inv(n, st) && (Step(n, st, st', p) || Crash(n, st, st', p))
    ensures Inv(n, st')
  {
    StepKeepsWf(n, st, st', p);
    if Crash(n, st, st', p) {
      CrashKeepsTags(n, st, st', p);
    } else if st' == Go(n, st, p, true) {
      GoKeepsTags(n, st, p, true);
    } else {
      GoKeepsTags(n, st, p, false);
    }
  }

  // Runs with crashes at any step --------------------------------------------------------------------------

  ghost predicate Next(n: nat, st: State, st': State) {
    Wf(n, st) && exists p: nat :: p < n && (Step(n, st, st', p) || Crash(n, st, st', p))
  }

  ghost predicate IsRun(n: nat, run: seq<State>) {
    |run| > 0 && Init(n, run[0]) && forall i :: 0 <= i < |run| - 1 ==> Next(n, run[i], run[i + 1])
  }

  lemma {:induction false} RunInv(n: nat, run: seq<State>, i: nat)
    requires IsRun(n, run) && i < |run|
    ensures Inv(n, run[i])
    decreases i
  {
    if i == 0 {
      InitWf(n, run[0]);
      InitTags(n, run[0]);
    } else {
      RunInv(n, run, i - 1);
      assert Next(n, run[i - 1], run[i - 1 + 1]);
      var p: nat :| p < n && (Step(n, run[i - 1], run[i], p) || Crash(n, run[i - 1], run[i], p));
      StepKeepsInv(n, run[i - 1], run[i], p);
    }
  }

  /** Mutual exclusion: whatever crashes, at most one process is in its critical section. */
  lemma MutualExclusion(n: nat, run: seq<State>, i: nat, p: nat, q: nat)
    requires IsRun(n, run) && i < |run| && p < n && q < n
    ensures |run[i].procs| == n
    ensures Leaving(run[i].procs[p].pc) ==> run[i].csst == Taken(p)
    ensures Leaving(run[i].procs[p].pc) && Leaving(run[i].procs[q].pc) ==> p == q
  {
    RunInv(n, run, i);
    assert TagsAt(run[i], p) && TagsAt(run[i], q);
  }

  /** The word stays with its holder until the next release. */
  lemma {:induction false} HeldUntilRelease(n: nat, run: seq<State>, i: nat, j: nat, p: nat)
    requires IsRun(n, run) && i <= j < |run| && p < n && run[i].csst == Taken(p) && run[i].epoch == run[j].epoch
    ensures run[j].csst == Taken(p)
    decreases j - i
  {
    if i < j {
      EpochMonotone(n, run, i, j - 1);
      EpochMonotone(n, run, j - 1, j);
      HeldUntilRelease(n, run, i, j - 1, p);
      RunInv(n, run, j - 1);
      assert Next(n, run[j - 1], run[j - 1 + 1]);
      var r: nat :| r < n && (Step(n, run[j - 1], run[j], r) || Crash(n, run[j - 1], run[j], r));
      assert TagsAt(run[j - 1], r);
    }
  }

  lemma {:induction false} EpochMonotone(n: nat, run: seq<State>, i: nat, j: nat)
    requires IsRun(n, run) && i <= j < |run|
    ensures run[i].epoch <= run[j].epoch
    decreases j - i
  {
    if i < j {
      EpochMonotone(n, run, i, j - 1);
      assert Next(n, run[j - 1], run[j - 1 + 1]);
      var r: nat :| r < n && (Step(n, run[j - 1], run[j], r) || Crash(n, run[j - 1], run[j], r));
    }
  }

  /**
   Critical-section re-entry: once p is inside, whether it crashes there or not, nobody else is
   inside at any later point before a release.
   */
  lemma ReEntry(n: nat, run: seq<State>, i: nat, j: nat, p: nat, q: nat)
    requires IsRun(n, run) && i <= j < |run| && p < n && q < n
    requires |run[i].procs| == n && run[i].procs[p].inside && run[i].epoch == run[j].epoch
    ensures |run[j].procs| == n
    ensures run[j].procs[q].inside ==> q == p
  {
    RunInv(n, run, i);
    RunInv(n, run, j);
    assert TagsAt(run[i], p) && TagsAt(run[j], q);
    HeldUntilRelease(n, run, i, j, p);
  }

  /** A promotion succeeds only in the free period in which it read the status word. */
  lemma PromotionInItsPeriod(n: nat, run: seq<State>, i: nat, p: nat)
    requires IsRun(n, run) && i < |run| && p < n
    ensures |run[i].procs| == n
    ensures var q := run[i].procs[p];
            q.pc.Cas? && run[i].csst == q.snap ==> q.seen == run[i].epoch
  {
    RunInv(n, run, i);
    assert TagsAt(run[i], p);
  }

  // Runs without crashes --------------------------------------------------------------------------------

  /** Between setting the bit and the end of waiting, or about to unset it: the process has its bit set. */
  predicate Waiting(pc: Pc) {
    || ((pc.ReadCsst? || pc.ReadActive? || pc.Cas?) && pc.ctx == Entry)
    || pc.Check? || pc.Wait? || pc.Final? || pc == Unset(Abort)
  }

  predicate Aborting(pc: Pc) {
    (pc.ReadCsst? || pc.ReadActive? || pc.Cas? || pc.AbortRead?) && pc.ctx == Abort
  }

  /** Entry code after the bit is set, abort code, critical section, or exit code before the release. */
  predicate Present(pc: Pc) {
    Waiting(pc) || Aborting(pc) || Leaving(pc)
  }

  /** A waiting process has its bit set; one that got the lock while aborting is inside without it. */
  predicate BitOk(active: set<nat>, q: nat, pc: Pc) {
    && (Waiting(pc) ==> q in active)
    && (q in active ==> Waiting(pc) || pc.Critical? || pc.ExitRead? || pc.ExitUnset?)
  }

  /** The process will still see a hand-over made now: it waits, or its abort has yet to pass its own promotion. */
  ghost predicate WillSee(st: State, x: nat)
    requires x < |st.procs|
  {
    var r := st.procs[x];
    || Waiting(r.pc) || r.pc == ReadCsst(Abort)
    || ((r.pc == ReadActive(Abort) || r.pc == Cas(Abort)) && r.snap == st.csst)
  }

  /** A promoter whose snapshot is current has chosen a process that will see it. */
  ghost predicate PeerOk(n: nat, st: State, q: nat)
    requires Wf(n, st) && q < n
  {
    st.procs[q].pc.Cas? && st.procs[q].snap == st.csst ==> WillSee(st, st.procs[q].peer)
  }

  predicate NoCrashPc(pc: Pc) {
    !pc.Down? && !pc.Recover?
    && (pc.ReadCsst? || pc.ReadActive? || pc.Cas? || pc.Unset? || pc.AbortRead? ==> !pc.ctx.Recovery?)
    && (pc.Unset? || pc.AbortRead? ==> pc.ctx.Abort?)
  }

  ghost predicate Presence(n: nat, st: State)
    requires Wf(n, st)
  {
    && (forall q :: 0 <= q < n ==> NoCrashPc(st.procs[q].pc))
    && (forall q :: 0 <= q < n ==> BitOk(st.active, q, st.procs[q].pc))
    && (st.csst.Taken? ==> Present(st.procs[st.csst.p].pc))
    && (forall q :: 0 <= q < n ==> PeerOk(n, st, q))
  }

  lemma InitPresence(n: nat, st: State)
    requires Init(n, st) && Wf(n, st)
    ensures Presence(n, st)
  {
  }

  /** The own record: no crash code, and the bit follows the program counter. */
  lemma OwnBit(n: nat, st: State, p: nat, leave: bool)
    requires Inv(n, st) && Presence(n, st) && p < n
    ensures NoCrashPc(Moved(n, st, p, leave).pc)
    ensures BitOk(ActiveAfter(st, p), p, Moved(n, st, p, leave).pc)
  {
    assert TagsAt(st, p) && NoCrashPc(st.procs[p].pc) && BitOk(st.active, p, st.procs[p].pc);
  }

  /** The holder stays present through its own steps, up to the release. */
  lemma HolderStays(n: nat, st: State, p: nat, leave: bool)
    requires Inv(n, st) && Presence(n, st) && p < n && st.csst == Taken(p) && !st.procs[p].pc.Release?
    ensures Present(Moved(n, st, p, leave).pc)
  {
    assert TagsAt(st, p);
  }

  /** A process that will see a hand-over still does after its own step, unless that step ends the period. */
  lemma SeerStays(n: nat, st: State, p: nat, leave: bool)
    requires Inv(n, st) && p < n && st.csst.Free? && WillSee(st, p) && CsstAfter(st, p) == st.csst
    ensures WillSee(Go(n, st, p, leave), p)
  {
    assert TagsAt(st, p);
  }

  /** Whom a promoter with a current snapshot chooses. */
  lemma ChosenWillSee(n: nat, st: State, p: nat, leave: bool)
    requires Inv(n, st) && Presence(n, st) && p < n && st.procs[p].pc.ReadActive? && st.procs[p].snap == st.csst
    ensures Moved(n, st, p, leave).pc.Cas? ==> Wf(n, Go(n, st, p, leave)) && PeerOk(n, Go(n, st, p, leave), p)
  {
    GoWf(n, st, p, leave);
    var r := Moved(n, st, p, leave);
    if r.pc.Cas? && r.peer != p {
      assert r.peer in st.active && BitOk(st.active, r.peer, st.procs[r.peer].pc);
      assert TagsAt(st, r.peer);
    }
    assert TagsAt(st, p);
  }

  lemma OthersPeerOk(n: nat, st: State, p: nat, leave: bool, q: nat)
    requires Inv(n, st) && Presence(n, st) && p < n && q < n && q != p && Wf(n, Go(n, st, p, leave))
    ensures PeerOk(n, Go(n, st, p, leave), q)
  {
    assert TagsAt(st, p) && TagsAt(st, q) && PeerOk(n, st, q);
    var st' := Go(n, st, p, leave);
    if st.procs[q].pc.Cas? && st.procs[q].snap == st'.csst && st.procs[q].peer == p {
      SeerStays(n, st, p, leave);
    }
    hide Moved;
  }

  lemma OwnPeerOk(n: nat, st: State, p: nat, leave: bool)
    requires Inv(n, st) && Presence(n, st) && p < n && Wf(n, Go(n, st, p, leave))
    ensures PeerOk(n, Go(n, st, p, leave), p)
  {
    if Moved(n, st, p, leave).pc.Cas? && st.procs[p].snap == st.csst {
      ChosenWillSee(n, st, p, leave);
    }
  }

  /** The word names a present process, also just after a hand-over. */
  lemma NamedIsPresent(n: nat, st: State, p: nat, leave: bool)
    requires Inv(n, st) && Presence(n, st) && p < n && Wf(n, Go(n, st, p, leave))
    ensures var st' := Go(n, st, p, leave); st'.csst.Taken? ==> Present(st'.procs[st'.csst.p].pc)
  {
    assert TagsAt(st, p) && PeerOk(n, st, p);
    var q := st.procs[p];
    if q.pc.Cas? && st.csst == q.snap {
      hide NextPort;
    } else if st.csst == Taken(p) && !q.pc.Release? {
      HolderStays(n, st, p, leave);
    } else {
      hide Moved;
    }
  }

  lemma GoKeepsPresence(n: nat, st: State, p: nat, leave: bool)
    requires Inv(n, st) && Presence(n, st) && p < n && Wf(n, Go(n, st, p, leave))
    ensures Presence(n, Go(n, st, p, leave))
  {
    OwnBit(n, st, p, leave);
    NamedIsPresent(n, st, p, leave);
    OwnPeerOk(n, st, p, leave);
    hide Moved;
    var st' := Go(n, st, p, leave);
    forall q | 0 <= q < n
      ensures NoCrashPc(st'.procs[q].pc) && BitOk(st'.active, q, st'.procs[q].pc) && PeerOk(n, st', q)
    {
      if q != p {
        OthersPeerOk(n, st, p, leave, q);
      }
    }
  }

  /** The process is inside `promote`, about to read the word or holding a snapshot equal to it. */
  ghost predicate InPromote(st: State, q: nat)
    requires q < |st.procs|
  {
    var r := st.procs[q];
    r.pc.ReadCsst? || ((r.pc.ReadActive? || r.pc.Cas?) && r.snap == st.csst)
  }

  ghost predicate SomePromoter(n: nat, st: State)
    requires Wf(n, st)
  {
    exists q: nat :: q < n && InPromote(st, q)
  }

  ghost predicate NoStranded(n: nat, st: State)
    requires Wf(n, st)
  {
    st.csst.Free? && st.active != {} ==> SomePromoter(n, st)
  }

  lemma PromoterStays(n: nat, st: State, p: nat, leave: bool)
    requires Inv(n, st) && p < n && st.csst.Free? && st.active != {} && InPromote(st, p)
    requires CsstAfter(st, p) == st.csst
    ensures InPromote(Go(n, st, p, leave), p)
  {
    assert TagsAt(st, p);
  }

  lemma NewPromoter(n: nat, st: State, p: nat, leave: bool)
    requires Wf(n, st) && p < n
    requires st.procs[p].pc.SetBit? || st.procs[p].pc.Release?
    ensures InPromote(Go(n, st, p, leave), p)
  {
  }

  lemma GoKeepsPromoter(n: nat, st: State, p: nat, leave: bool)
    requires Inv(n, st) && NoStranded(n, st) && p < n && Wf(n, Go(n, st, p, leave))
    ensures NoStranded(n, Go(n, st, p, leave))
  {
    var st', pc := Go(n, st, p, leave), st.procs[p].pc;
    if pc.SetBit? || pc.Release? {
      NewPromoter(n, st, p, leave);
    } else if st'.csst.Free? && st'.active != {} {
      assert st'.csst == st.csst && st'.active <= st.active;
      var q: nat :| q < n && InPromote(st, q);
      if q == p {
        PromoterStays(n, st, p, leave);
      }
      hide Moved;
      assert InPromote(st', q);
    }
  }

  // Fairness ---------------------------------------------------------------------------------------------

  /** A current promoter passes over nobody who registered before this free period. */
  ghost predicate FairAt(n: nat, st: State, q: nat)
    requires Wf(n, st) && q < n
  {
    var r := st.procs[q];
    r.pc.Cas? && r.snap == st.csst ==>
      forall w :: w in st.active && st.procs[w].since < st.epoch ==>
        Distance(n, r.snap.owner, r.peer) <= Distance(n, r.snap.owner, w)
  }

  ghost predicate Fair(n: nat, st: State)
    requires Wf(n, st)
  {
    forall q :: 0 <= q < n ==> FairAt(n, st, q)
  }

  lemma OwnFair(n: nat, st: State, p: nat, leave: bool)
    requires Inv(n, st) && p < n && Wf(n, Go(n, st, p, leave))
    ensures FairAt(n, Go(n, st, p, leave), p)
  {
    assert ProcWf(n, st.procs[p]);
    if st.procs[p].pc.ReadActive? && st.active != {} {
      assert IsNext(n, st.active, st.procs[p].snap.owner, NextPort(n, st.active, st.procs[p].snap.owner));
    }
  }

  lemma SinceKept(n: nat, st: State, p: nat, leave: bool)
    requires Wf(n, st) && p < n
    ensures Moved(n, st, p, leave).since == if st.procs[p].pc.SetBit? then st.epoch else st.procs[p].since
  {
  }

  lemma OthersFair(n: nat, st: State, p: nat, leave: bool, q: nat)
    requires Inv(n, st) && Fair(n, st) && p < n && q < n && q != p && Wf(n, Go(n, st, p, leave))
    ensures FairAt(n, Go(n, st, p, leave), q)
  {
    SinceKept(n, st, p, leave);
    assert TagsAt(st, p) && TagsAt(st, q) && FairAt(n, st, q);
    hide Moved;
  }

  lemma GoKeepsFair(n: nat, st: State, p: nat, leave: bool)
    requires Inv(n, st) && Fair(n, st) && p < n && Wf(n, Go(n, st, p, leave))
    ensures Fair(n, Go(n, st, p, leave))
  {
    forall q | 0 <= q < n ensures FairAt(n, Go(n, st, p, leave), q) {
      if q == p {
        OwnFair(n, st, p, leave);
      } else {
        OthersFair(n, st, p, leave, q);
      }
    }
  }

  /** The lock changes hands only by a promotion, and then to its peer. */
  lemma OwnerAfter(n: nat, st: State, p: nat)
    requires Inv(n, st) && p < n
    ensures CsstAfter(st, p).Owner()
         == if st.procs[p].pc.Cas? && st.csst == st.procs[p].snap then st.procs[p].peer else st.csst.Owner()
  {
    assert TagsAt(st, p);
  }

  /**
   A hand-over in a free period that began after w registered goes to w, or strictly shortens the
   cyclic distance from the last owner to w.
   */
  lemma HandOver(n: nat, st: State, p: nat, w: nat)
    requires Inv(n, st) && Fair(n, st) && p < n && w < n
    requires st.csst.Free? && CsstAfter(st, p).Taken?
    requires w in st.active && st.procs[w].since < st.epoch
    ensures CsstAfter(st, p).Owner() < n
    ensures CsstAfter(st, p) == Taken(w)
         || Distance(n, CsstAfter(st, p).Owner(), w) < Distance(n, st.csst.Owner(), w)
  {
    assert ProcWf(n, st.procs[p]) && FairAt(n, st, p);
    var o, peer := st.csst.Owner(), st.procs[p].peer;
    assert Distance(n, o, peer) <= Distance(n, o, w);
    if peer != w {
      if Distance(n, o, peer) == Distance(n, o, w) {
        DistanceInjective(n, o, peer, w);
      }
      DistanceShrinks(n, o, peer, w);
    }
  }

  // Runs without crashes: the theorems --------------------------------------------------------------------

  ghost predicate NextAlive(n: nat, st: State, st': State) {
    Wf(n, st) && exists p: nat :: p < n && Step(n, st, st', p)
  }

  ghost predicate IsCrashFreeRun(n: nat, run: seq<State>) {
    |run| > 0 && Init(n, run[0]) && forall i :: 0 <= i < |run| - 1 ==> NextAlive(n, run[i], run[i + 1])
  }

  ghost predicate AliveInv(n: nat, st: State) {
    Inv(n, st) && Presence(n, st) && NoStranded(n, st) && Fair(n, st)
  }

  lemma GoKeepsAlive(n: nat, st: State, p: nat, leave: bool)
    requires AliveInv(n, st) && p < n
    ensures AliveInv(n, Go(n, st, p, leave))
  {
    GoWf(n, st, p, leave);
    GoKeepsTags(n, st, p, leave);
    GoKeepsPresence(n, st, p, leave);
    GoKeepsPromoter(n, st, p, leave);
    GoKeepsFair(n, st, p, leave);
  }

  lemma {:induction false} AliveRun(n: nat, run: seq<State>, i: nat)
    requires IsCrashFreeRun(n, run) && i < |run|
    ensures AliveInv(n, run[i])
    decreases i
  {
    if i == 0 {
      InitWf(n, run[0]);
      InitTags(n, run[0]);
      InitPresence(n, run[0]);
    } else {
      AliveRun(n, run, i - 1);
      var p, leave := StepAt(n, run, i - 1);
      GoKeepsAlive(n, run[i - 1], p, leave);
    }
  }

  lemma StepAt(n: nat, run: seq<State>, i: nat) returns (p: nat, leave: bool)
    requires IsCrashFreeRun(n, run) && i < |run| - 1
    ensures Wf(n, run[i]) && p < n && run[i + 1] == Go(n, run[i], p, leave)
  {
    assert NextAlive(n, run[i], run[i + 1]);
    p :| p < n && Step(n, run[i], run[i + 1], p);
    leave := run[i + 1] == Go(n, run[i], p, true);
  }

  /** The status word never names an absent process. */
  lemma NamedProcessIsPresent(n: nat, run: seq<State>, i: nat)
    requires IsCrashFreeRun(n, run) && i < |run|
    ensures run[i].csst.Taken? ==> run[i].csst.p < |run[i].procs| && Present(run[i].procs[run[i].csst.p].pc)
  {
    AliveRun(n, run, i);
  }

  /** No stranded waiter: a free lock with a registered process has a promoter that can still act. */
  lemma NoStrandedWaiter(n: nat, run: seq<State>, i: nat)
    requires IsCrashFreeRun(n, run) && i < |run|
    requires run[i].csst.Free? && run[i].active != {}
    ensures exists q: nat :: q < |run[i].procs| && InPromote(run[i], q)
  {
    AliveRun(n, run, i);
    var q: nat :| q < n && InPromote(run[i], q);
    assert q < |run[i].procs|;
  }

  /** Hand-overs between states i and j of a run. */
  ghost function HandOvers(run: seq<State>, i: nat, j: nat): nat
    requires i <= j < |run|
    decreases j
  {
    if i == j then 0
    else HandOvers(run, i, j - 1) + if run[j - 1].csst.Free? && run[j].csst.Taken? then 1 else 0
  }

  /** Process w has its bit set in states i to j and has not been handed the lock. */
  ghost predicate StillWaiting(run: seq<State>, i: nat, j: nat, w: nat)
    requires i <= j < |run|
  {
    forall k :: i <= k <= j ==> w in run[k].active && run[k].csst != Taken(w)
  }

  lemma {:induction false} BypassMeasure(n: nat, run: seq<State>, i: nat, j: nat, w: nat)
    requires IsCrashFreeRun(n, run) && i <= j < |run| && w < n && StillWaiting(run, i, j, w)
    requires |run[i].procs| == n && run[i].procs[w].since < run[i].epoch
    ensures Wf(n, run[i]) && Wf(n, run[j]) && run[j].procs[w].since < run[j].epoch
    ensures HandOvers(run, i, j) + Distance(n, run[j].csst.Owner(), w) <= Distance(n, run[i].csst.Owner(), w)
    decreases j
  {
    hide Moved, Presence, NoStranded, Fair, Tags, IsCrashFreeRun;
    AliveRun(n, run, i);
    if i < j {
      BypassMeasure(n, run, i, j - 1, w);
      AliveRun(n, run, j - 1);
      AliveRun(n, run, j);
      var p, leave := StepAt(n, run, j - 1);
      BypassStep(n, run[j - 1], p, leave, w);
    }
  }

  lemma BypassStep(n: nat, st: State, p: nat, leave: bool, w: nat)
    requires AliveInv(n, st) && p < n && w < n && Wf(n, Go(n, st, p, leave))
    requires w in st.active && st.procs[w].since < st.epoch && CsstAfter(st, p) != Taken(w)
    ensures var st' := Go(n, st, p, leave);
            && st'.procs[w].since < st'.epoch
            && (if st.csst.Free? && st'.csst.Taken? then 1 else 0) + Distance(n, st'.csst.Owner(), w)
               <= Distance(n, st.csst.Owner(), w)
  {
    SinceKept(n, st, p, leave);
    assert BitOk(st.active, w, st.procs[w].pc);
    OwnerAfter(n, st, p);
    assert TagsAt(st, p);
    if st.csst.Free? && CsstAfter(st, p).Taken? {
      HandOver(n, st, p, w);
    }
    hide Moved;
  }

  /** Bounded bypass: from the first free period after it registered, w is overtaken fewer than n times. */
  lemma BoundedBypass(n: nat, run: seq<State>, i: nat, j: nat, w: nat)
    requires IsCrashFreeRun(n, run) && i <= j < |run| && w < n && StillWaiting(run, i, j, w)
    requires |run[i].procs| == n && run[i].procs[w].since < run[i].epoch
    ensures HandOvers(run, i, j) < n
  {
    BypassMeasure(n, run, i, j, w);
  }

  // What the named process does -----------------------------------------------------------------------------

  /** Steps a process still has to take until it has been through its critical section and frees the word. */
  function Steps(pc: Pc): nat {
    match pc
    case Release => 1
    case WriteSeq => 2
    case ReadSeq => 3
    case ExitUnset => 4
    case ExitRead => 5
    case Critical => 6
    case Final => 7
    case Check => 8
    case Wait => 8
    case Try => 8
    case Rem => 9
    case SetBit => 10
    case AbortRead(c) => if c.Abort? then 7 else 10
    case Cas(c) => AfterSteps(c) + 1
    case ReadActive(c) => AfterSteps(c) + 2
    case ReadCsst(c) => AfterSteps(c) + 1
    case Unset(c) => AfterSteps(c) + 2
    case Recover => 13
    case Down => 14
  }

  function AfterSteps(c: Ctx): nat {
    match c
    case Entry => 8
    case Abort => 7
    case Exit => 9
    case Recovery => 10
  }

  lemma InsideMoves(n: nat, st: State, p: nat, leave: bool)
    requires Wf(n, st) && p < n && st.csst == Taken(p) && Leaving(st.procs[p].pc)
    ensures var pc, pc' := st.procs[p].pc, Moved(n, st, p, leave).pc;
            if pc.Release? then CsstAfter(st, p).Free?
            else CsstAfter(st, p) == Taken(p) && Leaving(pc') && Steps(pc') < Steps(pc)
  {
  }

  lemma OutsideMoves(n: nat, st: State, p: nat, leave: bool)
    requires Wf(n, st) && p < n && st.csst == Taken(p) && !Leaving(st.procs[p].pc)
    ensures var pc, pc' := st.procs[p].pc, Moved(n, st, p, leave).pc;
            CsstAfter(st, p) == Taken(p) && Steps(pc') < Steps(pc) && (Leaving(pc') ==> pc' == Critical)
  {
    assert ProcWf(n, st.procs[p]);
  }

  /**
   A process that the word names is never stuck: each of its steps takes it nearer to the release, and
   the first one that takes it in takes it to the beginning of its critical section.
   */
  lemma NamedMoves(n: nat, st: State, p: nat, leave: bool)
    requires Wf(n, st) && p < n && st.csst == Taken(p)
    ensures var pc, pc' := st.procs[p].pc, Moved(n, st, p, leave).pc;
            && (if pc.Release? then CsstAfter(st, p).Free? else CsstAfter(st, p) == Taken(p) && Steps(pc') < Steps(pc))
            && (Leaving(pc') && !Leaving(pc) ==> pc' == Critical)
  {
    hide Moved, Steps, CsstAfter;
    if Leaving(st.procs[p].pc) {
      InsideMoves(n, st, p, leave);
    } else {
      OutsideMoves(n, st, p, leave);
    }
  }

  /** How often the record of p changes between states i and j. */
  ghost function Moves(run: seq<State>, p: nat, i: nat, j: nat): nat
    requires i <= j < |run| && forall k :: i <= k <= j ==> p < |run[k].procs|
    decreases j
  {
    if i == j then 0 else Moves(run, p, i, j - 1) + if run[j - 1].procs[p] != run[j].procs[p] then 1 else 0
  }

  /** The word names p from state i to state j, and p does not crash there. */
  ghost predicate NamedFrom(n: nat, run: seq<State>, p: nat, i: nat, j: nat)
    requires i <= j < |run|
  {
    && (forall k :: i <= k <= j ==> |run[k].procs| == n && run[k].csst == Taken(p))
    && (forall k :: i < k <= j ==> p < n && !run[k].procs[p].pc.Down?)
  }

  /**
   A process that the word names goes through its critical section and frees the word within fourteen
   of its own steps, whatever the others do: while the word names it and it does not crash, every step of
   its own brings it nearer, and there is no other way into the section than through its beginning.
   */
  lemma {:induction false} NamedGoesThrough(n: nat, run: seq<State>, p: nat, i: nat, j: nat)
    requires IsRun(n, run) && p < n && i <= j < |run| && NamedFrom(n, run, p, i, j)
    ensures Steps(run[j].procs[p].pc) + Moves(run, p, i, j) <= Steps(run[i].procs[p].pc) <= 14
    decreases j
  {
    hide Moved, Wf, Go, Steps;
    StepsBound(run[i].procs[p].pc);
    if i < j {
      NamedGoesThrough(n, run, p, i, j - 1);
      assert Next(n, run[j - 1], run[j - 1 + 1]);
      var q: nat :| q < n && (Step(n, run[j - 1], run[j], q) || Crash(n, run[j - 1], run[j], q));
      NamedStep(n, run[j - 1], run[j], q, p);
    }
  }

  lemma StepsBound(pc: Pc)
    ensures 1 <= Steps(pc) <= 14
  {
  }

  lemma NamedStep(n: nat, st: State, st': State, q: nat, p: nat)
    requires Wf(n, st) && q < n && p < n && (Step(n, st, st', q) || Crash(n, st, st', q))
    requires st.csst == Taken(p) && st'.csst == Taken(p) && |st'.procs| == n && !st'.procs[p].pc.Down?
    ensures st'.procs[p] == st.procs[p] || Steps(st'.procs[p].pc) < Steps(st.procs[p].pc)
  {
    hide Moved;
    if q == p {
      NamedMoves(n, st, p, true);
      NamedMoves(n, st, p, false);
    }
  }
}
