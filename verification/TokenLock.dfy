/**
 The token-based recoverable abortable lock of Jayanti and Joshi, as a step system with crashes at
 any step. What the min-array answers is chosen freely at every call: nothing here rests on it.
 */
module TokenLock {

  datatype Status = Free(s: nat) | Taken(p: nat)

  datatype Ctx = Entry | Abort | Exit | Recovery {
    predicate Flag() { Abort? || Recovery? }
  }

  datatype Pc =
    | Rem
    | Try                   // first read of `tryenter`
    | ReadToken | CasToken
    | Publish               // min-array update with the token
    | ReadStatus(ctx: Ctx)  // promote: read the status word
    | FindMin(ctx: Ctx)     // promote: ask the min-array
    | Cas(ctx: Ctx)         // promote: compare and swap
    | Check | Wait | Final  // last read of `tryenter`, waiting loop, read after it
    | Withdraw(ctx: Ctx)    // abort: min-array update
    | AbortRead(ctx: Ctx)
    | Critical
    | ExitWithdraw | ReadSeq | WriteSeq | Release
    | Down | Recover

  /** A process; `inside` and `seen` are history, and only `inside` survives a crash. */
  datatype Proc = Proc(pc: Pc, snap: Status, peer: nat, token: nat, s: nat, inside: bool, seen: nat)

  datatype State = State(status: Status, counter: nat, token: nat, tag: nat, epoch: nat, procs: seq<Proc>)

  /** What is left open in a step: the abort signal, and the answer of the min-array. */
  datatype Choice = Choice(leave: bool, infinite: bool, peer: nat)

  function After(ctx: Ctx): Pc {
    match ctx
    case Entry => Check
    case Abort => AbortRead(Abort)
    case Exit => Rem
    case Recovery => AbortRead(Recovery)
  }

  ghost predicate Init(n: nat, st: State) {
    && |st.procs| == n && st.status == Free(1) && st.counter == 1 && st.token == 1 && st.tag == 1 && st.epoch == 0
    && forall q :: 0 <= q < n ==> st.procs[q].pc == Rem && !st.procs[q].inside
  }

  function StatusAfter(st: State, p: nat): Status
    requires p < |st.procs|
  {
    var q := st.procs[p];
    if q.pc.Cas? && st.status == q.snap then Taken(q.peer)
    else if q.pc.Release? then Free(q.s + 1)
    else st.status
  }

  function CounterAfter(st: State, p: nat): nat
    requires p < |st.procs|
  {
    if st.procs[p].pc.WriteSeq? then st.procs[p].s + 1 else st.counter
  }

  function TokenAfter(st: State, p: nat): nat
    requires p < |st.procs|
  {
    if st.procs[p].pc.CasToken? && st.token == st.procs[p].token then st.token + 1 else st.token
  }

  function Moved(st: State, p: nat, c: Choice): Proc
    requires p < |st.procs|
  {
    var q, mine := st.procs[p], st.status == Taken(p);
    match q.pc
    case Rem => q.(pc := Try)
    case Try => q.(pc := if mine then Final else ReadToken)
    case ReadToken => q.(pc := CasToken, token := st.token)
    case CasToken => q.(pc := Publish)
    case Publish => q.(pc := ReadStatus(Entry))
    case ReadStatus(x) =>
      q.(pc := if st.status.Taken? then After(x) else FindMin(x), snap := st.status, seen := st.epoch)
    case FindMin(x) =>
      if c.infinite && !x.Flag() then q.(pc := After(x))
      else q.(pc := Cas(x), peer := if c.infinite then p else c.peer)
    case Cas(x) => q.(pc := After(x))
    case Check => q.(pc := if mine then Final else Wait)
    case Wait => if mine || c.leave then q.(pc := Final) else q
    case Final => if mine then q.(pc := Critical, inside := true) else q.(pc := Withdraw(Abort))
    case Withdraw(x) => q.(pc := ReadStatus(x))
    case AbortRead(x) => if x.Abort? && mine then q.(pc := Critical, inside := true) else q.(pc := Rem)
    case Critical => q.(pc := ExitWithdraw)
    case ExitWithdraw => q.(pc := ReadSeq)
    case ReadSeq => q.(pc := WriteSeq, s := st.counter)
    case WriteSeq => q.(pc := Release)
    case Release => q.(pc := ReadStatus(Exit), inside := false)
    case Down => q.(pc := Recover)
    case Recover => q.(pc := if mine then Withdraw(Recovery) else Rem)
  }

  function Go(st: State, p: nat, c: Choice): State
    requires p < |st.procs|
  {
    var freed := st.procs[p].pc.Release?;
    State(StatusAfter(st, p), CounterAfter(st, p), TokenAfter(st, p),
          if freed then st.procs[p].s + 1 else st.tag, if freed then st.epoch + 1 else st.epoch,
          st.procs[p := Moved(st, p, c)])
  }

  /** Process p crashes. Its locals are dead: every path from there sets them before it uses them. */
  function Crashed(st: State, p: nat): State
    requires p < |st.procs|
  {
    st.(procs := st.procs[p := st.procs[p].(pc := Down)])
  }

  ghost predicate Next(n: nat, st: State, st': State) {
    && |st.procs| == n
    && exists p: nat, c: Choice :: p < n && (st' == Go(st, p, c) || st' == Crashed(st, p))
  }

  // Invariant -----------------------------------------------------------------------------------------

  predicate Leaving(pc: Pc) {
    pc.Critical? || pc.ExitWithdraw? || pc.ReadSeq? || pc.WriteSeq? || pc.Release?
  }

  ghost predicate InvAt(st: State, q: nat)
    requires q < |st.procs|
  {
    var r := st.procs[q];
    && (r.inside ==> st.status == Taken(q))
    && (Leaving(r.pc) ==> r.inside)
    && (r.pc.WriteSeq? ==> r.s == st.counter)
    && (r.pc.Release? ==> st.counter == r.s + 1 && st.tag <= r.s)
    && (r.pc.FindMin? || r.pc.Cas? ==>
          r.snap.Free? && r.snap.s <= st.tag && r.seen <= st.epoch && (r.snap.s == st.tag <==> r.seen == st.epoch))
  }

  ghost predicate Inv(n: nat, st: State) {
    && |st.procs| == n && st.tag <= st.counter && (st.status.Free? ==> st.status.s == st.tag)
    && forall q :: 0 <= q < n ==> InvAt(st, q)
  }

  lemma OthersKeepInv(n: nat, st: State, p: nat, c: Choice, q: nat)
    requires Inv(n, st) && p < n && q < n && p != q
    ensures InvAt(Go(st, p, c), q)
  {
    hide Moved;
    assert InvAt(st, p) && InvAt(st, q);
  }

  lemma OwnInvLeaving(n: nat, st: State, p: nat, c: Choice)
    requires Inv(n, st) && p < n && Leaving(st.procs[p].pc)
    ensures InvAt(Go(st, p, c), p)
  {
    assert InvAt(st, p);
  }

  lemma OwnInv(n: nat, st: State, p: nat, c: Choice)
    requires Inv(n, st) && p < n
    ensures InvAt(Go(st, p, c), p)
  {
    if Leaving(st.procs[p].pc) {
      OwnInvLeaving(n, st, p, c);
    } else {
      assert InvAt(st, p);
    }
  }

  lemma GoKeepsInv(n: nat, st: State, p: nat, c: Choice)
    requires Inv(n, st) && p < n
    ensures Inv(n, Go(st, p, c))
  {
    assert InvAt(st, p);
    forall q | 0 <= q < n ensures InvAt(Go(st, p, c), q) {
      if q == p {
        OwnInv(n, st, p, c);
      } else {
        OthersKeepInv(n, st, p, c, q);
      }
    }
    hide Moved, InvAt;
  }

  lemma CrashKeepsInv(n: nat, st: State, p: nat)
    requires Inv(n, st) && p < n
    ensures Inv(n, Crashed(st, p))
  {
    forall q | 0 <= q < n ensures InvAt(Crashed(st, p), q) {
      assert InvAt(st, q);
    }
  }

  // Runs --------------------------------------------------------------------------------------------------

  ghost predicate IsRun(n: nat, run: seq<State>) {
    |run| > 0 && Init(n, run[0]) && forall i :: 0 <= i < |run| - 1 ==> Next(n, run[i], run[i + 1])
  }

  lemma {:induction false} RunInv(n: nat, run: seq<State>, i: nat)
    requires IsRun(n, run) && i < |run|
    ensures Inv(n, run[i])
    decreases i
  {
    if i > 0 {
      RunInv(n, run, i - 1);
      assert Next(n, run[i - 1], run[i - 1 + 1]);
      var p: nat, c: Choice :| p < n && (run[i] == Go(run[i - 1], p, c) || run[i] == Crashed(run[i - 1], p));
      GoKeepsInv(n, run[i - 1], p, c);
      CrashKeepsInv(n, run[i - 1], p);
    }
  }

  /** Mutual exclusion, whatever crashes and whatever the min-array answers. */
  lemma MutualExclusion(n: nat, run: seq<State>, i: nat, p: nat, q: nat)
    requires IsRun(n, run) && i < |run| && p < n && q < n
    ensures |run[i].procs| == n
    ensures Leaving(run[i].procs[p].pc) ==> run[i].status == Taken(p)
    ensures Leaving(run[i].procs[p].pc) && Leaving(run[i].procs[q].pc) ==> p == q
  {
    RunInv(n, run, i);
    assert InvAt(run[i], p) && InvAt(run[i], q);
  }

  lemma {:induction false} EpochMonotone(n: nat, run: seq<State>, i: nat, j: nat)
    requires IsRun(n, run) && i <= j < |run|
    ensures run[i].epoch <= run[j].epoch
    decreases j - i
  {
    if i < j {
      EpochMonotone(n, run, i, j - 1);
      assert Next(n, run[j - 1], run[j - 1 + 1]);
      var r: nat, c: Choice :| r < n && (run[j] == Go(run[j - 1], r, c) || run[j] == Crashed(run[j - 1], r));
    }
  }

  /** The word stays with its holder until the next release. */
  lemma {:induction false} HeldUntilRelease(n: nat, run: seq<State>, i: nat, j: nat, p: nat)
    requires IsRun(n, run) && i <= j < |run| && p < n && run[i].status == Taken(p) && run[i].epoch == run[j].epoch
    ensures run[j].status == Taken(p)
    decreases j - i
  {
    if i < j {
      EpochMonotone(n, run, i, j - 1);
      EpochMonotone(n, run, j - 1, j);
      HeldUntilRelease(n, run, i, j - 1, p);
      RunInv(n, run, j - 1);
      assert Next(n, run[j - 1], run[j - 1 + 1]);
      var r: nat, c: Choice :| r < n && (run[j] == Go(run[j - 1], r, c) || run[j] == Crashed(run[j - 1], r));
      HeldByStep(n, run[j - 1], r, c);
    }
  }

  lemma HeldByStep(n: nat, st: State, r: nat, c: Choice)
    requires Inv(n, st) && r < n && st.status.Taken?
    ensures Go(st, r, c).epoch == st.epoch ==> Go(st, r, c).status == st.status
  {
    assert InvAt(st, r);
    hide Moved;
  }

  /** Critical-section re-entry: nobody enters between a crash inside and the release that follows. */
  lemma ReEntry(n: nat, run: seq<State>, i: nat, j: nat, p: nat, q: nat)
    requires IsRun(n, run) && i <= j < |run| && p < n && q < n
    requires |run[i].procs| == n && run[i].procs[p].inside && run[i].epoch == run[j].epoch
    ensures |run[j].procs| == n
    ensures run[j].procs[q].inside ==> q == p
  {
    RunInv(n, run, i);
    RunInv(n, run, j);
    assert InvAt(run[i], p) && InvAt(run[j], q);
    HeldUntilRelease(n, run, i, j, p);
  }

  /** A promotion succeeds only in the free period in which it read the status word. */
  lemma PromotionInItsPeriod(n: nat, run: seq<State>, i: nat, p: nat)
    requires IsRun(n, run) && i < |run| && p < n
    ensures |run[i].procs| == n
    ensures var q := run[i].procs[p];
            q.pc.Cas? && run[i].status == q.snap ==> q.seen == run[i].epoch
  {
    RunInv(n, run, i);
    assert InvAt(run[i], p);
  }

  // What the named process does -----------------------------------------------------------------------------

  /** Steps a process still has to take until it has been through its critical section and frees the word. */
  function Steps(pc: Pc): nat {
    match pc
    case Release => 1
    case WriteSeq => 2
    case ReadSeq => 3
    case ExitWithdraw => 4
    case Critical => 5
    case Final => 6
    case Check => 7
    case Wait => 7
    case Try => 7
    case Rem => 8
    case Publish => 9
    case CasToken => 10
    case ReadToken => 11
    case AbortRead(x) => if x.Abort? then 6 else 9
    case Cas(x) => AfterSteps(x) + 1
    case FindMin(x) => AfterSteps(x) + 2
    case ReadStatus(x) => AfterSteps(x) + 1
    case Withdraw(x) => AfterSteps(x) + 2
    case Recover => 12
    case Down => 13
  }

  function AfterSteps(x: Ctx): nat {
    match x
    case Entry => 7
    case Abort => 6
    case Exit => 8
    case Recovery => 9
  }

  lemma InsideMoves(st: State, p: nat, c: Choice)
    requires p < |st.procs| && st.status == Taken(p) && Leaving(st.procs[p].pc)
    ensures var pc, pc' := st.procs[p].pc, Moved(st, p, c).pc;
            if pc.Release? then StatusAfter(st, p).Free?
            else StatusAfter(st, p) == Taken(p) && Leaving(pc') && Steps(pc') < Steps(pc)
  {
  }

  lemma OutsideMoves(st: State, p: nat, c: Choice)
    requires p < |st.procs| && st.status == Taken(p) && !Leaving(st.procs[p].pc)
    requires st.procs[p].pc.Cas? ==> st.procs[p].snap.Free?
    ensures var pc, pc' := st.procs[p].pc, Moved(st, p, c).pc;
            StatusAfter(st, p) == Taken(p) && Steps(pc') < Steps(pc) && (Leaving(pc') ==> pc' == Critical)
  {
  }

  /**
   A process that the word names is never stuck: each of its steps takes it nearer to the release, and
   the first one that takes it in takes it to the beginning of its critical section.
   */
  lemma NamedMoves(st: State, p: nat, c: Choice)
    requires p < |st.procs| && st.status == Taken(p) && (st.procs[p].pc.Cas? ==> st.procs[p].snap.Free?)
    ensures var pc, pc' := st.procs[p].pc, Moved(st, p, c).pc;
            && (if pc.Release? then StatusAfter(st, p).Free?
                else StatusAfter(st, p) == Taken(p) && Steps(pc') < Steps(pc))
            && (Leaving(pc') && !Leaving(pc) ==> pc' == Critical)
  {
    hide Moved, Steps, StatusAfter;
    if Leaving(st.procs[p].pc) {
      InsideMoves(st, p, c);
    } else {
      OutsideMoves(st, p, c);
    }
  }

  /** How often the record of p changes between states i and j. */
  ghost function Moves(run: seq<State>, p: nat, i: nat, j: nat): nat
    requires i <= j < |run| && forall k :: i <= k <= j ==> p < |run[k].procs|
    decreases j
  {
    if i == j then 0 else Moves(run, p, i, j - 1) + if run[j - 1].procs[p] != run[j].procs[p] then 1 else 0
  }

  /** The word names p from state i to state j, and p does not crash there. */
  ghost predicate NamedFrom(n: nat, run: seq<State>, p: nat, i: nat, j: nat)
    requires i <= j < |run|
  {
    && (forall k :: i <= k <= j ==> |run[k].procs| == n && run[k].status == Taken(p))
    && (forall k :: i < k <= j ==> p < n && !run[k].procs[p].pc.Down?)
  }

  /**
   A process that the word names goes through its critical section and frees the word within thirteen
   of its own steps, whatever the others do and the min-array answers: while the word names it and it
   does not crash, every step of its own brings it nearer.
   */
  lemma {:induction false} NamedGoesThrough(n: nat, run: seq<State>, p: nat, i: nat, j: nat)
    requires IsRun(n, run) && p < n && i <= j < |run| && NamedFrom(n, run, p, i, j)
    ensures Steps(run[j].procs[p].pc) + Moves(run, p, i, j) <= Steps(run[i].procs[p].pc) <= 13
    decreases j
  {
    hide Moved, Go, Inv;
    StepsBound(run[i].procs[p].pc);
    if i < j {
      NamedGoesThrough(n, run, p, i, j - 1);
      RunInv(n, run, j - 1);
      assert Next(n, run[j - 1], run[j - 1 + 1]);
      var q: nat, c: Choice :| q < n && (run[j] == Go(run[j - 1], q, c) || run[j] == Crashed(run[j - 1], q));
      NamedStep(n, run[j - 1], run[j], q, c, p);
    }
  }

  lemma StepsBound(pc: Pc)
    ensures 1 <= Steps(pc) <= 13
  {
  }

  lemma NamedStep(n: nat, st: State, st': State, q: nat, c: Choice, p: nat)
    requires Inv(n, st) && q < n && p < n && (st' == Go(st, q, c) || st' == Crashed(st, q))
    requires st.status == Taken(p) && st'.status == Taken(p) && |st'.procs| == n && !st'.procs[p].pc.Down?
    ensures st'.procs[p] == st.procs[p] || Steps(st'.procs[p].pc) < Steps(st.procs[p].pc)
  {
    hide Moved;
    if q == p {
      assert InvAt(st, p);
      NamedMoves(st, p, c);
    }
  }

  // Tokens ----------------------------------------------------------------------------------------------------

  /** A process on its way from drawing its token to its promotion. */
  predicate Drew(pc: Pc) {
    pc.Publish? || (pc.ReadStatus? && pc.ctx.Entry?) || (pc.FindMin? && pc.ctx.Entry?) || (pc.Cas? && pc.ctx.Entry?)
    || pc.Check? || pc.Wait?
  }

  ghost predicate TokenOk(st: State, q: nat)
    requires q < |st.procs|
  {
    && (st.procs[q].pc.Withdraw? ==> st.procs[q].pc.ctx.Flag())
    && (st.procs[q].pc.CasToken? ==> st.procs[q].token <= st.token)
    && (Drew(st.procs[q].pc) ==> st.procs[q].token < st.token)
  }

  ghost predicate Tokens(st: State) {
    forall q :: 0 <= q < |st.procs| ==> TokenOk(st, q)
  }

  /** The counter moves by one, only for the process that draws its value, and no token in use changes. */
  lemma TokenStep(st: State, p: nat, c: Choice)
    requires p < |st.procs| && Tokens(st)
    ensures var st' := Go(st, p, c);
            && st.token <= st'.token <= st.token + 1 && Tokens(st') && |st'.procs| == |st.procs|
            && (st'.token != st.token ==> st.procs[p].pc == CasToken && st'.procs[p].token == st.token)
            && (st.procs[p].pc == CasToken && st.procs[p].token == st.token ==> st'.token != st.token)
            && (!st.procs[p].pc.ReadToken? ==> st'.procs[p].token == st.procs[p].token)
  {
    assert TokenOk(st, p);
    var st' := Go(st, p, c);
    assert TokenOk(st', p);
    forall q | 0 <= q < |st.procs| && q != p ensures TokenOk(st', q) {
      assert TokenOk(st, q);
    }
  }

  lemma NextTokens(n: nat, st: State, st': State)
    requires Next(n, st, st') && Tokens(st)
    ensures Tokens(st') && st.token <= st'.token && |st'.procs| == n
  {
    hide Go, Crashed, Tokens;
    assert exists p: nat, c: Choice :: p < n && (st' == Go(st, p, c) || st' == Crashed(st, p));
    var p: nat, c: Choice :| p < n && (st' == Go(st, p, c) || st' == Crashed(st, p));
    if st' == Go(st, p, c) {
      TokenStep(st, p, c);
    } else {
      CrashKeepsTokens(st, p);
    }
  }

  lemma CrashKeepsTokens(st: State, p: nat)
    requires p < |st.procs| && Tokens(st)
    ensures var st' := Crashed(st, p); Tokens(st') && st'.token == st.token && |st'.procs| == |st.procs|
  {
    var st' := Crashed(st, p);
    forall q | 0 <= q < |st.procs| ensures TokenOk(st', q) {
      assert TokenOk(st, q);
    }
  }

  lemma {:induction false} RunTokens(n: nat, run: seq<State>, i: nat, j: nat)
    requires IsRun(n, run) && i <= j < |run|
    ensures Tokens(run[i]) && Tokens(run[j]) && run[i].token <= run[j].token
    ensures |run[i].procs| == |run[j].procs| == n
    decreases j
  {
    hide Next, Tokens;
    if j == 0 {
      InitTokens(n, run[0]);
    } else if i == j {
      RunTokens(n, run, j - 1, j - 1);
      assert Next(n, run[j - 1], run[j - 1 + 1]);
      NextTokens(n, run[j - 1], run[j]);
    } else {
      RunTokens(n, run, i, j - 1);
      assert Next(n, run[j - 1], run[j - 1 + 1]);
      NextTokens(n, run[j - 1], run[j]);
    }
  }

  lemma InitTokens(n: nat, st: State)
    requires Init(n, st)
    ensures Tokens(st) && |st.procs| == n
  {
  }

  /**
   First come, first served as far as tokens go: with crashes, a process that has drawn its token at state
   i has a smaller one than any process that reads the counter at i or later.
   */
  lemma EarlierDrawsLess(n: nat, run: seq<State>, i: nat, j: nat, p: nat, q: nat, c: Choice)
    requires IsRun(n, run) && i <= j < |run| && p < n && q < n
    ensures |run[i].procs| == |run[j].procs| == n
    ensures Drew(run[i].procs[p].pc) && run[j].procs[q].pc == ReadToken ==>
              run[i].procs[p].token < Go(run[j], q, c).procs[q].token
  {
    RunTokens(n, run, i, j);
    assert TokenOk(run[i], p);
  }
}
