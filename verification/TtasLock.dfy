/**
 The test-and-test-and-set lock whose word carries its owner and the owner's machine generation,
 with machine crashes, restarts, and transfer of the lock from dead machines.
 */
module TtasLock {

  // The 64-bit word --------------------------------------------------------------------------------

  /** `compose_owner_gen` under `compose_cs_status(true, ..)`: the held bit, the process, the generation. */
  function Compose(pid: bv16, gen: bv32): bv64 {
    0x4000_0000_0000_0000 | (((pid as bv64) << 32) | (gen as bv64))
  }

  /** `GET_OWNER_ID` of the low 62 bits. */
  function OwnerId(word: bv64): bv64 {
    ((word & 0x3fff_ffff_ffff_ffff) & 0xffff_0000_0000) >> 32
  }

  function OwnerGen(word: bv64): bv64 {
    (word & 0x3fff_ffff_ffff_ffff) & 0xffff_ffff
  }

  lemma ComposeReadsBack(pid: bv16, gen: bv32)
    ensures OwnerId(Compose(pid, gen)) == pid as bv64 && OwnerGen(Compose(pid, gen)) == gen as bv64
    ensures Compose(pid, gen) != 0
  {
  }

  lemma WidenInjective(p: bv16, q: bv16, g: bv32, h: bv32)
    ensures p as bv64 == q as bv64 ==> p == q
    ensures g as bv64 == h as bv64 ==> g == h
  {
  }

  /** Comparing words is comparing owner and generation, so below the word is that pair, or unlocked. */
  lemma ComposeInjective(p: bv16, g: bv32, q: bv16, h: bv32)
    ensures Compose(p, g) == Compose(q, h) <==> p == q && g == h
    ensures Compose(p, g) != 0
  {
    hide Compose, OwnerId, OwnerGen;
    ComposeReadsBack(p, g);
    ComposeReadsBack(q, h);
    WidenInjective(p, q, g, h);
  }

  // The step system ----------------------------------------------------------------------------------

  datatype Word = Unlocked | Held(pid: nat, gen: nat)

  datatype Pc =
    | Idle
    | Check                // lock: is the word already mine?
    | Spin | Enter         // wait until unlocked, then compare and swap
    | Critical
    | RecRead(dead: nat)   // recovery for machine `dead`: read the word
    | RecCas(snap: Word)   // recovery: compare and swap

  /** A machine; `unused` from its restart to its first lock step. */
  datatype Mach = Mach(gen: nat, up: bool, unused: bool)

  datatype State = State(word: Word, machs: seq<Mach>, procs: seq<Pc>)

  /** The machine of a process identifier, counted from zero. */
  function Home(cpus: nat, pid: nat): nat
    requires cpus >= 1
  {
    pid / cpus
  }

  ghost predicate Wf(cpus: nat, st: State) {
    cpus >= 1 && forall q :: 0 <= q < |st.procs| ==> 0 <= Home(cpus, q) < |st.machs|
  }

  function GenOf(cpus: nat, st: State, p: nat): nat
    requires Wf(cpus, st) && p < |st.procs|
  {
    assert 0 <= Home(cpus, p) < |st.machs|;
    st.machs[Home(cpus, p)].gen
  }

  function Mine(cpus: nat, st: State, p: nat): Word
    requires Wf(cpus, st) && p < |st.procs|
  {
    Held(p, GenOf(cpus, st, p))
  }

  function WordAfter(cpus: nat, st: State, p: nat): Word
    requires Wf(cpus, st) && p < |st.procs|
  {
    match st.procs[p]
    case Enter => if st.word == Unlocked then Mine(cpus, st, p) else st.word
    case Critical => Unlocked
    case RecCas(snap) => if st.word == snap then Mine(cpus, st, p) else st.word
    case Idle => st.word
    case Check => st.word
    case Spin => st.word
    case RecRead(_) => st.word
  }

  /** The three cases in which recovery tries to take the word over. */
  predicate MayTake(cpus: nat, word: Word, dead: nat, p: nat)
    requires cpus >= 1
  {
    word == Unlocked || word.pid == p || Home(cpus, word.pid) == dead
  }

  /** The program counter of p after its step; an idle process starts locking, or recovering for `start`. */
  function PcAfter(cpus: nat, st: State, p: nat, start: int): Pc
    requires Wf(cpus, st) && p < |st.procs|
  {
    match st.procs[p]
    case Idle => if start < 0 then Check else RecRead(start)
    case Check => if st.word == Mine(cpus, st, p) then Critical else Spin
    case Spin => if st.word == Unlocked then Enter else Spin
    case Enter => if st.word == Unlocked then Critical else Spin
    case Critical => Idle
    case RecRead(dead) => if MayTake(cpus, st.word, dead, p) then RecCas(st.word) else Idle
    case RecCas(snap) => if st.word == snap then Critical else Idle
  }

  function Go(cpus: nat, st: State, p: nat, start: int): State
    requires Wf(cpus, st) && p < |st.procs|
  {
    var h := Home(cpus, p);
    assert 0 <= h < |st.machs|;
    var stepped := st.procs[p].Check? || st.procs[p].RecRead?;
    State(WordAfter(cpus, st, p),
          if stepped then st.machs[h := st.machs[h].(unused := false)] else st.machs,
          st.procs[p := PcAfter(cpus, st, p, start)])
  }

  /** When recovery may read the word: the old machine is down, or this is the restarted machine's first lock step. */
  ghost predicate Guard(cpus: nat, st: State, p: nat)
    requires Wf(cpus, st) && p < |st.procs|
  {
    st.procs[p].RecRead? ==>
      var dead := st.procs[p].dead;
      dead < |st.machs| && (!st.machs[dead].up || (dead == Home(cpus, p) && st.machs[dead].unused))
  }

  ghost predicate Step(cpus: nat, st: State, st': State, p: nat)
    requires Wf(cpus, st)
  {
    && p < |st.procs| && st.machs[Home(cpus, p)].up && Guard(cpus, st, p)
    && exists start: int :: st' == Go(cpus, st, p, start)
  }

  /** The processes of machine m lose everything. */
  function Reset(cpus: nat, st: State, m: nat): (r: seq<Pc>)
    requires cpus >= 1
    ensures |r| == |st.procs|
    ensures forall q :: 0 <= q < |r| ==> r[q] == if Home(cpus, q) == m then Idle else st.procs[q]
  {
    seq(|st.procs|, q requires 0 <= q < |st.procs| => if Home(cpus, q) == m then Idle else st.procs[q])
  }

  ghost predicate Crash(cpus: nat, st: State, st': State, m: nat)
    requires Wf(cpus, st)
  {
    m < |st.machs| && st.machs[m].up
    && st' == State(st.word, st.machs[m := st.machs[m].(up := false)], Reset(cpus, st, m))
  }

  ghost predicate Restart(st: State, st': State, m: nat) {
    m < |st.machs| && !st.machs[m].up
    && st' == st.(machs := st.machs[m := Mach(st.machs[m].gen + 1, true, true)])
  }

  ghost predicate Next(cpus: nat, st: State, st': State) {
    Wf(cpus, st) && exists x: nat :: Step(cpus, st, st', x) || Crash(cpus, st, st', x) || Restart(st, st', x)
  }

  ghost predicate Init(cpus: nat, st: State) {
    && Wf(cpus, st) && st.word == Unlocked
    && (forall q :: 0 <= q < |st.procs| ==> st.procs[q] == Idle)
  }

  // Invariant -------------------------------------------------------------------------------------------

  /** The identity still runs: its machine is up in that generation. */
  ghost predicate Alive(cpus: nat, st: State, word: Word)
    requires Wf(cpus, st) && word.Held? && word.pid < |st.procs|
  {
    var m := st.machs[Home(cpus, word.pid)];
    m.up && m.gen == word.gen
  }

  ghost predicate WordOk(cpus: nat, st: State, word: Word)
    requires Wf(cpus, st)
  {
    word.Held? ==> word.pid < |st.procs| && word.gen <= GenOf(cpus, st, word.pid)
  }

  ghost predicate ProcOk(cpus: nat, st: State, q: nat)
    requires Wf(cpus, st) && q < |st.procs|
  {
    var m := st.machs[Home(cpus, q)];
    && (!m.up ==> st.procs[q] == Idle)
    && (st.procs[q].Critical? ==> st.word == Mine(cpus, st, q))
    && (st.procs[q].RecCas? && st.procs[q].snap.Held? ==>
          WordOk(cpus, st, st.procs[q].snap) && !Alive(cpus, st, st.procs[q].snap))
    && (m.unused ==> st.procs[q].Idle? || st.procs[q].Check? || st.procs[q].RecRead?)
  }

  ghost predicate Inv(cpus: nat, st: State) {
    && Wf(cpus, st) && WordOk(cpus, st, st.word)
    && (st.word.Held? && Alive(cpus, st, st.word) ==> st.procs[st.word.pid] == Critical)
    && forall q :: 0 <= q < |st.procs| ==> ProcOk(cpus, st, q)
  }

  lemma GoWf(cpus: nat, st: State, p: nat, start: int)
    requires Wf(cpus, st) && p < |st.procs|
    ensures Wf(cpus, Go(cpus, st, p, start))
  {
  }

  /** What recovery has read, under its guard, is unlocked or names a dead identity. */
  lemma ReadIsDead(cpus: nat, st: State, p: nat)
    requires Inv(cpus, st) && p < |st.procs| && Guard(cpus, st, p) && st.procs[p].RecRead?
    requires MayTake(cpus, st.word, st.procs[p].dead, p) && st.word.Held?
    ensures !Alive(cpus, st, st.word)
  {
    assert ProcOk(cpus, st, st.word.pid);
  }

  lemma GoKeepsOthers(cpus: nat, st: State, p: nat, start: int, q: nat)
    requires Inv(cpus, st) && p < |st.procs| && q < |st.procs| && q != p && Wf(cpus, Go(cpus, st, p, start))
    ensures ProcOk(cpus, Go(cpus, st, p, start), q)
  {
    hide PcAfter;
    assert ProcOk(cpus, st, p) && ProcOk(cpus, st, q);
  }

  lemma GoKeepsOwn(cpus: nat, st: State, p: nat, start: int)
    requires Inv(cpus, st) && p < |st.procs| && st.machs[Home(cpus, p)].up && Guard(cpus, st, p)
    requires Wf(cpus, Go(cpus, st, p, start))
    ensures ProcOk(cpus, Go(cpus, st, p, start), p)
  {
    assert ProcOk(cpus, st, p);
    if st.procs[p].RecRead? && st.word.Held? && MayTake(cpus, st.word, st.procs[p].dead, p) {
      ReadIsDead(cpus, st, p);
    }
  }

  lemma GoKeepsWord(cpus: nat, st: State, p: nat, start: int)
    requires Inv(cpus, st) && p < |st.procs| && Wf(cpus, Go(cpus, st, p, start))
    ensures var st' := Go(cpus, st, p, start);
            && WordOk(cpus, st', st'.word)
            && (st'.word.Held? && Alive(cpus, st', st'.word) ==> st'.procs[st'.word.pid] == Critical)
  {
    assert ProcOk(cpus, st, p);
  }

  lemma StepKeepsInv(cpus: nat, st: State, st': State, p: nat)
    requires Inv(cpus, st) && Step(cpus, st, st', p)
    ensures Inv(cpus, st')
  {
    var start: int :| st' == Go(cpus, st, p, start);
    GoWf(cpus, st, p, start);
    GoKeepsWord(cpus, st, p, start);
    forall q | 0 <= q < |st.procs| ensures ProcOk(cpus, st', q) {
      if q == p {
        GoKeepsOwn(cpus, st, p, start);
      } else {
        GoKeepsOthers(cpus, st, p, start, q);
      }
    }
  }

  lemma CrashKeepsInv(cpus: nat, st: State, st': State, m: nat)
    requires Inv(cpus, st) && Crash(cpus, st, st', m)
    ensures Inv(cpus, st')
  {
    forall q | 0 <= q < |st.procs| ensures ProcOk(cpus, st', q) {
      assert ProcOk(cpus, st, q);
    }
  }

  lemma RestartKeepsInv(cpus: nat, st: State, st': State, m: nat)
    requires Inv(cpus, st) && Restart(st, st', m)
    ensures Inv(cpus, st')
  {
    forall q | 0 <= q < |st.procs| ensures ProcOk(cpus, st', q) {
      assert ProcOk(cpus, st, q);
    }
  }

  // Runs ---------------------------------------------------------------------------------------------------

  ghost predicate IsRun(cpus: nat, run: seq<State>) {
    |run| > 0 && Init(cpus, run[0]) && forall i :: 0 <= i < |run| - 1 ==> Next(cpus, run[i], run[i + 1])
  }

  lemma {:induction false} RunInv(cpus: nat, run: seq<State>, i: nat)
    requires IsRun(cpus, run) && i < |run|
    ensures Inv(cpus, run[i])
    decreases i
  {
    if i > 0 {
      RunInv(cpus, run, i - 1);
      assert Next(cpus, run[i - 1], run[i - 1 + 1]);
      var x: nat :| Step(cpus, run[i - 1], run[i], x) || Crash(cpus, run[i - 1], run[i], x) || Restart(run[i - 1], run[i], x);
      if Step(cpus, run[i - 1], run[i], x) {
        StepKeepsInv(cpus, run[i - 1], run[i], x);
      } else if Crash(cpus, run[i - 1], run[i], x) {
        CrashKeepsInv(cpus, run[i - 1], run[i], x);
      } else {
        RestartKeepsInv(cpus, run[i - 1], run[i], x);
      }
    }
  }

  /** At most one process is in its critical section, and the word names it in its present generation. */
  lemma MutualExclusion(cpus: nat, run: seq<State>, i: nat, p: nat, q: nat)
    requires IsRun(cpus, run) && i < |run| && p < |run[i].procs| && q < |run[i].procs|
    requires run[i].procs[p].Critical?
    ensures Wf(cpus, run[i]) && run[i].word == Mine(cpus, run[i], p) && run[i].machs[Home(cpus, p)].up
    ensures run[i].procs[q].Critical? ==> q == p
  {
    RunInv(cpus, run, i);
    assert ProcOk(cpus, run[i], p) && ProcOk(cpus, run[i], q);
  }

  /** The word of a holder that died changes only by transfer to a recovering process. */
  lemma DeadHolderIsTransferred(cpus: nat, run: seq<State>, i: nat)
    requires IsRun(cpus, run) && i < |run| - 1 && run[i].word.Held? && run[i].word != run[i + 1].word
    ensures Wf(cpus, run[i]) && run[i].word.pid < |run[i].procs|
    ensures !Alive(cpus, run[i], run[i].word) ==>
              exists p: nat :: && p < |run[i].procs| && run[i].procs[p] == RecCas(run[i].word)
                               && run[i + 1].word == Mine(cpus, run[i], p) && run[i].machs[Home(cpus, p)].up
  {
    RunInv(cpus, run, i);
    assert Next(cpus, run[i], run[i + 1]);
    var p: nat :| Step(cpus, run[i], run[i + 1], p) || Crash(cpus, run[i], run[i + 1], p) || Restart(run[i], run[i + 1], p);
    assert Step(cpus, run[i], run[i + 1], p);
    assert ProcOk(cpus, run[i], p);
    assert run[i + 1].word == WordAfter(cpus, run[i], p);
  }

  // Recovery at any time -----------------------------------------------------------------------------------

  /** A step in which recovery may read the word whenever it likes. */
  ghost predicate LooseStep(cpus: nat, st: State, st': State, p: nat)
    requires Wf(cpus, st)
  {
    && p < |st.procs| && st.machs[Home(cpus, p)].up
    && exists start: int :: st' == Go(cpus, st, p, start)
  }

  ghost predicate LooseNext(cpus: nat, st: State, st': State) {
    Wf(cpus, st) && exists x: nat :: LooseStep(cpus, st, st', x) || Crash(cpus, st, st', x) || Restart(st, st', x)
  }

  ghost predicate IsLooseRun(cpus: nat, run: seq<State>) {
    |run| > 0 && Init(cpus, run[0]) && forall i :: 0 <= i < |run| - 1 ==> LooseNext(cpus, run[i], run[i + 1])
  }

  ghost predicate Exclusive(st: State) {
    forall p, q :: 0 <= p < |st.procs| && 0 <= q < |st.procs| && st.procs[p].Critical? && st.procs[q].Critical? ==> p == q
  }

  /** Process p takes the word over from a holder that still runs. */
  ghost predicate Robs(cpus: nat, st: State, st': State, p: nat) {
    && Wf(cpus, st) && p < |st.procs| && p < |st'.procs|
    && st.procs[p] == RecCas(st.word) && st'.procs[p].Critical?
    && st.word.Held? && st.word.pid < |st.procs| && Alive(cpus, st, st.word)
  }

  ghost predicate NoRobbery(cpus: nat, st: State, st': State) {
    forall p: nat :: !Robs(cpus, st, st', p)
  }

  ghost predicate LooseOk(cpus: nat, st: State, q: nat)
    requires Wf(cpus, st) && q < |st.procs|
  {
    && (!st.machs[Home(cpus, q)].up ==> st.procs[q] == Idle)
    && (st.procs[q].Critical? ==> st.word == Mine(cpus, st, q))
  }

  /** What holds without the guard, as long as no live holder is robbed. */
  ghost predicate LooseInv(cpus: nat, st: State) {
    && Wf(cpus, st) && WordOk(cpus, st, st.word)
    && (st.word.Held? && Alive(cpus, st, st.word) ==> st.procs[st.word.pid] == Critical)
    && forall q :: 0 <= q < |st.procs| ==> LooseOk(cpus, st, q)
  }

  lemma LooseIsExclusive(cpus: nat, st: State)
    requires LooseInv(cpus, st)
    ensures Exclusive(st)
  {
    forall p, q | 0 <= p < |st.procs| && 0 <= q < |st.procs| && st.procs[p].Critical? && st.procs[q].Critical?
      ensures p == q
    {
      assert LooseOk(cpus, st, p) && LooseOk(cpus, st, q);
    }
  }

  lemma LooseStepKeepsOthers(cpus: nat, st: State, p: nat, start: int, q: nat)
    requires LooseInv(cpus, st) && p < |st.procs| && q < |st.procs| && q != p && Wf(cpus, Go(cpus, st, p, start))
    requires NoRobbery(cpus, st, Go(cpus, st, p, start))
    ensures LooseOk(cpus, Go(cpus, st, p, start), q)
  {
    assert LooseOk(cpus, st, p) && LooseOk(cpus, st, q);
    assert !Robs(cpus, st, Go(cpus, st, p, start), p);
  }

  lemma LooseStepKeepsOwn(cpus: nat, st: State, p: nat, start: int)
    requires LooseInv(cpus, st) && p < |st.procs| && Wf(cpus, Go(cpus, st, p, start)) && st.machs[Home(cpus, p)].up
    ensures var st' := Go(cpus, st, p, start);
            && LooseOk(cpus, st', p) && WordOk(cpus, st', st'.word)
            && (st'.word.Held? && Alive(cpus, st', st'.word) ==> st'.procs[st'.word.pid] == Critical)
  {
    assert LooseOk(cpus, st, p);
  }

  lemma LooseStepKeepsInv(cpus: nat, st: State, st': State, p: nat)
    requires LooseInv(cpus, st) && LooseStep(cpus, st, st', p) && NoRobbery(cpus, st, st')
    ensures LooseInv(cpus, st')
  {
    var start: int :| st' == Go(cpus, st, p, start);
    GoWf(cpus, st, p, start);
    LooseStepKeepsOwn(cpus, st, p, start);
    forall q | 0 <= q < |st'.procs| && q != p ensures LooseOk(cpus, st', q) {
      LooseStepKeepsOthers(cpus, st, p, start, q);
    }
  }

  lemma LooseCrashKeepsInv(cpus: nat, st: State, st': State, m: nat)
    requires LooseInv(cpus, st) && Crash(cpus, st, st', m)
    ensures LooseInv(cpus, st')
  {
    forall q | 0 <= q < |st'.procs| ensures LooseOk(cpus, st', q) {
      assert LooseOk(cpus, st, q);
    }
  }

  lemma LooseRestartKeepsInv(cpus: nat, st: State, st': State, m: nat)
    requires LooseInv(cpus, st) && Restart(st, st', m)
    ensures LooseInv(cpus, st')
  {
    forall q | 0 <= q < |st'.procs| ensures LooseOk(cpus, st', q) {
      assert LooseOk(cpus, st, q);
    }
  }

  lemma {:induction false} LooseRunInv(cpus: nat, run: seq<State>, i: nat)
    requires IsLooseRun(cpus, run) && i < |run|
    requires forall j :: 0 <= j < i ==> NoRobbery(cpus, run[j], run[j + 1])
    ensures LooseInv(cpus, run[i])
    decreases i
  {
    if i > 0 {
      LooseRunInv(cpus, run, i - 1);
      var st, st' := run[i - 1], run[i - 1 + 1];
      assert LooseNext(cpus, st, st') && NoRobbery(cpus, st, st');
      var x: nat :| LooseStep(cpus, st, st', x) || Crash(cpus, st, st', x) || Restart(st, st', x);
      if LooseStep(cpus, st, st', x) {
        LooseStepKeepsInv(cpus, st, st', x);
      } else if Crash(cpus, st, st', x) {
        LooseCrashKeepsInv(cpus, st, st', x);
      } else {
        LooseRestartKeepsInv(cpus, st, st', x);
      }
    }
  }

  /** The robbed holder is still in its critical section. */
  lemma RobberyIsSeen(cpus: nat, st: State, st': State, p: nat)
    requires LooseInv(cpus, st) && LooseNext(cpus, st, st') && Robs(cpus, st, st', p)
    ensures !Exclusive(st')
  {
    var x: nat :| LooseStep(cpus, st, st', x) || Crash(cpus, st, st', x) || Restart(st, st', x);
    assert st.procs[st.word.pid] == Critical && st.word.pid != p;
    assert LooseStep(cpus, st, st', x) && x == p;
    assert st'.procs[st.word.pid].Critical?;
  }

  /**
   Without the guard, over whole runs: there is never more than one process in the critical section
   if and only if no take-over finds the word of a holder that still runs.
   */
  lemma TakeOverExact(cpus: nat, run: seq<State>)
    requires IsLooseRun(cpus, run)
    ensures (forall i :: 0 <= i < |run| ==> Exclusive(run[i]))
       <==> (forall i :: 0 <= i < |run| - 1 ==> NoRobbery(cpus, run[i], run[i + 1]))
  {
    if forall i :: 0 <= i < |run| - 1 ==> NoRobbery(cpus, run[i], run[i + 1]) {
      forall i | 0 <= i < |run| ensures Exclusive(run[i]) {
        LooseRunInv(cpus, run, i);
        LooseIsExclusive(cpus, run[i]);
      }
    } else {
      var i :| 0 <= i < |run| - 1 && !NoRobbery(cpus, run[i], run[i + 1]);
      FirstRobbery(cpus, run, i);
    }
  }

  lemma {:induction false} FirstRobbery(cpus: nat, run: seq<State>, i: nat)
    requires IsLooseRun(cpus, run) && i < |run| - 1 && !NoRobbery(cpus, run[i], run[i + 1])
    ensures exists j :: 0 <= j < |run| && !Exclusive(run[j])
    decreases i
  {
    if j :| 0 <= j < i && !NoRobbery(cpus, run[j], run[j + 1]) {
      FirstRobbery(cpus, run, j);
    } else {
      LooseRunInv(cpus, run, i);
      var p: nat :| Robs(cpus, run[i], run[i + 1], p);
      assert LooseNext(cpus, run[i], run[i + 1]);
      RobberyIsSeen(cpus, run[i], run[i + 1], p);
    }
  }

  // What locking and recovery answer ------------------------------------------------------------------------

  /** State st' is st after k steps of p alone. */
  function Alone(cpus: nat, st: State, p: nat, start: int, k: nat): (r: State)
    requires Wf(cpus, st) && p < |st.procs|
    ensures Wf(cpus, r) && |r.procs| == |st.procs|
    decreases k
  {
    if k == 0 then st
    else
      GoWf(cpus, st, p, start);
      Alone(cpus, Go(cpus, st, p, start), p, start, k - 1)
  }

  /** A process of the machine that recovery is called for holds the lock. */
  predicate HeldBy(cpus: nat, word: Word, dead: nat)
    requires cpus >= 1
  {
    word.Held? && word.pid / cpus == dead
  }

  /**
   When the lock is transferred: a recovery that meets no other write ends inside, with the word its
   own in its present generation, if and only if it found the word unlocked, held by its own process
   identifier in any generation, or held by a process of the dead machine. Otherwise it ends outside
   and leaves the word as it is.
   */
  lemma RecoveryAlone(cpus: nat, st: State, p: nat, dead: nat)
    requires Wf(cpus, st) && p < |st.procs| && st.procs[p].Idle?
    ensures var st' := Alone(cpus, st, p, dead, 3);
            if st.word == Unlocked || (st.word.Held? && st.word.pid == p) || HeldBy(cpus, st.word, dead) then
              st'.procs[p] == Critical && st'.word == Mine(cpus, st, p)
            else
              st'.procs[p] != Critical && st'.word == st.word && Alone(cpus, st, p, dead, 2).procs[p] == Idle
  {
    var st1 := Go(cpus, st, p, dead);
    GoWf(cpus, st, p, dead);
    var st2 := Go(cpus, st1, p, dead);
    GoWf(cpus, st1, p, dead);
    var st3 := Go(cpus, st2, p, dead);
    GoWf(cpus, st2, p, dead);
    assert Alone(cpus, st, p, dead, 2) == Alone(cpus, st1, p, dead, 1) == Alone(cpus, st2, p, dead, 0) == st2;
    assert Alone(cpus, st, p, dead, 3) == Alone(cpus, st1, p, dead, 2) == Alone(cpus, st2, p, dead, 1)
        == Alone(cpus, st3, p, dead, 0) == st3;
  }

  /**
   The same over any run, with any steps of others, crashes and restarts in between: recovery reads the
   word at i and, if it goes on, swaps it at j. It is inside afterwards if and only if the word it read
   is one of the three and is there again at j; otherwise its steps leave the word as they find it.
   */
  lemma RecoveryExact(cpus: nat, run: seq<State>, i: nat, j: nat, p: nat)
    requires IsLooseRun(cpus, run) && i < j < |run| - 1
    requires Wf(cpus, run[i]) && Wf(cpus, run[j]) && p < |run[i].procs| && p < |run[j].procs|
    requires run[i].procs[p].RecRead? && LooseStep(cpus, run[i], run[i + 1], p)
    requires p < |run[i + 1].procs| && run[j].procs[p] == run[i + 1].procs[p] && LooseStep(cpus, run[j], run[j + 1], p)
    ensures var read, dead := run[i].word, run[i].procs[p].dead;
            var taken := read == Unlocked || (read.Held? && read.pid == p) || HeldBy(cpus, read, dead);
            && run[i + 1].word == read && |run[j + 1].procs| == |run[j].procs|
            && (!taken ==> run[i + 1].procs[p] == Idle)
            && (taken ==> run[i + 1].procs[p] == RecCas(read))
            && (taken && run[j].word == read ==>
                  run[j + 1].procs[p] == Critical && run[j + 1].word == Mine(cpus, run[j], p))
            && (!(taken && run[j].word == read) ==> run[j + 1].procs[p] != Critical && run[j + 1].word == run[j].word)
  {
    var a: int :| run[i + 1] == Go(cpus, run[i], p, a);
    var b: int :| run[j + 1] == Go(cpus, run[j], p, b);
  }

  /**
   When an undisturbed lock attempt succeeds: if and only if it finds the word unlocked, or its own. It
   then holds the lock in its present generation; otherwise it spins and leaves the word as it is.
   */
  lemma LockAlone(cpus: nat, st: State, p: nat)
    requires Wf(cpus, st) && p < |st.procs| && st.procs[p].Idle?
    ensures Alone(cpus, st, p, -1, 2).procs[p] == Critical <==> st.word == Mine(cpus, st, p)
    ensures st.word == Unlocked ==> Alone(cpus, st, p, -1, 4).procs[p] == Critical
    ensures st.word == Unlocked ==> Alone(cpus, st, p, -1, 4).word == Mine(cpus, st, p)
    ensures st.word != Unlocked && st.word != Mine(cpus, st, p) ==>
              Alone(cpus, st, p, -1, 4).procs[p] == Spin && Alone(cpus, st, p, -1, 4).word == st.word
  {
    var st1 := Go(cpus, st, p, -1);
    GoWf(cpus, st, p, -1);
    var st2 := Go(cpus, st1, p, -1);
    GoWf(cpus, st1, p, -1);
    var st3 := Go(cpus, st2, p, -1);
    GoWf(cpus, st2, p, -1);
    var st4 := Go(cpus, st3, p, -1);
    GoWf(cpus, st3, p, -1);
    assert Alone(cpus, st, p, -1, 2) == Alone(cpus, st1, p, -1, 1) == Alone(cpus, st2, p, -1, 0) == st2;
    assert Alone(cpus, st, p, -1, 4) == Alone(cpus, st1, p, -1, 3) == Alone(cpus, st2, p, -1, 2)
        == Alone(cpus, st3, p, -1, 1) == Alone(cpus, st4, p, -1, 0) == st4;
  }

  /** Locking a free lock and unlocking it again leaves the word and every process as they were. */
  lemma LockThenUnlock(cpus: nat, st: State, p: nat)
    requires Wf(cpus, st) && p < |st.procs| && st.procs[p].Idle? && st.word == Unlocked
    ensures var st' := Alone(cpus, st, p, -1, 5); st'.word == st.word && st'.procs == st.procs
  {
    hide MayTake;
    var st1 := Go(cpus, st, p, -1);
    GoWf(cpus, st, p, -1);
    var st2 := Go(cpus, st1, p, -1);
    GoWf(cpus, st1, p, -1);
    var st3 := Go(cpus, st2, p, -1);
    GoWf(cpus, st2, p, -1);
    var st4 := Go(cpus, st3, p, -1);
    GoWf(cpus, st3, p, -1);
    var st5 := Go(cpus, st4, p, -1);
    GoWf(cpus, st4, p, -1);
    assert Alone(cpus, st, p, -1, 5) == Alone(cpus, st1, p, -1, 4) == Alone(cpus, st2, p, -1, 3)
        == Alone(cpus, st3, p, -1, 2) == Alone(cpus, st4, p, -1, 1) == Alone(cpus, st5, p, -1, 0) == st5;
  }

  /** Two machines of one processor each, both up. */
  function TwoMachines(word: Word, a: Pc, b: Pc): State {
    State(word, [Mach(0, true, false), Mach(0, true, false)], [a, b])
  }

  lemma TwoMachinesWf(st: State)
    requires |st.machs| == 2 && |st.procs| == 2
    ensures Wf(1, st) && Home(1, 0) == 0 && Home(1, 1) == 1
  {
  }

  /** The run in which machine 1 recovers for machine 0 while that is up and its process holds the lock. */
  function RobberyRun(): seq<State> {
    [TwoMachines(Unlocked, Idle, Idle), TwoMachines(Unlocked, Check, Idle), TwoMachines(Unlocked, Spin, Idle),
     TwoMachines(Unlocked, Enter, Idle), TwoMachines(Held(0, 0), Critical, Idle),
     TwoMachines(Held(0, 0), Critical, RecRead(0)), TwoMachines(Held(0, 0), Critical, RecCas(Held(0, 0))),
     TwoMachines(Held(1, 0), Critical, Critical)]
  }

  lemma RobberyStep(i: nat)
    requires i < 7
    ensures LooseNext(1, RobberyRun()[i], RobberyRun()[i + 1])
  {
    var st, p := RobberyRun()[i], if i < 4 then 0 else 1;
    TwoMachinesWf(st);
    var st' := Go(1, st, p, if i < 4 then -1 else 0);
    assert st'.machs == st.machs && st' == RobberyRun()[i + 1];
    assert LooseStep(1, st, RobberyRun()[i + 1], p);
  }

  /** Without the guard two processes can be in the critical section. */
  lemma TwoHolders()
    ensures IsLooseRun(1, RobberyRun()) && !Exclusive(RobberyRun()[7])
  {
    forall i | 0 <= i < 7 ensures LooseNext(1, RobberyRun()[i], RobberyRun()[i + 1]) {
      RobberyStep(i);
    }
    TwoMachinesWf(RobberyRun()[0]);
    assert RobberyRun()[7].procs[0].Critical? && RobberyRun()[7].procs[1].Critical?;
  }
}
