/** The driver's log and allocation routines over a pool in shared memory. */
module PoolDriver {
  import opened BuddyPositions
  import opened BuddyStatus
  import opened BuddySearch
  import opened BuddyArena
  import opened BuddyVirtual
  import opened BuddyAllocator
  import opened BuddyTree
  import opened RedoLog
  import opened MetaStores
  import CrashRecovery
  import opened ObjectPool
  import opened ListRemoval
  import opened DriverTrace
  import opened ObjectFree
  import opened Sequences

  const TWO_TO_64 := 0x1_0000_0000_0000_0000

  /**
   What a call of `find_allocation` by a machine does to the directory and answers. The descriptor holds
   an offset `given` before the call, and keeps it when there is nothing to find or allocate.
   */
  ghost predicate FindSpec(machine: nat, dir: map<seq<nat>, Region>, name: seq<nat>, length: nat, given: nat,
                           existing: bool, offset: nat, length': nat, failed: bool,
                           dir': map<seq<nat>, Region>)
  {
    && existing == (name in dir)
    && if name in dir then offset == dir[name].offset && length' == dir[name].length && dir' == dir && !failed
       else
         && length' == length && (length == 0 ==> offset == given && !failed)
         && dir' == if length == 0 || failed then dir else dir[name := Region(offset, length, machine)]
  }

  /** Some free block fits the request. */
  ghost predicate SomeFits(l: Layout, blocks: seq<Pos>, length: nat) {
    && l.Wf() && LiveSet(l.Order(), LiveBlocks(l, blocks))
    && exists p :: Fitting(l.arena, LiveBlocks(l, blocks), length, p)
  }

  /** The slot is the first free one and the block the one that fits best, and the offset is its own. */
  ghost predicate IsNext(l: Layout, chain: seq<nat>, blocks: seq<Pos>, length: nat, slot: nat, p: Pos, offset: nat) {
    && l.Wf() && LiveSet(l.Order(), LiveBlocks(l, blocks)) && BestFit(l.arena, LiveBlocks(l, blocks), length, p)
    && slot !in chain && (forall s :: 0 <= s < slot ==> s in chain) && offset == l.main + Address(l.arena, p)
  }

  /** What an allocation takes is the next slot and block, and what it stores is the allocation of these. */
  ghost predicate TakesNext(l: Layout, csum: CrashRecovery.Checksum, m: Meta, log: seq<Entry>, chain: seq<nat>,
                            blocks: seq<Pos>, trace: seq<Touch>, name: seq<nat>, length: nat,
                            chain': seq<nat>, blocks': seq<Pos>, offset: nat, trace': seq<Touch>)
  {
    && |chain'| == |chain| + 1 && chain' == chain + [chain'[|chain|]]
    && |blocks'| == |blocks| + 1 && blocks' == blocks + [blocks'[|blocks|]]
    && IsNext(l, chain, blocks, length, chain'[|chain|], blocks'[|blocks|], offset)
    && Allocates(l, csum, m, log, blocks'[|blocks|], chain'[|chain|], name, length, trace, trace')
  }

  // Writing and running the log ---------------------------------------------------------------------

  lemma {:induction false} PutAllAppend(log: Log, ss: seq<LogStore>, s: LogStore)
    requires AllInLog(ss) && InLog(s)
    ensures AllInLog(ss + [s]) && PutAll(log, ss + [s]) == Put(PutAll(log, ss), s)
    decreases |ss|
  {
    if ss == [] {
      assert [s][1..] == [];
    } else {
      assert (ss + [s])[1..] == ss[1..] + [s];
      PutAllAppend(Put(log, ss[0]), ss[1..], s);
    }
  }

  function FieldPuts(pos: nat, fs: seq<(nat, nat)>): (r: seq<LogStore>)
    ensures |r| == |fs| && forall j :: 0 <= j < |r| ==> r[j] == SetField(pos, fs[j].0, fs[j].1)
  {
    seq(|fs|, j requires 0 <= j < |fs| => SetField(pos, fs[j].0, fs[j].1))
  }

  lemma {:induction false} FieldPutsBuild(log: Log, pos: nat, fs: seq<(nat, nat)>)
    requires pos < REDOLOG_ENTRIES && forall p :: p in fs ==> p.0 < FIELDS
    ensures AllInLog(FieldPuts(pos, fs))
    ensures PutAll(log, FieldPuts(pos, fs)) == log[pos := Raw(log[pos].tp, PutFields(log[pos].f, fs))]
    decreases |fs|
  {
    var ss := FieldPuts(pos, fs);
    if fs != [] {
      assert ss[1..] == FieldPuts(pos, fs[1..]);
      FieldPutsBuild(Put(log, ss[0]), pos, fs[1..]);
    }
  }

  lemma {:induction false} PutAllJoin(log: Log, a: seq<LogStore>, b: seq<LogStore>)
    requires AllInLog(a) && AllInLog(b)
    ensures AllInLog(a + b) && PutAll(log, a + b) == PutAll(PutAll(log, a), b)
    decreases |a|
  {
    if a == [] {
      assert a + b == b;
    } else {
      assert (a + b)[1..] == a[1..] + b;
      PutAllJoin(Put(log, a[0]), a[1..], b);
    }
  }

  /** The log once all stores of a builder are made. */
  function Built(log: Log, pos: nat, op: Op): Log
    requires pos < REDOLOG_ENTRIES && WfOp(op)
  {
    var log' := log[pos := Raw(TypeOf(op), BuiltFields(log[pos], op))];
    if pos + 1 < REDOLOG_ENTRIES then log'[pos + 1 := EMPTY] else log'
  }

  lemma EntryParts(log: Log, pos: nat, op: Op)
    requires pos < REDOLOG_ENTRIES && WfOp(op)
    ensures AllInLog([SetType(pos, TypeOf(op))]) && AllInLog(FieldPuts(pos, FieldStores(op)))
    ensures PutAll(log, [SetType(pos, TypeOf(op))] + FieldPuts(pos, FieldStores(op)))
         == log[pos := Raw(TypeOf(op), BuiltFields(log[pos], op))]
  {
    hide FieldStores, TypeOf;
    var first, fields := [SetType(pos, TypeOf(op))], FieldPuts(pos, FieldStores(op));
    FieldStoresDistinct(op);
    var log1 := log[pos := Raw(TypeOf(op), log[pos].f)];
    assert first[1..] == [] && PutAll(log, first) == log1;
    FieldPutsBuild(log1, pos, FieldStores(op));
    PutAllJoin(log, first, fields);
  }

  /** A builder's stores write the entry for `op`, erase the next one and touch nothing else. */
  lemma EntryIsBuilt(log: Log, pos: nat, op: Op)
    requires pos < REDOLOG_ENTRIES && WfOp(op)
    ensures AllInLog(EntryStores(pos, op))
    ensures PutAll(log, EntryStores(pos, op)) == Built(log, pos, op)
    ensures Decode(Built(log, pos, op)[pos]) == op && Built(log, pos, op)[pos].tp == TypeOf(op)
  {
    var first, fields := [SetType(pos, TypeOf(op))], FieldPuts(pos, FieldStores(op));
    var erase := if pos + 1 < REDOLOG_ENTRIES then [Erase(pos + 1)] else [];
    assert EntryStores(pos, op) == first + fields + erase;
    EntryParts(log, pos, op);
    EraseBuilds(log[pos := Raw(TypeOf(op), BuiltFields(log[pos], op))], pos);
    PutAllJoin(log, first + fields, erase);
    BuiltEntryDecodes(log[pos], op);
    hide Decode, FieldStores, TypeOf, EntryStores;
  }

  lemma EraseBuilds(log: Log, pos: nat)
    requires pos < REDOLOG_ENTRIES
    ensures var erase := if pos + 1 < REDOLOG_ENTRIES then [Erase(pos + 1)] else [];
            && AllInLog(erase)
            && PutAll(log, erase) == if pos + 1 < REDOLOG_ENTRIES then log[pos + 1 := EMPTY] else log
  {
    if pos + 1 < REDOLOG_ENTRIES {
      assert [Erase(pos + 1)][1..] == [];
    }
  }

  lemma EmptyPool(l: Layout, m: Meta)
    requires l.Wf() && Shape(l.Order(), m.tree) && m.slots == {}
    requires LiveSet(l.Order(), Elements(VirtualSlots(l.arena)))
    requires Canonical(l.Order(), Elements(VirtualSlots(l.arena)), m.tree)
    requires Rd(m.words, l.rec + OFF_AVAILABLE) == NUM_OBJ_SLOTS && Rd(m.words, l.head) == 0
    ensures PoolInv(l, m, [], [])
  {
    hide LiveSet, Canonical, Header;
    assert LiveBlocks(l, []) == Elements(VirtualSlots(l.arena));
    assert SlotSet(l.rec, []) == {};
  }

  /** `init_obj_allocation_records`. */
  method InitRecords(l: Layout, words: map<nat, nat>) returns (w: map<nat, nat>)
    requires l.Wf()
    ensures Rd(w, l.rec + OFF_AVAILABLE) == NUM_OBJ_SLOTS
    ensures Rd(w, l.rec + OFF_NEXT) == 0 && Rd(w, l.rec + OFF_PREV) == 0
    ensures forall i :: 0 <= i < NUM_OBJ_SLOTS ==> Rd(w, l.Hdr(i) + OFF_SLOT_ID) == i
    ensures forall a: nat :: !(l.rec <= a < l.Hdr(NUM_OBJ_SLOTS)) ==> Rd(w, a) == Rd(words, a)
  {
    w := words[l.rec + OFF_NEXT := 0][l.rec + OFF_PREV := 0][l.rec + OFF_AVAILABLE := NUM_OBJ_SLOTS];
    var i := 0;
    while i < NUM_OBJ_SLOTS
      invariant 0 <= i <= NUM_OBJ_SLOTS
      invariant Rd(w, l.rec + OFF_AVAILABLE) == NUM_OBJ_SLOTS
      invariant Rd(w, l.rec + OFF_NEXT) == 0 && Rd(w, l.rec + OFF_PREV) == 0
      invariant forall a: nat :: !(l.rec <= a < l.Hdr(NUM_OBJ_SLOTS)) ==> Rd(w, a) == Rd(words, a)
      invariant forall j :: 0 <= j < i ==> Rd(w, l.Hdr(j) + OFF_SLOT_ID) == j
    {
      w := w[l.Hdr(i) + OFF_SLOT_ID := i];
      i := i + 1;
    }
  }

  class Pool {
    const l: Layout
    const csum: CrashRecovery.Checksum
    const log: array<Entry>
    var meta: Meta
    ghost var chain: seq<nat>
    ghost var blocks: seq<Pos>
    ghost var trace: seq<Touch>   // every store to the log and to the metadata, in its order

    ghost predicate Valid()
      reads this
    {
      log.Length == REDOLOG_ENTRIES && PoolInv(l, meta, chain, blocks)
    }

    /** `vcxl_init_meta_impl`: an empty pool over an arena with nothing but the virtual slots taken. */
    constructor (layout: Layout, sum: CrashRecovery.Checksum)
      requires layout.Wf()
      ensures Valid() && l == layout && csum == sum && chain == [] && fresh(log)
      ensures Dir(l, meta.words, chain) == map[]
      ensures trace == [] && forall i :: 0 <= i < REDOLOG_ENTRIES ==> log[i] == EMPTY
    {
      trace := [];
      l, csum := layout, sum;
      log := new Entry[REDOLOG_ENTRIES](_ => EMPTY);
      EmptyIsCanonical(layout.Order());
      VirtualRoundTrip(layout.arena, Zeros(layout.Order()));
      hide LiveSet, Canonical, PoolInv;
      var words := InitRecords(layout, map[]);
      meta := Meta(MarkAll(layout.Order(), Zeros(layout.Order()), VirtualSlots(layout.arena)), words, {});
      chain, blocks := [], [];
      new;
      EmptyPool(l, meta);
    }

    /** One store to the log. */
    method PutStore(s: LogStore)
      requires log.Length == REDOLOG_ENTRIES && InLog(s)
      modifies log, this`trace
      ensures log[..] == Put(old(log[..]), s) && trace == old(trace) + [ToLog(s)]
    {
      match s {
        case SetType(i, tp) => log[i] := log[i].(tp := tp);
        case SetField(i, k, v) => log[i] := Raw(log[i].tp, log[i].f[k := v]);
        case Erase(i) => log[i] := EMPTY;
      }
      trace := trace + [ToLog(s)];
    }

    /** Stores to the log one after the other. */
    method PutStores(ss: seq<LogStore>)
      requires log.Length == REDOLOG_ENTRIES && AllInLog(ss)
      modifies log, this`trace
      ensures log[..] == PutAll(old(log[..]), ss) && trace == old(trace) + Logged(ss)
    {
      assert ss[..0] == [] && PutAll(log[..], []) == log[..];
      hide PutAll, Put;
      var j := 0;
      while j < |ss|
        invariant 0 <= j <= |ss| && AllInLog(ss[..j])
        invariant log[..] == PutAll(old(log[..]), ss[..j]) && trace == old(trace) + Logged(ss[..j])
      {
        assert ss[..j + 1] == ss[..j] + [ss[j]];
        PutAllAppend(old(log[..]), ss[..j], ss[j]);
        PutStore(ss[j]);
        j := j + 1;
      }
      assert ss[..j] == ss;
    }

    /** The `set_*_log_entry` functions: type, payload, then the next entry is erased. */
    method SetEntry(pos: nat, op: Op) returns (next: nat)
      requires log.Length == REDOLOG_ENTRIES && pos < REDOLOG_ENTRIES && WfOp(op)
      modifies log, this`trace
      ensures next == pos + 1
      ensures log[..] == Built(old(log[..]), pos, op) && Holds(log[pos], op)
      ensures forall i :: 0 <= i < REDOLOG_ENTRIES && i != pos && i != pos + 1 ==> log[i] == old(log[i])
      ensures trace == old(trace) + Logged(EntryStores(pos, op))
    {
      EntryIsBuilt(log[..], pos, op);
      hide PutAll, Put, EntryStores, Decode, BuiltFields;
      PutStores(EntryStores(pos, op));
      assert forall i :: 0 <= i < REDOLOG_ENTRIES ==> log[i] == log[..][i] && old(log[i]) == old(log[..])[i];
      next := pos + 1;
    }

    /** The next entry of an update: what was made and what is left to make stay the same together. */
    method LogNext(pos: nat, op: Op, ghost ops: seq<Op>) returns (next: nat)
      requires log.Length == REDOLOG_ENTRIES && CrashRecovery.Loggable(ops) && pos < |ops| && ops[pos] == op
      modifies log, this`trace
      ensures next == pos + 1 && Holds(log[pos], op)
      ensures forall i :: 0 <= i < pos ==> log[i] == old(log[i])
      ensures Planned(csum, ops, log[..], next, trace) == Planned(csum, ops, old(log[..]), pos, old(trace))
    {
      hide Built, Holds, Planned, EntryStores;
      EntryIsBuilt(log[..], pos, op);
      PlanKept(csum, ops, log[..], pos, trace);
      next := SetEntry(pos, op);
    }

    /** `set_commit_log_entry`. */
    method SetCommit(pos: nat) returns (next: nat)
      requires log.Length == REDOLOG_ENTRIES && pos + 1 < REDOLOG_ENTRIES
      modifies log, this`trace
      ensures next == pos + 1
      ensures log[pos].tp == COMMIT && log[pos].f[F_CHECKSUM] == csum(log[..pos]) && log[pos + 1] == EMPTY
      ensures forall i :: 0 <= i < REDOLOG_ENTRIES && i != pos && i != pos + 1 ==> log[i] == old(log[i])
      ensures trace == old(trace) + Logged(CommitStores(csum, old(log[..]), pos))
    {
      ghost var before := log[..pos];
      PutStore(SetType(pos, COMMIT));
      assert log[..][..pos] == log[..pos] == before;
      var sum := csum(log[..pos]);
      PutStore(SetField(pos, F_CHECKSUM, sum));
      next := pos + 1;
      PutStore(Erase(next));
      assert log[..][..pos] == log[..pos] == before;
      assert old(log[..])[..pos] == before;
      assert forall i :: 0 <= i < REDOLOG_ENTRIES ==> log[i] == log[..][i] && old(log[i]) == old(log[..])[i];
    }

    /** `execute_log`. It halts at a null pointer, and then does no more. */
    method ExecuteLog(length: nat) returns (halted: bool)
      requires l.Wf() && Shape(l.Order(), meta.tree) && log.Length == REDOLOG_ENTRIES && length <= REDOLOG_ENTRIES
      requires AllPlaced(l.Order(), AllStores(CrashRecovery.Ops(log[..length])))
      modifies this`meta, this`trace
      ensures Outcome(meta, halted) == RunStores(l.Order(), old(meta), AllStores(CrashRecovery.Ops(log[..length])))
      ensures trace == old(trace) + Stored(Kept(AllStores(CrashRecovery.Ops(log[..length]))))
    {
      hide Decode, StoresOf, AllStores, RunStores, AllPlaced, Shape, LeadsTo, Kept, Stored;
      var o := l.Order();
      ghost var ops := CrashRecovery.Ops(log[..length]);
      ghost var goal := RunStores(o, meta, AllStores(ops));
      FirstLeads(o, meta, ops);
      NoneDone(ops, trace);
      var i := 0;
      while i < length
        invariant 0 <= i <= length && |ops| == length
        invariant forall k :: 0 <= k < length ==> ops[k] == Decode(log[k])
        invariant LeadsTo(o, meta, ops, i, goal)
        invariant Halt !in AllStores(ops[..i]) && trace == old(trace) + Stored(AllStores(ops[..i]))
      {
        ghost var first := NextLeads(o, meta, ops, i, goal);
        EntryDone(ops, i);
        TraceJoin(old(trace), AllStores(ops[..i]), Kept(StoresOf(ops[i])));
        halted := Execute(Decode(log[i]));
        if halted {
          return;
        }
        i := i + 1;
      }
      NoneLeads(o, meta, ops, goal);
      AllDone(ops);
      halted := false;
    }

    /** One entry of the log, store by store. */
    method Execute(op: Op) returns (halted: bool)
      requires l.Wf() && Shape(l.Order(), meta.tree) && AllPlaced(l.Order(), StoresOf(op))
      modifies this`meta, this`trace
      ensures Outcome(meta, halted) == RunStores(l.Order(), old(meta), StoresOf(op))
      ensures halted <==> Halt in StoresOf(op)
      ensures trace == old(trace) + Stored(Kept(StoresOf(op)))
    {
      hide StoresOf, RunStores, Kept, Stored, AllPlaced, Apply, Shape;
      var o, ss, k := l.Order(), StoresOf(op), 0;
      NoStoreDone(ss, trace);
      while k < |ss|
        invariant 0 <= k <= |ss| && Shape(o, meta.tree) && AllPlaced(o, ss[k..])
        invariant RunStores(o, meta, ss[k..]) == RunStores(o, old(meta), ss)
        invariant Halt !in ss[..k] && trace == old(trace) + Stored(ss[..k])
      {
        RunOne(o, meta, ss, k);
        if ss[k].Halt? {
          KeptUpTo(ss, k);
          return true;
        }
        StoreDone(old(trace), ss, k);
        meta := Apply(o, meta, ss[k]);
        trace := trace + [ToMeta(ss[k])];
        k := k + 1;
      }
      RunNone(o, meta, ss, k);
      KeptAll(ss);
      halted := false;
    }

    /** `recover_with_redolog`. */
    method Recover() returns (error: bool, halted: bool)
      requires l.Wf() && Shape(l.Order(), meta.tree) && log.Length == REDOLOG_ENTRIES
      requires AllPlaced(l.Order(), CrashRecovery.ReplayStores(csum, log[..]))
      modifies this`meta, this`trace
      ensures error == CrashRecovery.Scan(csum, log[..]).BadChecksum?
      ensures Outcome(meta, halted) == RunStores(l.Order(), old(meta), CrashRecovery.ReplayStores(csum, log[..]))
      ensures trace == old(trace) + Stored(Kept(CrashRecovery.ReplayStores(csum, log[..])))
    {
      var i := 0;
      while i < REDOLOG_ENTRIES
        invariant 0 <= i <= REDOLOG_ENTRIES && meta == old(meta) && trace == old(trace)
        invariant forall e :: 0 <= e < i ==> log[e].tp != COMMIT
      {
        if log[i].tp == COMMIT {
          assert CrashRecovery.FirstCommit(log[..], 0) == i;
          assert log[..][..i] == log[..i];
          if csum(log[..i]) != log[i].f[F_CHECKSUM] {
            return true, false;
          }
          halted := ExecuteLog(i);
          return false, halted;
        }
        i := i + 1;
      }
      error, halted := false, false;
    }

    /** The search for a free slot in `record_obj_hdr_alloc`. */
    method FirstFreeSlot() returns (slot: nat)
      requires Valid() && |chain| < NUM_OBJ_SLOTS
      ensures slot < NUM_OBJ_SLOTS && slot !in chain && forall s :: 0 <= s < slot ==> s in chain
    {
      hide Linked, TreeOk, HeaderOk, NamesDiffer;
      slot := 0;
      var i := 0;
      while i < NUM_OBJ_SLOTS
        invariant 0 <= i <= NUM_OBJ_SLOTS
        invariant forall s :: 0 <= s < i ==> s in chain
      {
        InSlotSet(l.rec, chain, i);
        if (l.rec, i) !in meta.slots {
          return i;
        }
        i := i + 1;
      }
      ChainTooLong(chain);
    }

    /** The walk over the header list that looks for a name. */
    method LookUp(name: seq<nat>) returns (found: bool, h: nat, ghost i: nat)
      requires Valid()
      ensures found == (name in Dir(l, meta.words, chain))
      ensures found ==> RegionAt(meta.words, h) == Dir(l, meta.words, chain)[name]
      ensures found ==> i < |chain| && h == l.Hdr(chain[i]) && NameAt(meta.words, h) == name
    {
      hide TreeOk, HeaderOk, SlotsOk;
      DirHas(l, meta.words, chain, name);
      h := Rd(meta.words, l.head);
      i := 0;
      while h != 0
        invariant 0 <= i <= |chain|
        invariant forall j :: 0 <= j < i ==> NameAt(meta.words, l.Hdr(chain[j])) != name
        invariant if i < |chain| then h == l.Hdr(chain[i]) else h == 0
        decreases |chain| - i
      {
        if NameAt(meta.words, h) == name {
          return true, h, i;
        }
        assert NextOk(l, meta.words, chain, i);
        h := Rd(meta.words, h + OFF_NEXT);
        i := i + 1;
      }
      found := false;
    }

    /** `buddy_malloc_find_pos`, on the status array. */
    method FindPosition(length: nat) returns (p: Pos)
      requires Valid() && length >= 1
      ensures p == INVALID_POS <==> !SomeFits(l, blocks, length)
      ensures p != INVALID_POS ==>
                && BestFit(l.arena, LiveBlocks(l, blocks), length, p)
                && Fitting(l.arena, LiveBlocks(l, blocks), length, p) && InsideArena(l.arena, p)
    {
      if length > l.arena.Memory() {
        TooLarge(l.arena, LiveBlocks(l, blocks), length);
        return INVALID_POS;
      }
      RequestFits(l.arena, length);
      var depth := DepthForSize(l.arena, length);
      p := FindFree(l.Order(), meta.tree, depth);
      MallocExact(l.arena, LiveBlocks(l, blocks), meta.tree, length, depth);
      if p != INVALID_POS {
        FreeIsInsideArena(l.arena, LiveBlocks(l, blocks), p);
      }
    }

    /** The logging part of `atomic_allocate_memory_lockheld`: the log is the committed log of the allocation. */
    method RecordAllocation(p: Pos, slot: nat, name: seq<nat>, length: nat) returns (pos: nat)
      requires log.Length == REDOLOG_ENTRIES && l.Wf() && Wf(l.Order(), p)
      requires Rd(meta.words, l.rec + OFF_AVAILABLE) >= 1 && CString(name)
      modifies log, this`trace
      ensures pos == 5
      ensures CrashRecovery.LogCommitted(csum, log[..], AllocOps(l, meta, p, slot, name, length))
      ensures CrashRecovery.Loggable(AllocOps(l, meta, p, slot, name, length))
      ensures trace
           == old(trace) + Logged(BuildStores(csum, AllocOps(l, meta, p, slot, name, length), old(log[..]), false))
    {
      hide Built, Holds, AllocOps, CrashRecovery.LogCommitted, Planned, CrashRecovery.Loggable, EntryStores;
      ghost var ops := AllocOps(l, meta, p, slot, name, length);
      AllocEntries(l, meta, p, slot, name, length);
      pos := RecordBlock(p, slot, name, length, ops);
      pos := RecordAppend(pos, l.Hdr(slot), ops);
      PlanEnds(csum, ops, old(log[..]), log[..], old(trace), trace);
      pos := SetCommit(pos);
      assert log[..][..4] == log[..4];
      CommittedEntries(csum, log[..], l, meta, p, slot, name, length);
    }

    /** The first two entries of an allocation. */
    method RecordBlock(p: Pos, slot: nat, name: seq<nat>, length: nat, ghost ops: seq<Op>) returns (pos: nat)
      requires log.Length == REDOLOG_ENTRIES && l.Wf() && Wf(l.Order(), p)
      requires Rd(meta.words, l.rec + OFF_AVAILABLE) >= 1 && CString(name)
      requires CrashRecovery.Loggable(ops) && |ops| == 4 && ops[0] == BuddyAlloc(p)
      requires ops[1] == HdrAlloc(l.rec, l.main + Address(l.arena, p), length, slot,
                                  Rd(meta.words, l.rec + OFF_AVAILABLE) - 1, name, l.machine)
      modifies log, this`trace
      ensures pos == 2 && Holds(log[0], BuddyAlloc(p))
      ensures Holds(log[1], HdrAlloc(l.rec, l.main + Address(l.arena, p), length, slot,
                                     Rd(meta.words, l.rec + OFF_AVAILABLE) - 1, name, l.machine))
      ensures Planned(csum, ops, log[..], pos, trace) == Planned(csum, ops, old(log[..]), 0, old(trace))
    {
      hide Built, Holds, Planned;
      pos := LogNext(0, BuddyAlloc(p), ops);
      var obj := AddressOf(l.arena, p);
      var available := Rd(meta.words, l.rec + OFF_AVAILABLE) - 1;
      pos := LogNext(pos, HdrAlloc(l.rec, l.main + obj, length, slot, available, name, l.machine), ops);
    }

    /**
     `find_allocation`. A failed allocation is not reported: the caller gets the distance of the
     null pointer from the start of the mapping, as a 64-bit number.
     */
    method FindAllocation(name: seq<nat>, length: nat, given: nat, memStart: nat)
      returns (existing: bool, offset: nat, length': nat, ghost failed: bool)
      requires Valid() && CString(name) && 1 <= memStart < TWO_TO_64
      requires name in Dir(l, meta.words, chain) || length == 0 || |chain| < NUM_OBJ_SLOTS
      modifies this, log
      ensures Valid()
      ensures FindSpec(l.machine, old(Dir(l, meta.words, chain)), name, length, given, existing, offset, length',
                       failed, Dir(l, meta.words, chain))
      ensures failed <==> name !in old(Dir(l, meta.words, chain)) && length > 0 && !SomeFits(l, old(blocks), length)
      ensures failed ==> offset == TWO_TO_64 - memStart
      ensures existing || length == 0 || failed ==>
                meta == old(meta) && log[..] == old(log[..]) && trace == old(trace)
      ensures !existing && length > 0 && !failed ==>
                TakesNext(l, csum, old(meta), old(log[..]), old(chain), old(blocks), old(trace), name, length,
                          chain, blocks, offset, trace)
    {
      existing, offset, length', failed := false, given, length, false;
      var found, h, i := LookUp(name);
      if found {
        var r := RegionAt(meta.words, h);
        return true, r.offset, r.length, false;
      }
      if length > 0 {
        var ok;
        ok, offset := Allocate(name, length);
        failed := !ok;
        if !ok {
          offset := TWO_TO_64 - memStart;
        }
      }
    }

    /** `atomic_allocate_memory_lockheld`, for a name not yet in the pool. */
    method Allocate(name: seq<nat>, length: nat) returns (ok: bool, offset: nat)
      requires Valid() && CString(name) && length >= 1 && |chain| < NUM_OBJ_SLOTS
      requires name !in Dir(l, meta.words, chain)
      modifies this, log
      ensures Valid()
      ensures ok <==> SomeFits(l, old(blocks), length)
      ensures ok ==> Dir(l, meta.words, chain) == old(Dir(l, meta.words, chain))[name := Region(offset, length, l.machine)]
      ensures !ok ==> meta == old(meta) && chain == old(chain) && blocks == old(blocks) && log[..] == old(log[..])
      ensures !ok ==> trace == old(trace)
      ensures ok ==> TakesNext(l, csum, old(meta), old(log[..]), old(chain), old(blocks), old(trace), name, length,
                               chain, blocks, offset, trace)
    {
      hide PoolInv, BestFit, Fitting, SomeFits, Dir, InsideArena, Leads, IsNext, Allocates;
      var p := FindPosition(length);
      if p == INVALID_POS {
        return false, 0;
      }
      var slot := FirstFreeSlot();
      var address := AddressOf(l.arena, p);
      offset := l.main + address;
      NextTaken(l, meta, chain, blocks, length, slot, p, offset);
      ghost var next, dir := AllocationLeaves(l, meta, chain, blocks, p, slot, name, length, offset);
      Perform(p, slot, name, length, next);
      chain, blocks := chain + [slot], blocks + [p];
      ok := true;
    }

    /** The allocation once its block and slot are chosen: log, commit, execute. */
    method Perform(p: Pos, slot: nat, name: seq<nat>, length: nat, ghost next: Meta)
      requires log.Length == REDOLOG_ENTRIES && Leads(l, meta, p, slot, name, length, next)
      modifies this`meta, this`trace, log
      ensures meta == next
      ensures Allocates(l, csum, old(meta), old(log[..]), p, slot, name, length, old(trace), trace)
    {
      hide AllocOps, AllStores, RunStores, CrashRecovery.LogCommitted, Kept, Stored, Logged, Touches, BuildStores,
           CrashRecovery.Loggable, AllPlaced, Leads, Layout.Wf, CString, Shape;
      LeadsParts(l, meta, p, slot, name, length, next);
      ghost var ops := AllocOps(l, meta, p, slot, name, length);
      var pos := RecordAllocation(p, slot, name, length);
      TouchesAre(csum, ops, old(log[..]), false, old(trace));
      CommittedStores(csum, log[..], ops);
      assert log[..][..5] == log[..5];
      var halted := ExecuteLog(pos);
    }

    /**
     `check_allocation`. It halts at the first check that fails. The count of the slots in use looks at
     the first 44 bits of the map only, as many as the map has bytes and one.
     */
    method Check(name: seq<nat>, offset: nat, length: nat) returns (status: int, halted: bool)
      requires Valid() && CString(name)
      ensures name !in Dir(l, meta.words, chain) ==> status == EIDX_NOT_FOUND && !halted
      ensures name in Dir(l, meta.words, chain) ==>
                && status == 0
                && (!halted <==> && Dir(l, meta.words, chain)[name] == Region(offset, length, l.machine)
                                 && forall s :: s in chain ==> s <= SIZEOF_OBJ_BITSET)
    {
      hide PoolInv, Dir, FreeFindPos, NameAt;
      var found, h, i := LookUp(name);
      if !found {
        return EIDX_NOT_FOUND, false;
      }
      status := 0;
      AuditFacts(l, meta, chain, blocks, i);
      var slot := (h - l.rec - OFF_HEADERS) / SIZEOF_HEADER;
      var used := CountSlots(SIZEOF_OBJ_BITSET + 1);
      var r := RegionAt(meta.words, h);
      halted := (l.rec, slot) !in meta.slots || NUM_OBJ_SLOTS - used != Rd(meta.words, l.rec + OFF_AVAILABLE)
        || l.Hdr(Rd(meta.words, h + OFF_SLOT_ID)) != h || slot != Rd(meta.words, h + OFF_SLOT_ID)
        || l.machine != r.owner || r.length != length || r.offset != offset;
      if !halted {
        AuditFindsBlock(l, meta, chain, blocks, i, length);
        var p := PositionAt(offset, length);
        IndexBound(l.Order(), p);
        halted := meta.tree[p.index] != Width(l.Order(), p);
      }
    }

    /** The number of slots below n whose bit is set. */
    method CountSlots(n: nat) returns (c: nat)
      ensures c == Used(meta.slots, l.rec, n)
    {
      c := 0;
      var s := 0;
      while s < n
        invariant 0 <= s <= n && c == Used(meta.slots, l.rec, s)
      {
        if (l.rec, s) in meta.slots {
          c := c + 1;
        }
        s := s + 1;
      }
    }

    /** `record_list_queue_remove`. */
    method RecordRemove(at: nat, h: nat, ghost ops: seq<Op>) returns (pos: nat)
      requires log.Length == REDOLOG_ENTRIES && CrashRecovery.Loggable(ops)
      requires at + |RemoveOps(l, meta.words, h)| <= |ops|
      requires forall k :: 0 <= k < |RemoveOps(l, meta.words, h)| ==> ops[at + k] == RemoveOps(l, meta.words, h)[k]
      modifies log, this`trace
      ensures pos == at + |RemoveOps(l, meta.words, h)| <= at + 2
      ensures Planned(csum, ops, log[..], pos, trace) == Planned(csum, ops, old(log[..]), at, old(trace))
      ensures forall k :: at <= k < pos ==> Holds(log[k], RemoveOps(l, meta.words, h)[k - at])
      ensures forall i :: 0 <= i < at ==> log[i] == old(log[i])
    {
      hide Built, Holds, Planned, CrashRecovery.Loggable;
      ghost var rs := RemoveOps(l, meta.words, h);
      assert ops[at + 0] == rs[0] && (|rs| > 1 ==> ops[at + 1] == rs[1]);
      var next, prev := Rd(meta.words, h + OFF_NEXT), Rd(meta.words, h + OFF_PREV);
      if Rd(meta.words, l.head) == h && next == 0 {
        pos := LogNext(at, Val(l.head, 0), ops);
      } else {
        pos := LogNext(at, TwoVal(next + OFF_PREV, prev, prev + OFF_NEXT, next), ops);
        if Rd(meta.words, l.head) == h {
          pos := LogNext(pos, Val(l.head, next), ops);
        }
      }
    }

    /** The logging part of `atomic_free_memory`: entry 0 is erased, and the log is the committed log of the freeing. */
    method RecordFree(p: Pos, h: nat, ghost slot: nat) returns (pos: nat)
      requires log.Length == REDOLOG_ENTRIES && h == l.Hdr(slot) && Rd(meta.words, h + OFF_SLOT_ID) == slot
      modifies log, this`trace
      ensures pos == |FreeOps(l, meta, p, slot)| + 1 <= 5
      ensures CrashRecovery.LogCommitted(csum, log[..], FreeOps(l, meta, p, slot))
      ensures CrashRecovery.Loggable(FreeOps(l, meta, p, slot))
      ensures trace == old(trace) + Logged(BuildStores(csum, FreeOps(l, meta, p, slot), old(log[..]), true))
    {
      hide Built, Holds, RemoveOps, FreeOps, CrashRecovery.LogCommitted, Header, Planned, CrashRecovery.Loggable,
           EntryStores, LogStores, Logged, CommitStores, Rd, BuildStores, Put;
      ghost var ops := FreeOps(l, meta, p, slot);
      FreeEntries(l, meta, p, slot);
      FreeLoggable(l, meta, p, slot);
      PutStore(Erase(0));
      ghost var log1, trace1 := log[..], trace;
      pos := RecordUnlink(p, h, slot, ops);
      PlanEnds(csum, ops, log1, log[..], trace1, trace);
      WipedFirst(csum, ops, old(log[..]), old(trace));
      pos := SetCommit(pos);
      assert log[..][..|ops|] == log[..|ops|];
      CommittedLog(csum, log[..], ops);
    }

    /** The entries of a freeing: the block, the list, the slot. */
    method RecordUnlink(p: Pos, h: nat, ghost slot: nat, ghost ops: seq<Op>) returns (pos: nat)
      requires log.Length == REDOLOG_ENTRIES && h == l.Hdr(slot) && Rd(meta.words, h + OFF_SLOT_ID) == slot
      requires ops == FreeOps(l, meta, p, slot) && CrashRecovery.Loggable(ops)
      modifies log, this`trace
      ensures pos == |ops| && forall k :: 0 <= k < |ops| ==> Holds(log[k], ops[k])
      ensures Planned(csum, ops, log[..], pos, trace) == Planned(csum, ops, old(log[..]), 0, old(trace))
    {
      hide Built, Holds, RemoveOps, FreeOps, Header, Planned, CrashRecovery.Loggable, Rd;
      FreeEntries(l, meta, p, slot);
      pos := LogNext(0, BuddyFree(p), ops);
      pos := RecordRemove(pos, h, ops);
      var available := Rd(meta.words, l.rec + OFF_AVAILABLE) + 1;
      pos := LogNext(pos, HdrFree(l.rec, Rd(meta.words, h + OFF_SLOT_ID), available), ops);
    }

    /**
     `atomic_free_memory`. The header is found by name, the block by the offset and length given. A
     name not in the pool is reported as freed; an offset that gives no block is an error.
     */
    method Free(name: seq<nat>, offset: nat, length: nat) returns (status: int, halted: bool, ghost i: nat)
      requires Valid() && CString(name)
      modifies this, log
      ensures FreeAnswers(l, csum, old(meta), old(log[..]), old(chain), old(trace), name, offset, length,
                          status, halted, i, meta, trace)
      ensures name !in old(Dir(l, meta.words, chain)) || status != 0 ==>
                Valid() && chain == old(chain) && log[..] == old(log[..])
      ensures name in old(Dir(l, meta.words, chain)) && old(Dir(l, meta.words, chain))[name].offset == offset
              && status == 0 && i < |old(chain)| && Removable(old(chain), i) ==>
                && Valid() && !halted && chain == Without(old(chain), i)
                && Dir(l, meta.words, chain) == old(Dir(l, meta.words, chain)) - {name}
    {
      hide PoolInv, Dir, PositionGiven, Freed, Frees, FreeOps, AllStores, RunStores, RegionAt, NameAt, SameBlockSize;
      status, halted, i := 0, false, 0;
      var found, h, at := LookUp(name);
      if !found {
        return;
      }
      i := at;
      var p := PositionAt(offset, length);
      if p == INVALID_POS {
        status := -EFAULT;
        SlotRead(l, meta, chain, blocks, i);
        FindsGiven(l, meta, chain, blocks, i, offset, length);
        return;
      }
      SlotRead(l, meta, chain, blocks, i);
      halted := PerformFree(p, h, chain[i]);
      FreedOwn(l, old(meta), chain, blocks, i, offset, length, Outcome(meta, halted));
      if Removable(chain, i) && p == blocks[i] {
        chain, blocks := Without(chain, i), Without(blocks, i);
      }
    }

    /** `buddy_free_find_pos`, on the status array and an offset in shared memory. */
    method PositionAt(offset: nat, length: nat) returns (p: Pos)
      requires Valid()
      ensures p == PositionGiven(l, meta.tree, offset, length)
      ensures p != INVALID_POS ==> Wf(l.Order(), p)
    {
      hide PoolInv, FreeFindPos, PositionForAddress, Linked, SlotsOk, TreeOk, HeaderOk, NamesDiffer;
      PoolParts(l, meta, chain, blocks);
      GivenWf(l, meta.tree, offset, length);
      if offset < l.main {
        return INVALID_POS;
      }
      p := FreeFindPos(l.arena, meta.tree, offset - l.main, length);
    }

    /** The freeing once its block and header are found: log, commit, execute. */
    method PerformFree(p: Pos, h: nat, ghost slot: nat) returns (halted: bool)
      requires log.Length == REDOLOG_ENTRIES && l.Wf() && Shape(l.Order(), meta.tree) && Wf(l.Order(), p)
      requires h == l.Hdr(slot) && Rd(meta.words, h + OFF_SLOT_ID) == slot
      modifies this`meta, this`trace, log
      ensures Freed(l, old(meta), p, slot, Outcome(meta, halted))
      ensures Frees(l, csum, old(meta), old(log[..]), p, slot, old(trace), trace)
    {
      ghost var ops := FreeOps(l, meta, p, slot);
      FreeIsPlaced(l, meta, p, slot);
      hide FreeOps, AllStores, RunStores, CrashRecovery.LogCommitted, Kept, Stored, Logged, Touches, BuildStores,
           CrashRecovery.Loggable, AllPlaced;
      var pos := RecordFree(p, h, slot);
      TouchesAre(csum, ops, old(log[..]), true, old(trace));
      CommittedStores(csum, log[..], ops);
      assert log[..][..pos] == log[..pos];
      halted := ExecuteLog(pos);
    }

    /** `record_list_queue_append`. */
    method RecordAppend(at: nat, h: nat, ghost ops: seq<Op>) returns (pos: nat)
      requires log.Length == REDOLOG_ENTRIES && CrashRecovery.Loggable(ops) && at + 2 <= |ops|
      requires forall k :: 0 <= k < 2 ==> ops[at + k] == AppendOps(l, meta.words, h)[k]
      modifies log, this`trace
      ensures pos == at + 2
      ensures Planned(csum, ops, log[..], pos, trace) == Planned(csum, ops, old(log[..]), at, old(trace))
      ensures Holds(log[at], AppendOps(l, meta.words, h)[0]) && Holds(log[at + 1], AppendOps(l, meta.words, h)[1])
      ensures forall i :: 0 <= i < at ==> log[i] == old(log[i])
    {
      hide Planned, Holds, CrashRecovery.Loggable;
      ghost var add := AppendOps(l, meta.words, h);
      assert ops[at + 0] == add[0] && ops[at + 1] == add[1];
      var tail := Rd(meta.words, l.Tail());
      if Rd(meta.words, l.head) == 0 {
        pos := LogNext(at, TwoVal(h + OFF_PREV, 0, l.head, h), ops);
      } else {
        pos := LogNext(at, TwoVal(h + OFF_PREV, tail, tail + OFF_NEXT, h), ops);
      }
      pos := LogNext(pos, TwoVal(h + OFF_NEXT, 0, l.Tail(), h), ops);
    }
  }

  /** What an allocation stores, in its order. */
  ghost predicate Allocates(l: Layout, csum: CrashRecovery.Checksum, m: Meta, log: seq<Entry>, p: Pos, slot: nat,
                            name: seq<nat>, length: nat, trace: seq<Touch>, trace': seq<Touch>)
  {
    && |log| == REDOLOG_ENTRIES && l.Wf() && Wf(l.Order(), p) && Rd(m.words, l.rec + OFF_AVAILABLE) >= 1
    && CrashRecovery.Loggable(AllocOps(l, m, p, slot, name, length))
    && trace' == trace + Touches(csum, AllocOps(l, m, p, slot, name, length), log, false)
  }

  /** What a freeing stores, in its order. */
  ghost predicate Frees(l: Layout, csum: CrashRecovery.Checksum, m: Meta, log: seq<Entry>, p: Pos, slot: nat,
                        trace: seq<Touch>, trace': seq<Touch>)
  {
    && |log| == REDOLOG_ENTRIES && CrashRecovery.Loggable(FreeOps(l, m, p, slot))
    && trace' == trace + Touches(csum, FreeOps(l, m, p, slot), log, true)
  }

  /** The stores made, and those still to make from entry i on. */
  ghost function Planned(csum: CrashRecovery.Checksum, ops: seq<Op>, log: Log, i: nat, trace: seq<Touch>): seq<Touch>
    requires CrashRecovery.Loggable(ops) && i <= |ops|
  {
    trace + Logged(LogStores(csum, ops, log, i, 0))
  }

  lemma TouchesAre(csum: CrashRecovery.Checksum, ops: seq<Op>, log: Log, wipes: bool, trace: seq<Touch>)
    requires CrashRecovery.Loggable(ops)
    ensures trace + Logged(BuildStores(csum, ops, log, wipes)) + Stored(Kept(AllStores(ops)))
         == trace + Touches(csum, ops, log, wipes)
  {
    hide BuildStores, AllStores, Kept, CrashRecovery.Loggable;
  }

  lemma WipedFirst(csum: CrashRecovery.Checksum, ops: seq<Op>, log: Log, trace: seq<Touch>)
    requires CrashRecovery.Loggable(ops)
    ensures trace + [ToLog(Erase(0))] + Logged(LogStores(csum, ops, Put(log, Erase(0)), 0, 0))
         == trace + Logged(BuildStores(csum, ops, log, true))
  {
    hide LogStores, Put, CrashRecovery.Loggable;
  }

  lemma LoggedJoin(a: seq<LogStore>, b: seq<LogStore>)
    ensures Logged(a + b) == Logged(a) + Logged(b)
  {
  }

  lemma PlanKept(csum: CrashRecovery.Checksum, ops: seq<Op>, log: Log, i: nat, trace: seq<Touch>)
    requires CrashRecovery.Loggable(ops) && i < |ops|
    ensures AllInLog(EntryStores(i, ops[i]))
    ensures Planned(csum, ops, PutAll(log, EntryStores(i, ops[i])), i + 1, trace + Logged(EntryStores(i, ops[i])))
         == Planned(csum, ops, log, i, trace)
  {
    hide EntryStores, LogStores, PutAll;
    var es := EntryStores(i, ops[i]);
    LogStoresAre(csum, ops, log, i, 0);
    assert es[0..] == es;
    LoggedJoin(es, LogStores(csum, ops, PutAll(log, es), i + 1, 0));
  }

  lemma PlanEnds(csum: CrashRecovery.Checksum, ops: seq<Op>, log: Log, log': Log, trace: seq<Touch>, trace': seq<Touch>)
    requires CrashRecovery.Loggable(ops)
    requires Planned(csum, ops, log', |ops|, trace') == Planned(csum, ops, log, 0, trace)
    ensures trace' + Logged(CommitStores(csum, log', |ops|)) == trace + Logged(LogStores(csum, ops, log, 0, 0))
  {
    hide LogStores;
    LastAre(csum, ops, log', 0);
    assert CommitStores(csum, log', |ops|)[0..] == CommitStores(csum, log', |ops|);
  }

  lemma NoStoreDone(ss: seq<Store>, trace: seq<Touch>)
    ensures ss[0..] == ss && ss[..0] == [] && trace + Stored([]) == trace
  {
  }

  lemma StoreDone(trace: seq<Touch>, ss: seq<Store>, k: nat)
    requires k < |ss| && Halt !in ss[..k] && !ss[k].Halt?
    ensures trace + Stored(ss[..k]) + [ToMeta(ss[k])] == trace + Stored(ss[..k + 1]) && Halt !in ss[..k + 1]
  {
    assert ss[..k + 1] == ss[..k] + [ss[k]];
  }

  /** Running stores from k on is making store k, or halting at it, and running the rest. */
  lemma RunOne(o: nat, m: Meta, ss: seq<Store>, k: nat)
    requires k < |ss| && Shape(o, m.tree) && AllPlaced(o, ss[k..])
    ensures ss[k].Halt? ==> RunStores(o, m, ss[k..]) == Outcome(m, true)
    ensures !ss[k].Halt? ==>
              && Storable(o, ss[k]) && AllPlaced(o, ss[k + 1..])
              && RunStores(o, m, ss[k..]) == RunStores(o, Apply(o, m, ss[k]), ss[k + 1..])
  {
    hide Apply, Shape;
    var rest := ss[k..];
    assert rest[0] == ss[k] && rest[1..] == ss[k + 1..] && ss[k] in rest;
    assert forall s :: s in ss[k + 1..] ==> s in rest;
    if ss[k].Halt? {
      assert Kept(rest) == [];
    } else {
      assert Kept(rest) == [ss[k]] + Kept(rest[1..]) && Kept(rest)[1..] == Kept(rest[1..]);
    }
  }

  lemma RunNone(o: nat, m: Meta, ss: seq<Store>, k: nat)
    requires k == |ss| && Shape(o, m.tree) && AllPlaced(o, ss[k..])
    ensures RunStores(o, m, ss[k..]) == Outcome(m, false) && ss[..k] == ss
  {
    hide Apply, Shape;
    assert ss[k..] == [];
  }

  lemma KeptUpTo(ss: seq<Store>, k: nat)
    requires k < |ss| && ss[k].Halt? && Halt !in ss[..k]
    ensures Kept(ss) == ss[..k] && Halt in ss
  {
    assert ss == ss[..k] + ss[k..];
    KeptJoin(ss[..k], ss[k..]);
    assert ss[..k] + [] == ss[..k];
  }

  lemma NoneDone(ops: seq<Op>, trace: seq<Touch>)
    ensures AllStores(ops[..0]) == [] && trace + Stored([]) == trace
  {
    assert ops[..0] == [];
  }

  lemma AllDone(ops: seq<Op>)
    ensures Halt !in AllStores(ops[..|ops|]) ==> Kept(AllStores(ops)) == AllStores(ops[..|ops|])
  {
    hide AllStores, Kept;
    assert ops[..|ops|] == ops;
    KeptAll(AllStores(ops));
  }

  lemma TraceJoin(trace: seq<Touch>, a: seq<Store>, b: seq<Store>)
    ensures trace + Stored(a) + Stored(b) == trace + Stored(a + b)
  {
  }

  /** The stores up to entry i, and those of this entry. */
  lemma EntryDone(ops: seq<Op>, i: nat)
    requires i < |ops|
    ensures AllStores(ops[..i + 1]) == AllStores(ops[..i]) + StoresOf(ops[i])
    ensures Halt !in AllStores(ops[..i]) && Halt in StoresOf(ops[i]) ==>
              Kept(AllStores(ops)) == AllStores(ops[..i]) + Kept(StoresOf(ops[i]))
    ensures Halt !in StoresOf(ops[i]) ==> Kept(StoresOf(ops[i])) == StoresOf(ops[i])
  {
    hide StoresOf, AllStores, Kept;
    assert ops[..i + 1] == ops[..i] + [ops[i]] && ops == ops[..i + 1] + ops[i + 1..];
    StoresJoin(ops[..i], [ops[i]]);
    OneEntry(ops[i]);
    StoresJoin(ops[..i + 1], ops[i + 1..]);
    HaltsInside(AllStores(ops[..i]), StoresOf(ops[i]), AllStores(ops[i + 1..]));
    KeptAll(StoresOf(ops[i]));
  }

  lemma HaltsInside(a: seq<Store>, b: seq<Store>, c: seq<Store>)
    ensures Halt !in a && Halt in b ==> Kept(a + b + c) == a + Kept(b)
  {
    hide Kept;
    KeptJoin(a + b, c);
    KeptJoin(a, b);
    if Halt in b {
      var k :| 0 <= k < |b| && b[k] == Halt;
      assert (a + b)[|a| + k] == Halt;
    }
  }

  lemma OneEntry(op: Op)
    ensures AllStores([op]) == StoresOf(op)
  {
    hide StoresOf;
    assert [op][1..] == [];
    assert StoresOf(op) + [] == StoresOf(op);
  }

  lemma AllocEntries(l: Layout, m: Meta, p: Pos, slot: nat, name: seq<nat>, length: nat)
    requires l.Wf() && Wf(l.Order(), p) && Rd(m.words, l.rec + OFF_AVAILABLE) >= 1 && CString(name)
    ensures var ops := AllocOps(l, m, p, slot, name, length);
            && CrashRecovery.Loggable(ops) && |ops| == 4 && ops[0] == BuddyAlloc(p)
            && ops[1] == HdrAlloc(l.rec, l.main + Address(l.arena, p), length, slot,
                                  Rd(m.words, l.rec + OFF_AVAILABLE) - 1, name, l.machine)
            && (forall k :: 0 <= k < 2 ==> ops[2 + k] == AppendOps(l, m.words, l.Hdr(slot))[k])
  {
    hide CString, Address;
  }

  ghost predicate Holds(e: Entry, op: Op) {
    e.tp == TypeOf(op) && Decode(e) == op
  }

  lemma CommittedLog(csum: CrashRecovery.Checksum, log: Log, ops: seq<Op>)
    requires |ops| < REDOLOG_ENTRIES && forall k :: 0 <= k < |ops| ==> Holds(log[k], ops[k])
    requires log[|ops|].tp == COMMIT && log[|ops|].f[F_CHECKSUM] == csum(log[..|ops|])
    ensures CrashRecovery.LogCommitted(csum, log, ops)
  {
    hide Decode, TypeOf;
  }

  const EIDX_NOT_FOUND := 135
  const SIZEOF_OBJ_BITSET := 43

  function Used(slots: set<(nat, nat)>, rec: nat, n: nat): nat {
    if n == 0 then 0 else Used(slots, rec, n - 1) + if (rec, n - 1) in slots then 1 else 0
  }

  /** The slots below n with their bit set, as a set. */
  lemma {:induction false} UsedIsCount(slots: set<(nat, nat)>, rec: nat, n: nat)
    ensures Used(slots, rec, n) == |set x | x in slots && x.0 == rec && x.1 < n|
    decreases n
  {
    var now := set x | x in slots && x.0 == rec && x.1 < n;
    if n == 0 {
      assert now == {};
    } else {
      UsedIsCount(slots, rec, n - 1);
      var before := set x | x in slots && x.0 == rec && x.1 < n - 1;
      if (rec, n - 1) in slots {
        assert now == before + {(rec, n - 1)};
      } else {
        assert now == before;
      }
    }
  }

  /** Counting the slots below n gives all slots in use exactly when there is none from n on. */
  lemma UsedIsAll(l: Layout, m: Meta, chain: seq<nat>, n: nat)
    requires SlotsOk(l, m, chain) && SlotChain(chain)
    ensures NUM_OBJ_SLOTS - Used(m.slots, l.rec, n) == Rd(m.words, l.rec + OFF_AVAILABLE)
       <==> forall s :: s in chain ==> s < n
  {
    SlotsAdd(l, m, chain);
    UsedIsCount(m.slots, l.rec, n);
    var low := set x | x in m.slots && x.0 == l.rec && x.1 < n;
    if forall s :: s in chain ==> s < n {
      assert low == m.slots;
    } else {
      var s :| s in chain && s >= n;
      assert (l.rec, s) in m.slots && (l.rec, s) !in low;
      LessThan(low, m.slots);
    }
  }

  lemma LessThan<T>(a: set<T>, b: set<T>)
    requires a < b
    ensures |a| < |b|
  {
    var x :| x in b && x !in a;
    SubsetSize(a, b - {x});
  }

  lemma {:induction false} SubsetSize<T>(a: set<T>, b: set<T>)
    requires a <= b
    ensures |a| <= |b|
    decreases a
  {
    if a != {} {
      var x :| x in a;
      SubsetSize(a - {x}, b - {x});
    }
  }

  /** What the audit reads of a header of the pool. */
  lemma AuditFacts(l: Layout, m: Meta, chain: seq<nat>, blocks: seq<Pos>, i: nat)
    requires PoolInv(l, m, chain, blocks) && i < |chain|
    ensures l.Hdr(chain[i]) >= l.rec + OFF_HEADERS && (l.Hdr(chain[i]) - l.rec - OFF_HEADERS) / SIZEOF_HEADER == chain[i]
    ensures (l.rec, chain[i]) in m.slots && Rd(m.words, l.Hdr(chain[i]) + OFF_SLOT_ID) == chain[i]
    ensures NUM_OBJ_SLOTS - Used(m.slots, l.rec, SIZEOF_OBJ_BITSET + 1) == Rd(m.words, l.rec + OFF_AVAILABLE)
       <==> forall s :: s in chain ==> s <= SIZEOF_OBJ_BITSET
  {
    hide PoolInv, HeaderOk, Linked, TreeOk, NamesDiffer;
    PoolParts(l, m, chain, blocks);
    SlotRead(l, m, chain, blocks, i);
    UsedIsAll(l, m, chain, SIZEOF_OBJ_BITSET + 1);
  }

  /** The block of a header is found from its own region, and its status is full. */
  lemma AuditFindsBlock(l: Layout, m: Meta, chain: seq<nat>, blocks: seq<Pos>, i: nat, length: nat)
    requires PoolInv(l, m, chain, blocks) && i < |chain| && RegionAt(m.words, l.Hdr(chain[i])).length == length
    ensures l.Wf() && Shape(l.Order(), m.tree) && Wf(l.Order(), blocks[i]) && blocks[i].index < |m.tree|
    ensures PositionGiven(l, m.tree, RegionAt(m.words, l.Hdr(chain[i])).offset, length) == blocks[i] != INVALID_POS
    ensures m.tree[blocks[i].index] == Width(l.Order(), blocks[i])
  {
    hide PoolInv, HeaderOk, Linked, SlotsOk, NamesDiffer, FreeFindPos, RegionAt, FitsDepth;
    PoolParts(l, m, chain, blocks);
    SlotRead(l, m, chain, blocks, i);
    OwnBlock(l, m.words, chain[i], blocks[i]);
    SameSizeFits(l.arena, length, length, blocks[i].depth);
    FindsGiven(l, m, chain, blocks, i, RegionAt(m.words, l.Hdr(chain[i])).offset, length);
    BlockIsLive(l, blocks, i);
    IndexBound(l.Order(), blocks[i]);
  }

  const EFAULT := 14

  /** The position that an offset in shared memory and a length stand for. */
  function PositionGiven(l: Layout, tree: seq<nat>, offset: nat, length: nat): Pos
    requires l.Wf() && Shape(l.Order(), tree)
  {
    if offset < l.main then INVALID_POS else FreeFindPos(l.arena, tree, offset - l.main, length)
  }

  /** A freeing of the block at the offset and of the header in `slot` was made and led to `out`. */
  ghost predicate FreedAt(l: Layout, csum: CrashRecovery.Checksum, m: Meta, log: seq<Entry>, trace: seq<Touch>,
                          offset: nat, length: nat, slot: nat, out: Outcome, trace': seq<Touch>)
  {
    && l.Wf() && Shape(l.Order(), m.tree)
    && var p := PositionGiven(l, m.tree, offset, length);
       Freed(l, m, p, slot, out) && Frees(l, csum, m, log, p, slot, trace, trace')
  }

  /**
   What `atomic_free_memory` answers and does: an unknown name is reported as freed; a known one whose
   offset and length stand for no block is an error; otherwise the freeing is made. At the object's own
   offset it is an error exactly if the length gets another block size than the recorded one.
   */
  ghost predicate FreeAnswers(l: Layout, csum: CrashRecovery.Checksum, m: Meta, log: seq<Entry>, chain: seq<nat>,
                              trace: seq<Touch>, name: seq<nat>, offset: nat, length: nat,
                              status: int, halted: bool, i: nat, m': Meta, trace': seq<Touch>)
  {
    var dir := Dir(l, m.words, chain);
    if name !in dir then status == 0 && !halted && m' == m && trace' == trace
    else
      && i < |chain| && NameAt(m.words, l.Hdr(chain[i])) == name && l.Wf() && Shape(l.Order(), m.tree)
      && status == (if PositionGiven(l, m.tree, offset, length) == INVALID_POS then -EFAULT else 0)
      && (status != 0 ==> !halted && m' == m && trace' == trace)
      && (status == 0 ==> FreedAt(l, csum, m, log, trace, offset, length, chain[i], Outcome(m', halted), trace'))
      && (dir[name].offset == offset ==> (status == 0 <==> SameBlockSize(l.arena, dir[name].length, length)))
  }

  /** The entries of the freeing were executed and led to `out`. */
  ghost predicate Freed(l: Layout, m: Meta, p: Pos, slot: nat, out: Outcome) {
    && l.Wf() && Shape(l.Order(), m.tree) && AllPlaced(l.Order(), AllStores(FreeOps(l, m, p, slot)))
    && out == RunStores(l.Order(), m, AllStores(FreeOps(l, m, p, slot)))
  }

  lemma FreeEntries(l: Layout, m: Meta, p: Pos, slot: nat)
    ensures var ops, rs := FreeOps(l, m, p, slot), RemoveOps(l, m.words, l.Hdr(slot));
            && |ops| == |rs| + 2 && ops[0] == BuddyFree(p) && (forall k :: 1 <= k <= |rs| ==> ops[k] == rs[k - 1])
            && ops[|rs| + 1] == HdrFree(l.rec, slot, Rd(m.words, l.rec + OFF_AVAILABLE) + 1)
  {
    hide RemoveOps;
  }

  lemma FreeLoggable(l: Layout, m: Meta, p: Pos, slot: nat)
    ensures CrashRecovery.Loggable(FreeOps(l, m, p, slot)) && |FreeOps(l, m, p, slot)| <= 4
  {
    hide Rd, Header;
  }

  lemma FreeIsPlaced(l: Layout, m: Meta, p: Pos, slot: nat)
    requires l.Wf() && Wf(l.Order(), p)
    ensures AllPlaced(l.Order(), AllStores(FreeOps(l, m, p, slot)))
  {
    FreeStoresAre(l, m, p, slot);
    FirstIsPlaced(l, m, p, slot);
  }

  lemma SlotRead(l: Layout, m: Meta, chain: seq<nat>, blocks: seq<Pos>, i: nat)
    requires PoolInv(l, m, chain, blocks) && i < |chain|
    ensures l.Wf() && |blocks| == |chain| && Shape(l.Order(), m.tree)
    ensures Rd(m.words, l.Hdr(chain[i]) + OFF_SLOT_ID) == chain[i] && Wf(l.Order(), blocks[i])
  {
    hide PoolInv, HeaderOk, Linked, SlotsOk, TreeOk, NamesDiffer;
    PoolParts(l, m, chain, blocks);
    HeaderSlot(l, m.words, chain[i], blocks[i]);
  }

  lemma HeaderSlot(l: Layout, words: map<nat, nat>, slot: nat, p: Pos)
    requires l.Wf() && HeaderOk(l, words, slot, p)
    ensures Rd(words, l.Hdr(slot) + OFF_SLOT_ID) == slot && Wf(l.Order(), p)
  {
    hide FitsDepth, NameAt, Address, Start, Size;
  }

  lemma GivenWf(l: Layout, tree: seq<nat>, offset: nat, length: nat)
    requires l.Wf() && Shape(l.Order(), tree)
    ensures var p := PositionGiven(l, tree, offset, length); p == INVALID_POS || Wf(l.Order(), p)
  {
    hide PositionForAddress, SizeForDepth, Raised;
  }

  /** The offset recorded for a name leads to the block of its header exactly with a length that gets such a block. */
  lemma FindsGiven(l: Layout, m: Meta, chain: seq<nat>, blocks: seq<Pos>, i: nat, offset: nat, length: nat)
    requires PoolInv(l, m, chain, blocks) && i < |chain|
    ensures blocks[i] != INVALID_POS
    ensures var r := RegionAt(m.words, l.Hdr(chain[i]));
            r.offset == offset ==> PositionGiven(l, m.tree, offset, length) ==
                                   if SameBlockSize(l.arena, r.length, length) then blocks[i] else INVALID_POS
  {
    hide PoolInv, FreeFindPos, RegionAt, SameBlockSize;
    SlotRead(l, m, chain, blocks, i);
    FindsOwnBlock(l, m, chain, blocks, i, length);
  }

  /** Freeing a removable header by its offset leaves the pool without it. */
  lemma FreedOwn(l: Layout, m: Meta, chain: seq<nat>, blocks: seq<Pos>, i: nat, offset: nat, length: nat, out: Outcome)
    requires PoolInv(l, m, chain, blocks) && i < |chain| && PositionGiven(l, m.tree, offset, length) != INVALID_POS
    requires Freed(l, m, PositionGiven(l, m.tree, offset, length), chain[i], out)
    ensures Removable(chain, i) && PositionGiven(l, m.tree, offset, length) == blocks[i] ==>
              && !out.halted && PoolInv(l, out.meta, Without(chain, i), Without(blocks, i))
              && Dir(l, out.meta.words, Without(chain, i)) == Dir(l, m.words, chain) - {NameAt(m.words, l.Hdr(chain[i]))}
    ensures RegionAt(m.words, l.Hdr(chain[i])).offset == offset ==>
              && PositionGiven(l, m.tree, offset, length) == blocks[i]
              && SameBlockSize(l.arena, RegionAt(m.words, l.Hdr(chain[i])).length, length)
  {
    hide PoolInv, Dir, FreeFindPos, FreeOps, AllStores, RunStores, RegionAt, NameAt, SameBlockSize;
    SlotRead(l, m, chain, blocks, i);
    FindsGiven(l, m, chain, blocks, i, offset, length);
    if Removable(chain, i) && PositionGiven(l, m.tree, offset, length) == blocks[i] {
      FreeKeepsInv(l, m, chain, blocks, i);
      FreeEffect(l, m, blocks[i], chain[i]);
    }
  }

  lemma CommittedEntries(csum: CrashRecovery.Checksum, log: Log, l: Layout, m: Meta,
                         p: Pos, slot: nat, name: seq<nat>, length: nat)
    requires l.Wf() && Wf(l.Order(), p) && Rd(m.words, l.rec + OFF_AVAILABLE) >= 1
    requires Holds(log[0], BuddyAlloc(p))
    requires Holds(log[1], HdrAlloc(l.rec, l.main + Address(l.arena, p), length, slot,
                                    Rd(m.words, l.rec + OFF_AVAILABLE) - 1, name, l.machine))
    requires Holds(log[2], AppendOps(l, m.words, l.Hdr(slot))[0]) && Holds(log[3], AppendOps(l, m.words, l.Hdr(slot))[1])
    requires log[4].tp == COMMIT && log[4].f[F_CHECKSUM] == csum(log[..4])
    ensures CrashRecovery.LogCommitted(csum, log, AllocOps(l, m, p, slot, name, length))
  {
    hide Holds, AppendOps, Address;
    CommittedLog(csum, log, AllocOps(l, m, p, slot, name, length));
  }

  /** Running a committed log, with or without its commit record, makes the stores of the update. */
  lemma CommittedStores(csum: CrashRecovery.Checksum, log: Log, ops: seq<Op>)
    requires |ops| + 1 <= REDOLOG_ENTRIES && CrashRecovery.LogCommitted(csum, log, ops)
    ensures AllStores(CrashRecovery.Ops(log[..|ops| + 1])) == AllStores(ops)
  {
    var n := |ops|;
    var all := CrashRecovery.Ops(log[..n + 1]);
    assert all == ops + [Skip];
    StoresJoin(ops, [Skip]);
    AllStoresCons(Skip, []);
    assert [Skip] + [] == [Skip];
  }

  /** Running the entries from i on is running entry i and, unless it halts, the rest. */
  lemma RunFrom(o: nat, m: Meta, ops: seq<Op>, i: nat)
    requires Shape(o, m.tree) && AllPlaced(o, AllStores(ops)) && i <= |ops|
    ensures AllPlaced(o, AllStores(ops[i..])) && (i == 0 ==> ops[i..] == ops)
    ensures i < |ops| ==>
              && AllPlaced(o, StoresOf(ops[i])) && AllPlaced(o, AllStores(ops[i + 1..]))
              && var first := RunStores(o, m, StoresOf(ops[i]));
                 && Shape(o, first.meta.tree)
                 && RunStores(o, m, AllStores(ops[i..]))
                    == if first.halted then first else RunStores(o, first.meta, AllStores(ops[i + 1..]))
  {
    hide StoresOf, AllStores, RunStores;
    StoresJoin(ops[..i], ops[i..]);
    assert ops == ops[..i] + ops[i..];
    if i < |ops| {
      assert ops[i..] == [ops[i]] + ops[i + 1..];
      AllStoresCons(ops[i], ops[i + 1..]);
      RunJoin(o, m, StoresOf(ops[i]), AllStores(ops[i + 1..]));
    }
  }

  /** Running the entries from i on ends in `goal`. */
  ghost predicate LeadsTo(o: nat, m: Meta, ops: seq<Op>, i: nat, goal: Outcome) {
    && Shape(o, m.tree) && i <= |ops| && AllPlaced(o, AllStores(ops)) && AllPlaced(o, AllStores(ops[i..]))
    && RunStores(o, m, AllStores(ops[i..])) == goal
  }

  lemma FirstLeads(o: nat, m: Meta, ops: seq<Op>)
    requires Shape(o, m.tree) && AllPlaced(o, AllStores(ops))
    ensures LeadsTo(o, m, ops, 0, RunStores(o, m, AllStores(ops)))
  {
    assert ops[0..] == ops;
  }

  lemma NextLeads(o: nat, m: Meta, ops: seq<Op>, i: nat, goal: Outcome) returns (first: Outcome)
    requires LeadsTo(o, m, ops, i, goal) && i < |ops|
    ensures Shape(o, m.tree) && AllPlaced(o, StoresOf(ops[i])) && first == RunStores(o, m, StoresOf(ops[i]))
    ensures if first.halted then first == goal else LeadsTo(o, first.meta, ops, i + 1, goal)
  {
    hide StoresOf, AllStores, RunStores;
    RunFrom(o, m, ops, i);
    first := RunStores(o, m, StoresOf(ops[i]));
  }

  lemma NoneLeads(o: nat, m: Meta, ops: seq<Op>, goal: Outcome)
    requires LeadsTo(o, m, ops, |ops|, goal)
    ensures goal == Outcome(m, false)
  {
    assert ops[|ops|..] == [];
  }

  lemma RunJoin(o: nat, m: Meta, a: seq<Store>, b: seq<Store>)
    requires Shape(o, m.tree) && AllPlaced(o, a + b)
    ensures AllPlaced(o, a) && AllPlaced(o, b)
    ensures var first := RunStores(o, m, a);
            && Shape(o, first.meta.tree)
            && RunStores(o, m, a + b) == if first.halted then first else RunStores(o, first.meta, b)
  {
    assert AllPlaced(o, a) by {
      forall s | s in a ensures Placed(o, s) {
        assert s in a + b;
      }
    }
    assert AllPlaced(o, b) by {
      forall s | s in b ensures Placed(o, s) {
        assert s in a + b;
      }
    }
    KeptJoin(a, b);
    KeptAll(a);
    if Halt !in a {
      ApplySplit(o, m, a, Kept(b));
    }
  }

  lemma InSlotSet(rec: nat, chain: seq<nat>, s: nat)
    ensures (rec, s) in SlotSet(rec, chain) <==> s in chain
  {
  }

  /** A chain that holds every slot has at least as many links as there are slots. */
  lemma ChainTooLong(chain: seq<nat>)
    requires forall s :: 0 <= s < NUM_OBJ_SLOTS ==> s in chain
    ensures |chain| >= NUM_OBJ_SLOTS
  {
    RangeInChain(chain, NUM_OBJ_SLOTS);
  }

  lemma {:induction false} RangeInChain(chain: seq<nat>, n: nat)
    requires forall s :: 0 <= s < n ==> s in chain
    ensures |chain| >= n
    decreases n
  {
    if n > 0 {
      assert n - 1 in chain;
      var i :| 0 <= i < |chain| && chain[i] == n - 1;
      var rest := chain[..i] + chain[i + 1..];
      forall s | 0 <= s < n - 1 ensures s in rest {
        assert s in chain;
        var k :| 0 <= k < |chain| && chain[k] == s;
        assert rest[if k < i then k else k - 1] == s;
      }
      RangeInChain(rest, n - 1);
    }
  }

  /** The allocation can be logged and executed, and leads to `next`. */
  ghost predicate Leads(l: Layout, m: Meta, p: Pos, slot: nat, name: seq<nat>, length: nat, next: Meta) {
    && l.Wf() && Wf(l.Order(), p) && Shape(l.Order(), m.tree) && CString(name)
    && Rd(m.words, l.rec + OFF_AVAILABLE) >= 1
    && AllPlaced(l.Order(), AllStores(AllocOps(l, m, p, slot, name, length)))
    && next == AfterAlloc(l, m, p, slot, name, length)
  }

  lemma LeadsParts(l: Layout, m: Meta, p: Pos, slot: nat, name: seq<nat>, length: nat, next: Meta)
    requires Leads(l, m, p, slot, name, length, next)
    ensures l.Wf() && Wf(l.Order(), p) && Shape(l.Order(), m.tree) && CString(name)
    ensures Rd(m.words, l.rec + OFF_AVAILABLE) >= 1
    ensures var ops := AllocOps(l, m, p, slot, name, length);
            |ops| == 4 && AllPlaced(l.Order(), AllStores(ops)) && RunStores(l.Order(), m, AllStores(ops)).meta == next
  {
    hide AllStores, RunStores, AllPlaced;
  }

  /** An allocation of a name not in the pool leads to the pool with that name. */
  lemma NextTaken(l: Layout, m: Meta, chain: seq<nat>, blocks: seq<Pos>, length: nat, slot: nat, p: Pos, offset: nat)
    requires PoolInv(l, m, chain, blocks) && BestFit(l.arena, LiveBlocks(l, blocks), length, p)
    requires slot !in chain && (forall s :: 0 <= s < slot ==> s in chain) && offset == l.main + Address(l.arena, p)
    ensures IsNext(l, chain, blocks, length, slot, p, offset)
  {
    hide BestFit;
  }

  lemma AllocationLeaves(l: Layout, m: Meta, chain: seq<nat>, blocks: seq<Pos>,
                         p: Pos, slot: nat, name: seq<nat>, length: nat, offset: nat)
    returns (next: Meta, dir: map<seq<nat>, Region>)
    requires PoolInv(l, m, chain, blocks) && |chain| < NUM_OBJ_SLOTS && slot < NUM_OBJ_SLOTS && slot !in chain
    requires CString(name) && name !in Dir(l, m.words, chain) && length >= 1
    requires Fitting(l.arena, LiveBlocks(l, blocks), length, p) && InsideArena(l.arena, p)
    requires offset == l.main + Address(l.arena, p)
    ensures Leads(l, m, p, slot, name, length, next)
    ensures PoolInv(l, next, chain + [slot], blocks + [p])
    ensures dir == Dir(l, m.words, chain)[name := Region(offset, length, l.machine)]
    ensures Dir(l, next.words, chain + [slot]) == dir
  {
    hide PoolInv, Fitting, Dir, LiveBlocks, InsideArena, AfterAlloc, CanAlloc;
    AllocationAllowed(l, m, chain, blocks, p, slot, name, length);
    Basics(l, m, chain, blocks, p, slot, name, length);
    AllocKeepsInv(l, m, chain, blocks, p, slot, name, length);
    next := AfterAlloc(l, m, p, slot, name, length);
    dir := Dir(l, m.words, chain)[name := Region(offset, length, l.machine)];
  }

  lemma Basics(l: Layout, m: Meta, chain: seq<nat>, blocks: seq<Pos>, p: Pos, slot: nat, name: seq<nat>, length: nat)
    requires CanAlloc(l, m, chain, blocks, p, slot, name, length)
    ensures l.Wf() && Wf(l.Order(), p) && Shape(l.Order(), m.tree) && CString(name)
  {
  }

  lemma AllocationAllowed(l: Layout, m: Meta, chain: seq<nat>, blocks: seq<Pos>,
                          p: Pos, slot: nat, name: seq<nat>, length: nat)
    requires PoolInv(l, m, chain, blocks) && |chain| < NUM_OBJ_SLOTS && slot < NUM_OBJ_SLOTS && slot !in chain
    requires CString(name) && name !in Dir(l, m.words, chain) && length >= 1
    requires Fitting(l.arena, LiveBlocks(l, blocks), length, p)
    ensures CanAlloc(l, m, chain, blocks, p, slot, name, length)
  {
    DirHas(l, m.words, chain, name);
  }
}
