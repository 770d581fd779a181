/**
 The named regions kept in shared memory: object headers in slots of a record block, linked into
 a list, each naming a block of the buddy arena. This module says what one allocation logs and
 what the protected state means.
 */
module ObjectPool {
  import opened Sequences
  import opened BuddyPositions
  import opened BuddyStatus
  import BuddyCuts
  import opened BuddyArena
  import opened BuddyVirtual
  import opened RedoLog
  import opened MetaStores
  import CrashRecovery

  /** Where things lie, as byte offsets in shared memory. */
  datatype Layout = Layout(arena: Arena, main: nat, rec: nat, head: nat, machine: nat) {

    predicate Wf() {
      && arena.blocks >= 1 && arena.Order() <= 31
      && head >= 16 && rec >= 16
      && (head + 16 <= rec || rec + OFF_HEADERS + SIZEOF_HEADER * NUM_OBJ_SLOTS <= head)
    }

    function Tail(): nat { head + 8 }

    function Hdr(slot: nat): nat { Header(rec, slot) }

    function Order(): nat
      requires Wf()
    {
      arena.Order()
    }
  }

  /** A word of memory; memory never written reads as zero. */
  function Rd(words: map<nat, nat>, a: nat): nat {
    if a in words then words[a] else 0
  }

  // The list ----------------------------------------------------------------------------------

  /** Slots of the record block, none of them twice. */
  ghost predicate SlotChain(chain: seq<nat>) {
    (forall i :: 0 <= i < |chain| ==> chain[i] < NUM_OBJ_SLOTS) && Distinct(chain)
  }

  /** The header list in memory is exactly `chain`. */
  ghost predicate Linked(l: Layout, words: map<nat, nat>, chain: seq<nat>) {
    && SlotChain(chain)
    && (if chain == [] then Rd(words, l.head) == 0
        else Rd(words, l.head) == l.Hdr(chain[0]) && Rd(words, l.Tail()) == l.Hdr(chain[|chain| - 1]))
    && (forall i {:trigger NextOk(l, words, chain, i)} {:trigger PrevOk(l, words, chain, i)} ::
          0 <= i < |chain| ==> NextOk(l, words, chain, i) && PrevOk(l, words, chain, i))
  }

  ghost predicate NextOk(l: Layout, words: map<nat, nat>, chain: seq<nat>, i: nat)
    requires i < |chain|
  {
    Rd(words, l.Hdr(chain[i]) + OFF_NEXT) == if i + 1 < |chain| then l.Hdr(chain[i + 1]) else 0
  }

  ghost predicate PrevOk(l: Layout, words: map<nat, nat>, chain: seq<nat>, i: nat)
    requires i < |chain|
  {
    Rd(words, l.Hdr(chain[i]) + OFF_PREV) == if i > 0 then l.Hdr(chain[i - 1]) else 0
  }

  // The headers ---------------------------------------------------------------------------------

  /** The name stored in a header, up to its terminator. */
  function NameAt(words: map<nat, nat>, h: nat): seq<nat> {
    UpToNul(NameBytes(words, h))
  }

  function NameBytes(words: map<nat, nat>, h: nat): (r: seq<nat>)
    ensures |r| == PROG_ID_SIZE && forall i :: 0 <= i < |r| ==> r[i] == Rd(words, h + OFF_PROG_ID + i)
  {
    seq<nat>(PROG_ID_SIZE, i requires 0 <= i => Rd(words, h + OFF_PROG_ID + i))
  }

  /** What a header records of its region, with the machine that allocated it. */
  datatype Region = Region(offset: nat, length: nat, owner: nat)

  function RegionAt(words: map<nat, nat>, h: nat): Region {
    Region(Rd(words, h + OFF_OBJ), Rd(words, h + OFF_LENGTH), Rd(words, h + OFF_MACHINE))
  }

  /** The block a header describes: where it starts, and that it is the block a request of that length gets. */
  ghost predicate HeaderOk(l: Layout, words: map<nat, nat>, slot: nat, p: Pos)
    requires l.Wf()
  {
    var r := RegionAt(words, l.Hdr(slot));
    && InsideArena(l.arena, p)
    && r.offset == l.main + Address(l.arena, p)
    && r.length >= 1 && FitsDepth(l.arena, r.length, p.depth)
    && CString(NameAt(words, l.Hdr(slot)))
    && Rd(words, l.Hdr(slot) + OFF_SLOT_ID) == slot
  }

  ghost function LiveBlocks(l: Layout, blocks: seq<Pos>): set<Pos>
    requires l.Wf()
  {
    Elements(VirtualSlots(l.arena)) + Elements(blocks)
  }

  ghost predicate TreeOk(l: Layout, tree: seq<nat>, blocks: seq<Pos>)
    requires l.Wf()
  {
    && Shape(l.Order(), tree)
    && LiveSet(l.Order(), LiveBlocks(l, blocks))
    && Canonical(l.Order(), LiveBlocks(l, blocks), tree)
    && Distinct(blocks)
  }

  ghost function SlotSet(rec: nat, chain: seq<nat>): set<(nat, nat)> {
    set s | s in chain :: (rec, s)
  }

  lemma SlotSetExtend(rec: nat, chain: seq<nat>, slot: nat)
    ensures SlotSet(rec, chain + [slot]) == SlotSet(rec, chain) + {(rec, slot)}
  {
    forall x ensures x in SlotSet(rec, chain + [slot]) <==> x in SlotSet(rec, chain) || x == (rec, slot) {
      assert x.0 == rec && x.1 in chain ==> x in SlotSet(rec, chain);
      assert x.0 == rec && x.1 in chain + [slot] ==> x in SlotSet(rec, chain + [slot]);
    }
  }

  ghost predicate SlotsOk(l: Layout, m: Meta, chain: seq<nat>) {
    && m.slots == SlotSet(l.rec, chain)
    && Rd(m.words, l.rec + OFF_AVAILABLE) == NUM_OBJ_SLOTS - |chain|
  }

  ghost predicate NamesDiffer(l: Layout, words: map<nat, nat>, chain: seq<nat>) {
    forall i, j :: 0 <= i < j < |chain| ==>
      NameAt(words, l.Hdr(chain[i])) != NameAt(words, l.Hdr(chain[j]))
  }

  /** The protected state holds the headers `chain`, in list order, with their blocks. */
  ghost predicate PoolInv(l: Layout, m: Meta, chain: seq<nat>, blocks: seq<Pos>) {
    && l.Wf() && |blocks| == |chain| <= NUM_OBJ_SLOTS
    && Linked(l, m.words, chain)
    && SlotsOk(l, m, chain)
    && TreeOk(l, m.tree, blocks)
    && (forall i :: 0 <= i < |chain| ==> HeaderOk(l, m.words, chain[i], blocks[i]))
    && NamesDiffer(l, m.words, chain)
  }

  // One allocation --------------------------------------------------------------------------------

  /** `record_list_queue_append` of the header at `h`. */
  function AppendOps(l: Layout, words: map<nat, nat>, h: nat): (r: seq<Op>)
    ensures |r| == 2
  {
    [if Rd(words, l.head) == 0 then TwoVal(h + OFF_PREV, 0, l.head, h)
     else TwoVal(h + OFF_PREV, Rd(words, l.Tail()), Rd(words, l.Tail()) + OFF_NEXT, h),
     TwoVal(h + OFF_NEXT, 0, l.Tail(), h)]
  }

  /** The entries of one allocation, in the order `atomic_allocate_memory_lockheld` logs them. */
  function AllocOps(l: Layout, m: Meta, p: Pos, slot: nat, name: seq<nat>, length: nat): seq<Op>
    requires l.Wf() && BuddyPositions.Wf(l.Order(), p) && Rd(m.words, l.rec + OFF_AVAILABLE) >= 1
  {
    EntriesFor(l, m.words, p, l.main + Address(l.arena, p), slot, Rd(m.words, l.rec + OFF_AVAILABLE) - 1, name, length)
  }

  /** The entries for a block, its offset, a slot and the count of slots left. */
  function EntriesFor(l: Layout, w: map<nat, nat>, p: Pos, obj: nat, slot: nat, left: nat, name: seq<nat>,
                      length: nat): seq<Op> {
    [BuddyAlloc(p), HdrAlloc(l.rec, obj, length, slot, left, name, l.machine)] + AppendOps(l, w, l.Hdr(slot))
  }

  /** What holds when the entries are recorded. */
  ghost predicate CanAlloc(l: Layout, m: Meta, chain: seq<nat>, blocks: seq<Pos>,
                           p: Pos, slot: nat, name: seq<nat>, length: nat)
  {
    && PoolInv(l, m, chain, blocks) && |chain| < NUM_OBJ_SLOTS
    && slot < NUM_OBJ_SLOTS && slot !in chain
    && CString(name) && (forall i :: 0 <= i < |chain| ==> NameAt(m.words, l.Hdr(chain[i])) != name)
    && length >= 1 && FitsDepth(l.arena, length, p.depth)
    && BuddyPositions.Wf(l.Order(), p) && Free(l.Order(), LiveBlocks(l, blocks), p)
  }

  /** The word that links the new header into the list: the head, or the next word of the last header. */
  function LinkAt(l: Layout, words: map<nat, nat>): nat {
    if Rd(words, l.head) == 0 then l.head else Rd(words, l.Tail()) + OFF_NEXT
  }

  function PrevOf(l: Layout, words: map<nat, nat>): nat {
    if Rd(words, l.head) == 0 then 0 else Rd(words, l.Tail())
  }

  /** The stores of one allocation. */
  function AllocStores(l: Layout, m: Meta, p: Pos, slot: nat, name: seq<nat>, length: nat): (r: seq<Store>)
    requires l.Wf() && BuddyPositions.Wf(l.Order(), p) && Rd(m.words, l.rec + OFF_AVAILABLE) >= 1
    ensures |r| == |name| + 11
  {
    StoresFor(l, m.words, p, l.main + Address(l.arena, p), slot, Rd(m.words, l.rec + OFF_AVAILABLE) - 1, name, length)
  }

  function StoresFor(l: Layout, w: map<nat, nat>, p: Pos, obj: nat, slot: nat, left: nat, name: seq<nat>,
                     length: nat): (r: seq<Store>)
    ensures |r| == |name| + 11
  {
    BlockStores(l, p, obj, slot, left, length) + MetaStores.Bytes(l.Hdr(slot) + OFF_PROG_ID, name)
    + LinkStores(l, w, l.Hdr(slot))
  }

  function SlotStores(l: Layout, obj: nat, slot: nat, left: nat, length: nat): seq<Store> {
    var h := l.Hdr(slot);
    [SlotBit(l.rec, slot, true), Word(l.rec + OFF_AVAILABLE, left), Word(h + OFF_OBJ, obj),
     Word(h + OFF_LENGTH, length), Word(h + OFF_MACHINE, l.machine), Word(h + OFF_SLOT_ID, slot)]
  }

  function BlockStores(l: Layout, p: Pos, obj: nat, slot: nat, left: nat, length: nat): seq<Store> {
    [TreeMark(p)] + SlotStores(l, obj, slot, left, length)
  }

  function LinkStores(l: Layout, w: map<nat, nat>, h: nat): seq<Store> {
    [Word(h + OFF_PREV, PrevOf(l, w)), Word(LinkAt(l, w), h), Word(h + OFF_NEXT, 0), Word(l.Tail(), h)]
  }

  lemma AllocStoresAre(l: Layout, m: Meta, p: Pos, slot: nat, name: seq<nat>, length: nat)
    requires l.Wf() && BuddyPositions.Wf(l.Order(), p) && Rd(m.words, l.rec + OFF_AVAILABLE) >= 1
    requires LinkAt(l, m.words) != 0
    ensures AllStores(AllocOps(l, m, p, slot, name, length)) == AllocStores(l, m, p, slot, name, length)
  {
    hide StoresFor, EntriesFor, AllStores, Address, Layout.Wf, LinkAt;
    RecBound(l);
    StoresForEntries(l, m.words, p, l.main + Address(l.arena, p), slot, Rd(m.words, l.rec + OFF_AVAILABLE) - 1, name, length);
  }

  lemma RecBound(l: Layout)
    requires l.Wf()
    ensures l.rec >= 16
  {
  }

  lemma StoresForEntries(l: Layout, w: map<nat, nat>, p: Pos, obj: nat, slot: nat, left: nat, name: seq<nat>,
                         length: nat)
    requires l.rec >= 16 && LinkAt(l, w) != 0
    ensures AllStores(EntriesFor(l, w, p, obj, slot, left, name, length)) == StoresFor(l, w, p, obj, slot, left, name, length)
  {
    var h, header := l.Hdr(slot), HdrAlloc(l.rec, obj, length, slot, left, name, l.machine);
    var links := AppendOps(l, w, h);
    assert h != 0;
    hide StoresOf, SlotStores, LinkStores, AllStores, AppendOps, MetaStores.Bytes, LinkAt, Header;
    TwoMore([BuddyAlloc(p), header], links);
    FourStores(BuddyAlloc(p), header, links[0], links[1]);
    HeaderStoresAre(l, obj, slot, left, name, length);
    LinkStoresAre(l, w, h);
    MarkStores(p);
    Glue([TreeMark(p)], SlotStores(l, obj, slot, left, length), MetaStores.Bytes(h + OFF_PROG_ID, name),
         StoresOf(links[0]), StoresOf(links[1]));
  }

  lemma TwoMore(a: seq<Op>, b: seq<Op>)
    requires |a| == 2 && |b| == 2
    ensures a + b == [a[0], a[1], b[0], b[1]]
  {
  }

  lemma MarkStores(p: Pos)
    ensures StoresOf(BuddyAlloc(p)) == [TreeMark(p)]
  {
  }

  lemma HeaderStoresAre(l: Layout, obj: nat, slot: nat, left: nat, name: seq<nat>, length: nat)
    requires l.rec != 0
    ensures StoresOf(HdrAlloc(l.rec, obj, length, slot, left, name, l.machine))
         == SlotStores(l, obj, slot, left, length) + MetaStores.Bytes(l.Hdr(slot) + OFF_PROG_ID, name)
  {
  }

  lemma LinkStoresAre(l: Layout, w: map<nat, nat>, h: nat)
    requires h != 0 && LinkAt(l, w) != 0
    ensures StoresOf(AppendOps(l, w, h)[0]) + StoresOf(AppendOps(l, w, h)[1]) == LinkStores(l, w, h)
  {
  }

  lemma Glue(a: seq<Store>, b: seq<Store>, c: seq<Store>, d: seq<Store>, e: seq<Store>)
    ensures a + (b + c) + d + e == (a + b) + c + (d + e)
  {
  }

  lemma FourStores(a: Op, b: Op, c: Op, d: Op)
    ensures AllStores([a, b, c, d]) == StoresOf(a) + StoresOf(b) + StoresOf(c) + StoresOf(d)
  {
    AllStoresCons(a, [b, c, d]);
    AllStoresCons(b, [c, d]);
    AllStoresCons(c, [d]);
    AllStoresCons(d, []);
    assert [a] + [b, c, d] == [a, b, c, d];
    assert [b] + [c, d] == [b, c, d];
    assert [c] + [d] == [c, d];
    assert [d] + [] == [d];
    Reassociate(StoresOf(a), StoresOf(b), StoresOf(c), StoresOf(d));
  }

  lemma Reassociate(a: seq<Store>, b: seq<Store>, c: seq<Store>, d: seq<Store>)
    ensures a + (b + (c + (d + []))) == a + b + c + d
  {
  }

  /** The addresses an allocation stores to, by the index of the store. */
  function AllocAddr(l: Layout, words: map<nat, nat>, slot: nat, n: nat, i: nat): nat {
    var h := l.Hdr(slot);
    if i == 2 then l.rec + OFF_AVAILABLE
    else if i == 3 then h + OFF_OBJ
    else if i == 4 then h + OFF_LENGTH
    else if i == 5 then h + OFF_MACHINE
    else if i == 6 then h + OFF_SLOT_ID
    else if i < 7 + n then h + OFF_PROG_ID + (i - 7)
    else if i == 7 + n then h + OFF_PREV
    else if i == 8 + n then LinkAt(l, words)
    else if i == 9 + n then h + OFF_NEXT
    else l.Tail()
  }

  lemma AllocStoreAt(l: Layout, m: Meta, p: Pos, slot: nat, name: seq<nat>, length: nat, i: nat)
    requires l.Wf() && BuddyPositions.Wf(l.Order(), p) && Rd(m.words, l.rec + OFF_AVAILABLE) >= 1
    requires 2 <= i < |name| + 11
    ensures var s := AllocStores(l, m, p, slot, name, length)[i];
            s.Word? && s.addr == AllocAddr(l, m.words, slot, |name|, i)
  {
  }

  /** The tail of a non-empty list is the header of another slot. */
  lemma LinkIsElsewhere(l: Layout, m: Meta, chain: seq<nat>, slot: nat)
    requires l.Wf() && Linked(l, m.words, chain) && slot < NUM_OBJ_SLOTS && slot !in chain
    ensures LinkAt(l, m.words) == l.head
         || exists t: nat :: t < NUM_OBJ_SLOTS && t != slot && LinkAt(l, m.words) == l.Hdr(t)
  {
    if chain != [] {
      var t := chain[|chain| - 1];
      assert t in chain;
      assert LinkAt(l, m.words) == l.Hdr(t);
    }
  }

  lemma AllocAddrsDiffer(l: Layout, m: Meta, chain: seq<nat>, slot: nat, n: nat, i: nat, j: nat)
    requires l.Wf() && Linked(l, m.words, chain) && slot < NUM_OBJ_SLOTS && slot !in chain
    requires n <= PROG_ID_SIZE && 2 <= i < j < n + 11
    ensures AllocAddr(l, m.words, slot, n, i) != AllocAddr(l, m.words, slot, n, j)
  {
    LinkIsElsewhere(l, m, chain, slot);
  }

  lemma AllocIndependent(l: Layout, m: Meta, chain: seq<nat>, p: Pos, slot: nat, name: seq<nat>, length: nat)
    requires l.Wf() && Linked(l, m.words, chain) && slot < NUM_OBJ_SLOTS && slot !in chain
    requires BuddyPositions.Wf(l.Order(), p) && Rd(m.words, l.rec + OFF_AVAILABLE) >= 1 && CString(name)
    ensures Independent(AllocStores(l, m, p, slot, name, length))
    ensures AllStorable(l.Order(), AllocStores(l, m, p, slot, name, length))
  {
    var ss := AllocStores(l, m, p, slot, name, length);
    forall i, j | 0 <= i < j < |ss| ensures Apart(ss[i], ss[j]) {
      if j >= 2 {
        AllocStoreAt(l, m, p, slot, name, length, j);
      }
      if i >= 2 {
        AllocStoreAt(l, m, p, slot, name, length, i);
        AllocAddrsDiffer(l, m, chain, slot, |name|, i, j);
      }
    }
    forall i | 0 <= i < |ss| ensures Storable(l.Order(), ss[i]) {
      if i >= 2 {
        AllocStoreAt(l, m, p, slot, name, length, i);
      }
    }
  }

  /** An allocation is an update: its entries can be logged and its stores hit different places. */
  lemma AllocIsUpdate(l: Layout, m: Meta, chain: seq<nat>, blocks: seq<Pos>,
                      p: Pos, slot: nat, name: seq<nat>, length: nat)
    requires CanAlloc(l, m, chain, blocks, p, slot, name, length)
    ensures CrashRecovery.Update(l.Order(), AllocOps(l, m, p, slot, name, length))
    ensures Halt !in AllStores(AllocOps(l, m, p, slot, name, length))
  {
    SlotsLeft(l, m, chain);
    LinkIsElsewhere(l, m, chain, slot);
    AllocStoresAre(l, m, p, slot, name, length);
    AllocIndependent(l, m, chain, p, slot, name, length);
    AllocOpsWf(l, m, p, slot, name, length);
    hide PoolInv, AllocOps, AllocStores, AllStores, Independent;
    CrashRecovery.PlainUpdate(l.Order(), AllocOps(l, m, p, slot, name, length));
  }

  lemma SlotsLeft(l: Layout, m: Meta, chain: seq<nat>)
    requires SlotsOk(l, m, chain) && |chain| < NUM_OBJ_SLOTS
    ensures Rd(m.words, l.rec + OFF_AVAILABLE) >= 1
  {
  }

  lemma AllocOpsWf(l: Layout, m: Meta, p: Pos, slot: nat, name: seq<nat>, length: nat)
    requires l.Wf() && BuddyPositions.Wf(l.Order(), p) && Rd(m.words, l.rec + OFF_AVAILABLE) >= 1 && CString(name)
    ensures var ops := AllocOps(l, m, p, slot, name, length);
            |ops| == 4 && forall i :: 0 <= i < |ops| ==> WfOp(ops[i])
  {
  }

  // What an allocation does ------------------------------------------------------------------------

  ghost predicate Touched(l: Layout, w: map<nat, nat>, slot: nat, a: nat) {
    || a == l.rec + OFF_AVAILABLE || l.Hdr(slot) <= a < l.Hdr(slot) + SIZEOF_HEADER
    || a == LinkAt(l, w) || a == l.Tail()
  }

  /** The words after an allocation. */
  ghost predicate WordsAfter(l: Layout, w: map<nat, nat>, w': map<nat, nat>,
                             slot: nat, name: seq<nat>, offset: nat, length: nat)
  {
    var h := l.Hdr(slot);
    && Rd(w', l.rec + OFF_AVAILABLE) == Rd(w, l.rec + OFF_AVAILABLE) - 1
    && RegionAt(w', h) == Region(offset, length, l.machine) && Rd(w', h + OFF_SLOT_ID) == slot
    && (forall i :: 0 <= i < |name| ==> Rd(w', h + OFF_PROG_ID + i) == name[i])
    && Rd(w', h + OFF_PREV) == PrevOf(l, w) && Rd(w', LinkAt(l, w)) == h
    && Rd(w', h + OFF_NEXT) == 0 && Rd(w', l.Tail()) == h
    && (forall a :: !Touched(l, w, slot, a) ==> Rd(w', a) == Rd(w, a))
  }

  /** Where the stores of an allocation land. */
  lemma AllocEffect(l: Layout, m: Meta, chain: seq<nat>, p: Pos, slot: nat, name: seq<nat>, length: nat)
    requires l.Wf() && Linked(l, m.words, chain) && slot < NUM_OBJ_SLOTS && slot !in chain
    requires BuddyPositions.Wf(l.Order(), p) && Rd(m.words, l.rec + OFF_AVAILABLE) >= 1 && CString(name)
    requires Shape(l.Order(), m.tree)
    ensures var ss := AllocStores(l, m, p, slot, name, length);
            && AllStorable(l.Order(), ss)
            && var r := ApplyAll(l.Order(), m, ss);
               && r.tree == Mark(l.Order(), m.tree, p)
               && r.slots == m.slots + {(l.rec, slot)}
               && WordsAfter(l, m.words, r.words, slot, name, l.main + Address(l.arena, p), length)
  {
    var o, ss := l.Order(), AllocStores(l, m, p, slot, name, length);
    AllocIndependent(l, m, chain, p, slot, name, length);
    AllocTreeAndSlots(o, l, m, p, slot, name, length);
    AllocRegionWords(l, m, p, slot, name, length);
    AllocSlotWords(l, m, p, slot, name, length);
    forall i | 0 <= i < |name|
      ensures Rd(ApplyAll(o, m, ss).words, l.Hdr(slot) + OFF_PROG_ID + i) == name[i]
    {
      AllocNameByte(l, m, p, slot, name, length, i);
    }
    AllocLinkWords(l, m, p, slot, name, length);
    forall a | !Touched(l, m.words, slot, a)
      ensures Rd(ApplyAll(o, m, ss).words, a) == Rd(m.words, a)
    {
      UntouchedKept(l, m, p, slot, name, length, a);
    }
  }

  lemma Lands(o: nat, m: Meta, ss: seq<Store>, i: nat, a: nat, v: nat)
    requires Shape(o, m.tree) && AllStorable(o, ss) && Independent(ss) && i < |ss| && ss[i] == Word(a, v)
    ensures Rd(ApplyAll(o, m, ss).words, a) == v
  {
    WordLands(o, m, ss, i);
  }

  lemma AllocRegionWords(l: Layout, m: Meta, p: Pos, slot: nat, name: seq<nat>, length: nat)
    requires l.Wf() && BuddyPositions.Wf(l.Order(), p) && Rd(m.words, l.rec + OFF_AVAILABLE) >= 1
    requires Shape(l.Order(), m.tree) && AllStorable(l.Order(), AllocStores(l, m, p, slot, name, length))
    requires Independent(AllocStores(l, m, p, slot, name, length))
    ensures var w' := ApplyAll(l.Order(), m, AllocStores(l, m, p, slot, name, length)).words;
            RegionAt(w', l.Hdr(slot)) == Region(l.main + Address(l.arena, p), length, l.machine)
  {
    hide Independent, AllStorable, Address, Header;
    var o, ss, h := l.Order(), AllocStores(l, m, p, slot, name, length), l.Hdr(slot);
    Lands(o, m, ss, 3, h + OFF_OBJ, l.main + Address(l.arena, p));
    Lands(o, m, ss, 4, h + OFF_LENGTH, length);
    Lands(o, m, ss, 5, h + OFF_MACHINE, l.machine);
  }

  lemma AllocSlotWords(l: Layout, m: Meta, p: Pos, slot: nat, name: seq<nat>, length: nat)
    requires l.Wf() && BuddyPositions.Wf(l.Order(), p) && Rd(m.words, l.rec + OFF_AVAILABLE) >= 1
    requires Shape(l.Order(), m.tree) && AllStorable(l.Order(), AllocStores(l, m, p, slot, name, length))
    requires Independent(AllocStores(l, m, p, slot, name, length))
    ensures var w' := ApplyAll(l.Order(), m, AllocStores(l, m, p, slot, name, length)).words;
            && Rd(w', l.rec + OFF_AVAILABLE) == Rd(m.words, l.rec + OFF_AVAILABLE) - 1
            && Rd(w', l.Hdr(slot) + OFF_SLOT_ID) == slot
  {
    hide Independent, AllStorable, Address, Header;
    var o, ss := l.Order(), AllocStores(l, m, p, slot, name, length);
    Lands(o, m, ss, 2, l.rec + OFF_AVAILABLE, Rd(m.words, l.rec + OFF_AVAILABLE) - 1);
    Lands(o, m, ss, 6, l.Hdr(slot) + OFF_SLOT_ID, slot);
  }

  lemma AllocNameByte(l: Layout, m: Meta, p: Pos, slot: nat, name: seq<nat>, length: nat, i: nat)
    requires l.Wf() && BuddyPositions.Wf(l.Order(), p) && Rd(m.words, l.rec + OFF_AVAILABLE) >= 1
    requires Shape(l.Order(), m.tree) && AllStorable(l.Order(), AllocStores(l, m, p, slot, name, length))
    requires Independent(AllocStores(l, m, p, slot, name, length)) && i < |name|
    ensures Rd(ApplyAll(l.Order(), m, AllocStores(l, m, p, slot, name, length)).words,
               l.Hdr(slot) + OFF_PROG_ID + i) == name[i]
  {
    hide ApplyAll, Independent, Shape, Address;
    Lands(l.Order(), m, AllocStores(l, m, p, slot, name, length), 7 + i, l.Hdr(slot) + OFF_PROG_ID + i, name[i]);
  }

  lemma AllocLinkWords(l: Layout, m: Meta, p: Pos, slot: nat, name: seq<nat>, length: nat)
    requires l.Wf() && BuddyPositions.Wf(l.Order(), p) && Rd(m.words, l.rec + OFF_AVAILABLE) >= 1
    requires Shape(l.Order(), m.tree) && AllStorable(l.Order(), AllocStores(l, m, p, slot, name, length))
    requires Independent(AllocStores(l, m, p, slot, name, length))
    ensures var w', h := ApplyAll(l.Order(), m, AllocStores(l, m, p, slot, name, length)).words, l.Hdr(slot);
            && Rd(w', h + OFF_PREV) == PrevOf(l, m.words) && Rd(w', LinkAt(l, m.words)) == h
            && Rd(w', h + OFF_NEXT) == 0 && Rd(w', l.Tail()) == h
  {
    hide Independent, AllStorable, Address, Header;
    var o, ss, h, n := l.Order(), AllocStores(l, m, p, slot, name, length), l.Hdr(slot), |name|;
    Lands(o, m, ss, 7 + n, h + OFF_PREV, PrevOf(l, m.words));
    Lands(o, m, ss, 8 + n, LinkAt(l, m.words), h);
    Lands(o, m, ss, 9 + n, h + OFF_NEXT, 0);
    Lands(o, m, ss, 10 + n, l.Tail(), h);
  }

  lemma UntouchedKept(l: Layout, m: Meta, p: Pos, slot: nat, name: seq<nat>, length: nat, a: nat)
    requires l.Wf() && BuddyPositions.Wf(l.Order(), p) && Rd(m.words, l.rec + OFF_AVAILABLE) >= 1 && CString(name)
    requires Shape(l.Order(), m.tree) && AllStorable(l.Order(), AllocStores(l, m, p, slot, name, length))
    requires !Touched(l, m.words, slot, a)
    ensures Rd(ApplyAll(l.Order(), m, AllocStores(l, m, p, slot, name, length)).words, a) == Rd(m.words, a)
  {
    var ss := AllocStores(l, m, p, slot, name, length);
    forall i | 0 <= i < |ss| ensures !(ss[i].Word? && ss[i].addr == a) {
      if i >= 2 {
        AllocStoreAt(l, m, p, slot, name, length, i);
      }
    }
    WordKept(l.Order(), m, ss, a);
  }

  lemma AllocTreeAndSlots(o: nat, l: Layout, m: Meta, p: Pos, slot: nat, name: seq<nat>, length: nat)
    requires l.Wf() && o == l.Order() && BuddyPositions.Wf(o, p) && Rd(m.words, l.rec + OFF_AVAILABLE) >= 1
    requires Shape(o, m.tree) && AllStorable(o, AllocStores(l, m, p, slot, name, length))
    ensures var r := ApplyAll(o, m, AllocStores(l, m, p, slot, name, length));
            r.tree == Mark(o, m.tree, p) && r.slots == m.slots + {(l.rec, slot)}
  {
    var ss := AllocStores(l, m, p, slot, name, length);
    assert ss[0] == TreeMark(p) && ss[1] == SlotBit(l.rec, slot, true);
    forall i | 2 <= i < |ss| ensures ss[i].Word? {
      AllocStoreAt(l, m, p, slot, name, length, i);
    }
    TwoThenWords(o, m, ss);
  }

  /** Two stores of any kind followed by stores to words. */
  lemma TwoThenWords(o: nat, m: Meta, ss: seq<Store>)
    requires Shape(o, m.tree) && AllStorable(o, ss) && |ss| >= 2 && forall i :: 2 <= i < |ss| ==> ss[i].Word?
    ensures var two := Apply(o, Apply(o, m, ss[0]), ss[1]); var r := ApplyAll(o, m, ss);
            r.tree == two.tree && r.slots == two.slots
  {
    var tail := ss[1..];
    var rest := tail[1..];
    assert tail[0] == ss[1];
    forall i | 0 <= i < |rest| ensures rest[i].Word? {
      assert rest[i] == ss[i + 2];
    }
    WordsOnly(o, Apply(o, Apply(o, m, ss[0]), ss[1]), rest);
  }

  // The invariant is kept ----------------------------------------------------------------------------

  lemma HeaderUntouched(l: Layout, w: map<nat, nat>, chain: seq<nat>, slot: nat, t: nat, k: nat)
    requires l.Wf() && Linked(l, w, chain) && slot < NUM_OBJ_SLOTS && slot !in chain
    requires t in chain && k < SIZEOF_HEADER
    ensures k > OFF_NEXT || t != chain[|chain| - 1] ==> !Touched(l, w, slot, l.Hdr(t) + k)
  {
    var last := chain[|chain| - 1];
    assert last in chain && last < NUM_OBJ_SLOTS;
    assert LinkAt(l, w) == l.Hdr(last);
  }

  lemma AppendLinks(l: Layout, w: map<nat, nat>, w': map<nat, nat>, chain: seq<nat>,
                    slot: nat, name: seq<nat>, offset: nat, length: nat)
    requires l.Wf() && Linked(l, w, chain) && slot < NUM_OBJ_SLOTS && slot !in chain
    requires WordsAfter(l, w, w', slot, name, offset, length)
    ensures Linked(l, w', chain + [slot])
  {
    var chain' := chain + [slot];
    forall i | 0 <= i < |chain'| ensures NextOk(l, w', chain', i) && PrevOk(l, w', chain', i) {
      if i < |chain| {
        assert chain'[i] == chain[i] && chain[i] in chain;
        HeaderUntouched(l, w, chain, slot, chain[i], OFF_NEXT);
        HeaderUntouched(l, w, chain, slot, chain[i], OFF_PREV);
        assert NextOk(l, w, chain, i) && PrevOk(l, w, chain, i);
        if i == |chain| - 1 {
          assert LinkAt(l, w) == l.Hdr(chain[i]);
        } else {
          assert chain[i] != chain[|chain| - 1];
        }
      }
    }
    if chain != [] {
      HeadUntouched(l, w, chain, slot);
    }
  }

  lemma HeadUntouched(l: Layout, w: map<nat, nat>, chain: seq<nat>, slot: nat)
    requires l.Wf() && Linked(l, w, chain) && chain != [] && slot < NUM_OBJ_SLOTS
    ensures !Touched(l, w, slot, l.head)
  {
    var last := chain[|chain| - 1];
    assert last < NUM_OBJ_SLOTS && LinkAt(l, w) == l.Hdr(last);
  }

  lemma HeaderKept(l: Layout, w: map<nat, nat>, w': map<nat, nat>, chain: seq<nat>,
                   slot: nat, name: seq<nat>, offset: nat, length: nat, t: nat)
    requires l.Wf() && Linked(l, w, chain) && slot < NUM_OBJ_SLOTS && slot !in chain && t in chain
    requires WordsAfter(l, w, w', slot, name, offset, length)
    ensures NameAt(w', l.Hdr(t)) == NameAt(w, l.Hdr(t)) && RegionAt(w', l.Hdr(t)) == RegionAt(w, l.Hdr(t))
    ensures Rd(w', l.Hdr(t) + OFF_SLOT_ID) == Rd(w, l.Hdr(t) + OFF_SLOT_ID)
  {
    HeaderUntouched(l, w, chain, slot, t, OFF_OBJ);
    HeaderUntouched(l, w, chain, slot, t, OFF_LENGTH);
    HeaderUntouched(l, w, chain, slot, t, OFF_MACHINE);
    HeaderUntouched(l, w, chain, slot, t, OFF_SLOT_ID);
    NameKept(l, w, w', chain, slot, name, offset, length, t);
    hide Linked;
  }

  lemma NameKept(l: Layout, w: map<nat, nat>, w': map<nat, nat>, chain: seq<nat>,
                 slot: nat, name: seq<nat>, offset: nat, length: nat, t: nat)
    requires l.Wf() && Linked(l, w, chain) && slot < NUM_OBJ_SLOTS && slot !in chain && t in chain
    requires WordsAfter(l, w, w', slot, name, offset, length)
    ensures NameAt(w', l.Hdr(t)) == NameAt(w, l.Hdr(t))
  {
    forall i | 0 <= i < PROG_ID_SIZE ensures NameBytes(w', l.Hdr(t))[i] == NameBytes(w, l.Hdr(t))[i] {
      HeaderUntouched(l, w, chain, slot, t, OFF_PROG_ID + i);
    }
    assert NameBytes(w', l.Hdr(t)) == NameBytes(w, l.Hdr(t));
  }

  /** The name written into a header is read back. */
  lemma NameReadBack(w: map<nat, nat>, h: nat, name: seq<nat>)
    requires CString(name) && forall i :: 0 <= i < |name| ==> Rd(w, h + OFF_PROG_ID + i) == name[i]
    ensures NameAt(w, h) == name
  {
    TextReadBack(NameBytes(w, h), name);
  }

  lemma AllocTree(l: Layout, tree: seq<nat>, blocks: seq<Pos>, p: Pos)
    requires l.Wf() && TreeOk(l, tree, blocks)
    requires BuddyPositions.Wf(l.Order(), p) && Free(l.Order(), LiveBlocks(l, blocks), p)
    ensures TreeOk(l, Mark(l.Order(), tree, p), blocks + [p])
  {
    var live := LiveBlocks(l, blocks);
    MarkIsCanonical(l.Order(), live, tree, p);
    FreeIsUncovered(l.Order(), live, p);
    assert LiveBlocks(l, blocks + [p]) == live + {p};
    forall i | 0 <= i < |blocks| ensures blocks[i] != p {
      assert blocks[i] in live;
    }
  }

  lemma AllocSlots(l: Layout, m: Meta, m': Meta, chain: seq<nat>, slot: nat)
    requires SlotsOk(l, m, chain) && slot !in chain && |chain| < NUM_OBJ_SLOTS
    requires m'.slots == m.slots + {(l.rec, slot)}
    requires Rd(m'.words, l.rec + OFF_AVAILABLE) == Rd(m.words, l.rec + OFF_AVAILABLE) - 1
    ensures SlotsOk(l, m', chain + [slot])
  {
    SlotSetExtend(l.rec, chain, slot);
  }

  ghost function AfterAlloc(l: Layout, m: Meta, p: Pos, slot: nat, name: seq<nat>, length: nat): Meta
    requires l.Wf() && BuddyPositions.Wf(l.Order(), p) && Rd(m.words, l.rec + OFF_AVAILABLE) >= 1
    requires Shape(l.Order(), m.tree) && AllPlaced(l.Order(), AllStores(AllocOps(l, m, p, slot, name, length)))
  {
    RunStores(l.Order(), m, AllStores(AllocOps(l, m, p, slot, name, length))).meta
  }

  /** The directory a pool holds: its regions by name. */
  ghost function Dir(l: Layout, words: map<nat, nat>, chain: seq<nat>): map<seq<nat>, Region> {
    if chain == [] then map[]
    else
      var last := chain[|chain| - 1];
      Dir(l, words, chain[..|chain| - 1])[NameAt(words, l.Hdr(last)) := RegionAt(words, l.Hdr(last))]
  }

  lemma {:induction false} DirKept(l: Layout, w: map<nat, nat>, w': map<nat, nat>, chain: seq<nat>)
    requires forall i :: 0 <= i < |chain| ==> SameHeader(l, w, w', chain[i])
    ensures Dir(l, w', chain) == Dir(l, w, chain)
    decreases |chain|
  {
    if chain != [] {
      assert SameHeader(l, w, w', chain[|chain| - 1]);
      DirKept(l, w, w', chain[..|chain| - 1]);
    }
  }

  ghost predicate SameHeader(l: Layout, w: map<nat, nat>, w': map<nat, nat>, t: nat) {
    && NameAt(w', l.Hdr(t)) == NameAt(w, l.Hdr(t)) && RegionAt(w', l.Hdr(t)) == RegionAt(w, l.Hdr(t))
    && Rd(w', l.Hdr(t) + OFF_SLOT_ID) == Rd(w, l.Hdr(t) + OFF_SLOT_ID)
  }

  /** The directory holds a header's name with its region, and no other name. */
  lemma {:induction false} DirHas(l: Layout, words: map<nat, nat>, chain: seq<nat>, name: seq<nat>)
    requires NamesDiffer(l, words, chain)
    ensures name in Dir(l, words, chain) <==> exists i :: 0 <= i < |chain| && NameAt(words, l.Hdr(chain[i])) == name
    ensures forall i :: 0 <= i < |chain| && NameAt(words, l.Hdr(chain[i])) == name
              ==> name in Dir(l, words, chain) && Dir(l, words, chain)[name] == RegionAt(words, l.Hdr(chain[i]))
    decreases |chain|
  {
    if chain != [] {
      var n := |chain| - 1;
      var rest := chain[..n];
      DirHas(l, words, rest, name);
      assert NameAt(words, l.Hdr(chain[n])) == name ==> forall i :: 0 <= i < n ==> NameAt(words, l.Hdr(rest[i])) != name;
      if i :| 0 <= i < n && NameAt(words, l.Hdr(rest[i])) == name {
        assert chain[i] == rest[i];
      }
      forall i | 0 <= i < |chain| && NameAt(words, l.Hdr(chain[i])) == name
        ensures name in Dir(l, words, chain) && Dir(l, words, chain)[name] == RegionAt(words, l.Hdr(chain[i]))
      {
        if i < n {
          assert rest[i] == chain[i];
        }
      }
    }
  }

  lemma AllocDir(l: Layout, w: map<nat, nat>, w': map<nat, nat>, chain: seq<nat>, slot: nat, name: seq<nat>, r: Region)
    requires forall i :: 0 <= i < |chain| ==> SameHeader(l, w, w', chain[i])
    requires NameAt(w', l.Hdr(slot)) == name && RegionAt(w', l.Hdr(slot)) == r
    ensures Dir(l, w', chain + [slot]) == Dir(l, w, chain)[name := r]
  {
    DirKept(l, w, w', chain);
    assert (chain + [slot])[..|chain|] == chain;
  }

  /** What the stores of an allocation leave, in the terms of the invariant. */
  lemma AllocLeaves(l: Layout, m: Meta, chain: seq<nat>, blocks: seq<Pos>,
                    p: Pos, slot: nat, name: seq<nat>, length: nat) returns (m': Meta)
    requires CanAlloc(l, m, chain, blocks, p, slot, name, length)
    ensures Rd(m.words, l.rec + OFF_AVAILABLE) >= 1
    ensures CrashRecovery.Update(l.Order(), AllocOps(l, m, p, slot, name, length))
    ensures m' == AfterAlloc(l, m, p, slot, name, length)
    ensures m'.tree == Mark(l.Order(), m.tree, p)
    ensures m'.slots == m.slots + {(l.rec, slot)}
    ensures WordsAfter(l, m.words, m'.words, slot, name, l.main + Address(l.arena, p), length)
  {
    SlotsLeft(l, m, chain);
    AllocIsUpdate(l, m, chain, blocks, p, slot, name, length);
    LinkIsElsewhere(l, m, chain, slot);
    AllocStoresAre(l, m, p, slot, name, length);
    AllocEffect(l, m, chain, p, slot, name, length);
    RunStoresExact(l.Order(), m, AllStores(AllocOps(l, m, p, slot, name, length)));
    m' := AfterAlloc(l, m, p, slot, name, length);
  }

  lemma KeptHeaders(l: Layout, w: map<nat, nat>, w': map<nat, nat>, chain: seq<nat>,
                    slot: nat, name: seq<nat>, offset: nat, length: nat)
    requires l.Wf() && Linked(l, w, chain) && slot < NUM_OBJ_SLOTS && slot !in chain
    requires WordsAfter(l, w, w', slot, name, offset, length)
    ensures forall i :: 0 <= i < |chain| ==> SameHeader(l, w, w', chain[i])
  {
    forall i | 0 <= i < |chain| ensures SameHeader(l, w, w', chain[i]) {
      HeaderKept(l, w, w', chain, slot, name, offset, length, chain[i]);
    }
  }

  lemma NewHeader(l: Layout, w: map<nat, nat>, w': map<nat, nat>, slot: nat, p: Pos, name: seq<nat>, length: nat)
    requires l.Wf() && InsideArena(l.arena, p)
    requires WordsAfter(l, w, w', slot, name, l.main + Address(l.arena, p), length)
    requires CString(name) && length >= 1 && FitsDepth(l.arena, length, p.depth)
    ensures HeaderOk(l, w', slot, p) && NameAt(w', l.Hdr(slot)) == name
    ensures RegionAt(w', l.Hdr(slot)) == Region(l.main + Address(l.arena, p), length, l.machine)
  {
    NameReadBack(w', l.Hdr(slot), name);
  }

  /** A pool taken apart. */
  ghost predicate Parts(l: Layout, m: Meta, chain: seq<nat>, blocks: seq<Pos>) {
    && l.Wf() && |blocks| == |chain| <= NUM_OBJ_SLOTS && SlotChain(chain) && Distinct(blocks) && Shape(l.Order(), m.tree)
    && Linked(l, m.words, chain) && SlotsOk(l, m, chain) && TreeOk(l, m.tree, blocks) && NamesDiffer(l, m.words, chain)
    && (forall i :: 0 <= i < |chain| ==> HeaderOk(l, m.words, chain[i], blocks[i]) && InsideArena(l.arena, blocks[i]))
  }

  lemma PoolParts(l: Layout, m: Meta, chain: seq<nat>, blocks: seq<Pos>)
    ensures PoolInv(l, m, chain, blocks) <==> Parts(l, m, chain, blocks)
  {
    hide SlotsOk, NamesDiffer, InsideArena, NextOk, PrevOk, LiveSet, Canonical;
    if l.Wf() && |blocks| == |chain| {
      forall i | 0 <= i < |chain| && HeaderOk(l, m.words, chain[i], blocks[i]) ensures InsideArena(l.arena, blocks[i]) {
      }
    }
  }

  lemma PoolWhole(l: Layout, m: Meta, chain: seq<nat>, blocks: seq<Pos>)
    requires l.Wf() && |blocks| == |chain| <= NUM_OBJ_SLOTS
    requires Linked(l, m.words, chain) && SlotsOk(l, m, chain) && TreeOk(l, m.tree, blocks) && NamesDiffer(l, m.words, chain)
    requires forall i :: 0 <= i < |chain| ==> HeaderOk(l, m.words, chain[i], blocks[i])
    ensures PoolInv(l, m, chain, blocks)
  {
    hide Linked, SlotsOk, TreeOk, NamesDiffer, HeaderOk, Layout.Wf;
  }

  lemma AllocFacts(l: Layout, m: Meta, chain: seq<nat>, blocks: seq<Pos>, p: Pos, slot: nat, name: seq<nat>, length: nat)
    requires CanAlloc(l, m, chain, blocks, p, slot, name, length)
    ensures l.Wf() && BuddyPositions.Wf(l.Order(), p) && Rd(m.words, l.rec + OFF_AVAILABLE) >= 1
    ensures CString(name) && length >= 1 && FitsDepth(l.arena, length, p.depth)
    ensures Parts(l, m, chain, blocks) && |chain| < NUM_OBJ_SLOTS && slot < NUM_OBJ_SLOTS && slot !in chain
    ensures Free(l.Order(), LiveBlocks(l, blocks), p)
    ensures forall i :: 0 <= i < |chain| ==> NameAt(m.words, l.Hdr(chain[i])) != name
  {
    hide PoolInv, FitsDepth, CString, Linked, TreeOk, HeaderOk, NamesDiffer, NameAt;
    PoolParts(l, m, chain, blocks);
    SlotsLeft(l, m, chain);
    assert LiveSet(l.Order(), LiveBlocks(l, blocks)) by {
      TreeIsLive(l, m.tree, blocks);
    }
  }

  lemma TreeIsLive(l: Layout, tree: seq<nat>, blocks: seq<Pos>)
    requires l.Wf() && TreeOk(l, tree, blocks)
    ensures LiveSet(l.Order(), LiveBlocks(l, blocks))
  {
  }

  /** One allocation takes the pool to the pool with one more header. */
  lemma AllocKeepsInv(l: Layout, m: Meta, chain: seq<nat>, blocks: seq<Pos>,
                      p: Pos, slot: nat, name: seq<nat>, length: nat)
    requires CanAlloc(l, m, chain, blocks, p, slot, name, length)
    requires InsideArena(l.arena, p)
    ensures Rd(m.words, l.rec + OFF_AVAILABLE) >= 1
    ensures CrashRecovery.Update(l.Order(), AllocOps(l, m, p, slot, name, length))
    ensures PoolInv(l, AfterAlloc(l, m, p, slot, name, length), chain + [slot], blocks + [p])
    ensures Dir(l, AfterAlloc(l, m, p, slot, name, length).words, chain + [slot])
         == Dir(l, m.words, chain)[name := Region(l.main + Address(l.arena, p), length, l.machine)]
  {
    hide CanAlloc, PoolInv, Linked, SlotsOk, TreeOk, HeaderOk, NamesDiffer, SameHeader, Address, Dir, Mark, AllStores,
         AllocOps,
         CrashRecovery.Update, InsideArena, FitsDepth, NameAt, RegionAt, Free, LiveBlocks, CString, Touched, Layout.Wf;
    AllocFacts(l, m, chain, blocks, p, slot, name, length);
    var m' := AllocLeaves(l, m, chain, blocks, p, slot, name, length);
    var offset := l.main + Address(l.arena, p);
    KeptHeaders(l, m.words, m'.words, chain, slot, name, offset, length);
    NewHeader(l, m.words, m'.words, slot, p, name, length);
    AllocDir(l, m.words, m'.words, chain, slot, name, Region(offset, length, l.machine));
    AppendLinks(l, m.words, m'.words, chain, slot, name, offset, length);
    AllocSlots(l, m, m', chain, slot);
    AllocTree(l, m.tree, blocks, p);
    HeadersExtend(l, m.words, m'.words, chain, blocks, slot, p);
    NamesExtend(l, m.words, m'.words, chain, slot, name);
    PoolWhole(l, m', chain + [slot], blocks + [p]);
  }

  lemma HeadersExtend(l: Layout, w: map<nat, nat>, w': map<nat, nat>, chain: seq<nat>, blocks: seq<Pos>, slot: nat,
                      p: Pos)
    requires l.Wf() && |chain| == |blocks| && forall i :: 0 <= i < |chain| ==> HeaderOk(l, w, chain[i], blocks[i])
    requires forall i :: 0 <= i < |chain| ==> SameHeader(l, w, w', chain[i])
    requires HeaderOk(l, w', slot, p)
    ensures forall i :: 0 <= i < |chain + [slot]| ==> HeaderOk(l, w', (chain + [slot])[i], (blocks + [p])[i])
  {
    hide HeaderOk, SameHeader;
    forall i | 0 <= i < |chain| ensures HeaderOk(l, w', chain[i], blocks[i]) {
      SameHeaderIsOk(l, w, w', chain[i], blocks[i]);
    }
  }

  lemma SameHeaderIsOk(l: Layout, w: map<nat, nat>, w': map<nat, nat>, slot: nat, p: Pos)
    requires l.Wf() && HeaderOk(l, w, slot, p) && SameHeader(l, w, w', slot)
    ensures HeaderOk(l, w', slot, p)
  {
  }

  lemma NamesExtend(l: Layout, w: map<nat, nat>, w': map<nat, nat>, chain: seq<nat>, slot: nat, name: seq<nat>)
    requires NamesDiffer(l, w, chain) && forall i :: 0 <= i < |chain| ==> SameHeader(l, w, w', chain[i])
    requires NameAt(w', l.Hdr(slot)) == name
    requires forall i :: 0 <= i < |chain| ==> NameAt(w, l.Hdr(chain[i])) != name
    ensures NamesDiffer(l, w', chain + [slot])
  {
    var chain' := chain + [slot];
    forall i, j | 0 <= i < j < |chain'|
      ensures NameAt(w', l.Hdr(chain'[i])) != NameAt(w', l.Hdr(chain'[j]))
    {
      assert SameHeader(l, w, w', chain[i]);
      if j < |chain| {
        assert SameHeader(l, w, w', chain[j]);
      }
    }
  }

  /** One allocation as an update, with the records that the log held before. */
  ghost function AllocContext(l: Layout, csum: CrashRecovery.Checksum, last: seq<Entry>, stale: seq<Entry>,
                              m: Meta, p: Pos, slot: nat, name: seq<nat>, length: nat): CrashRecovery.Context
    requires l.Wf() && BuddyPositions.Wf(l.Order(), p) && Rd(m.words, l.rec + OFF_AVAILABLE) >= 1
  {
    CrashRecovery.Context(l.Order(), csum, AllocOps(l, m, p, slot, name, length), m, last, stale)
  }

  /** The state is that of some pool. */
  ghost predicate IsPool(l: Layout, m: Meta) {
    exists chain, blocks :: PoolInv(l, m, chain, blocks)
  }

  /** The headers determine the blocks. */
  lemma SameBlocks(l: Layout, words: map<nat, nat>, chain: seq<nat>, blocks: seq<Pos>, chain': seq<nat>, blocks': seq<Pos>)
    requires l.Wf() && |blocks| == |chain| && |blocks'| == |chain'| && forall s :: s in chain ==> s in chain'
    requires forall i :: 0 <= i < |chain| ==> HeaderOk(l, words, chain[i], blocks[i])
    requires forall i :: 0 <= i < |chain'| ==> HeaderOk(l, words, chain'[i], blocks'[i])
    ensures forall p :: p in blocks ==> p in blocks'
  {
    hide HeaderOk, Layout.Wf;
    forall p | p in blocks ensures p in blocks' {
      var i :| 0 <= i < |blocks| && blocks[i] == p;
      assert chain[i] in chain';
      var j :| 0 <= j < |chain'| && chain'[j] == chain[i];
      HeaderBlock(l, words, chain[i], p, blocks'[j]);
    }
  }

  lemma HeaderBlock(l: Layout, words: map<nat, nat>, slot: nat, p: Pos, q: Pos)
    requires l.Wf() && HeaderOk(l, words, slot, p) && HeaderOk(l, words, slot, q)
    ensures p == q
  {
    FitsDepthUnique(l.arena, RegionAt(words, l.Hdr(slot)).length, p.depth, q.depth);
    SameBlock(l.arena, p, q);
  }

  /** Two pools with the same headers have the same tree. */
  lemma SameTree(l: Layout, m: Meta, chain: seq<nat>, blocks: seq<Pos>, tree: seq<nat>, chain': seq<nat>, blocks': seq<Pos>)
    requires PoolInv(l, m, chain, blocks) && PoolInv(l, m.(tree := tree), chain', blocks')
    ensures !BuddyCuts.Differs(l.Order(), tree, m.tree)
  {
    hide Linked, HeaderOk, NamesDiffer, Layout.Wf, LiveSet;
    SameSlots(l, m, chain, chain');
    SameBlocks(l, m.words, chain, blocks, chain', blocks');
    SameBlocks(l, m.words, chain', blocks', chain, blocks);
    assert LiveBlocks(l, blocks) == LiveBlocks(l, blocks');
  }

  /** A pool whose tree is changed at a position is no pool any more, for any headers. */
  lemma OtherTreeIsNoPool(l: Layout, m: Meta, chain: seq<nat>, blocks: seq<Pos>, tree: seq<nat>)
    requires PoolInv(l, m, chain, blocks) && BuddyCuts.Differs(l.Order(), tree, m.tree)
    ensures !IsPool(l, m.(tree := tree))
  {
    hide PoolInv, BuddyCuts.Differs;
    if IsPool(l, m.(tree := tree)) {
      var chain', blocks' :| PoolInv(l, m.(tree := tree), chain', blocks');
      SameTree(l, m, chain, blocks, tree, chain', blocks');
    }
  }

  lemma SameSlots(l: Layout, m: Meta, chain: seq<nat>, chain': seq<nat>)
    requires m.slots == SlotSet(l.rec, chain) == SlotSet(l.rec, chain')
    ensures (forall s :: s in chain ==> s in chain') && (forall s :: s in chain' ==> s in chain)
  {
    forall s | s in chain ensures s in chain' {
      assert (l.rec, s) in SlotSet(l.rec, chain');
    }
    forall s | s in chain' ensures s in chain {
      assert (l.rec, s) in SlotSet(l.rec, chain);
    }
  }

  /**
   An allocation is crash atomic, if and only if no crash falls inside its mark past the first ancestor.
   Wherever it and its recoveries are cut, once it is done or recovery has finished, the pool is
   exactly the old one, or, if the allocation took effect, the old one with the new header. After a
   crash in there the header and its name are there too, but the state is no pool any more.
   */
  lemma AllocationIsAtomic(l: Layout, m: Meta, chain: seq<nat>, blocks: seq<Pos>,
                           p: Pos, slot: nat, name: seq<nat>, length: nat,
                           csum: CrashRecovery.Checksum, last: seq<Entry>, stale: seq<Entry>,
                           run: seq<CrashRecovery.Machine>)
    requires l.Wf() && BuddyPositions.Wf(l.Order(), p) && Rd(m.words, l.rec + OFF_AVAILABLE) >= 1
    requires CanAlloc(l, m, chain, blocks, p, slot, name, length) && InsideArena(l.arena, p)
    requires var x := AllocContext(l, csum, last, stale, m, p, slot, name, length);
             CrashRecovery.Start(x) && CrashRecovery.IsRun(x, run) && CrashRecovery.Trusted(x, run)
    requires run[|run| - 1].phase.Done? || run[|run| - 1].phase.Recovered?
    ensures var end, spoilt := run[|run| - 1].meta, CrashRecovery.Spoilt(l.Order(), run);
            if CrashRecovery.Took(AllocContext(l, csum, last, stale, m, p, slot, name, length), run) then
              && (PoolInv(l, end, chain + [slot], blocks + [p]) <==> !spoilt) && (IsPool(l, end) <==> !spoilt)
              && Dir(l, end.words, chain + [slot])
                 == Dir(l, m.words, chain)[name := Region(l.main + Address(l.arena, p), length, l.machine)]
              && end.slots == m.slots + {(l.rec, slot)}
            else end == m && !spoilt
  {
    assert |run| > 0;
    hide PoolInv, Dir, IsPool, CrashRecovery.IsRun, CrashRecovery.Took, CrashRecovery.Trusted, CrashRecovery.Spoilt,
         CanAlloc, AllocOps, InsideArena, BuddyCuts.Differs;
    var end := run[|run| - 1].meta;
    CrashRecovery.CrashAtomic(AllocContext(l, csum, last, stale, m, p, slot, name, length), run);
    AllocKeepsInv(l, m, chain, blocks, p, slot, name, length);
    var m' := AllocLeaves(l, m, chain, blocks, p, slot, name, length);
    if CrashRecovery.Spoilt(l.Order(), run) && end != m {
      OtherTreeIsNoPool(l, m', chain + [slot], blocks + [p], end.tree);
    }
    PoolIsPool(l, end, chain + [slot], blocks + [p]);
  }

  lemma PoolIsPool(l: Layout, m: Meta, chain: seq<nat>, blocks: seq<Pos>)
    ensures PoolInv(l, m, chain, blocks) ==> IsPool(l, m)
  {
    hide PoolInv;
  }

  // Regions ------------------------------------------------------------------------------------------

  predicate NoOverlap(a: Region, b: Region) {
    a.offset + a.length <= b.offset || b.offset + b.length <= a.offset
  }

  predicate InArena(l: Layout, r: Region)
    requires l.Wf()
  {
    l.main <= r.offset && r.length >= 1 && r.offset + r.length <= l.main + l.arena.Memory()
  }

  /** A directory whose regions lie in the arena and do not overlap. */
  ghost predicate DirOk(l: Layout, dir: map<seq<nat>, Region>)
    requires l.Wf()
  {
    && (forall a :: a in dir ==> InArena(l, dir[a]))
    && (forall a, b :: a in dir && b in dir && a != b ==> NoOverlap(dir[a], dir[b]))
  }

  /** The region starts where the block starts and ends before the block ends. */
  ghost predicate Inside(l: Layout, r: Region, p: Pos)
    requires l.Wf() && BuddyPositions.Wf(l.Order(), p)
  {
    && r.offset == l.main + l.arena.Bytes(Start(l.Order(), p))
    && r.offset + r.length <= l.main + l.arena.Bytes(Start(l.Order(), p) + Size(l.Order(), p))
  }

  lemma BlockRegion(l: Layout, words: map<nat, nat>, slot: nat, p: Pos)
    requires l.Wf() && HeaderOk(l, words, slot, p)
    ensures Inside(l, RegionAt(words, l.Hdr(slot)), p)
  {
    BytesSum(l.arena, Start(l.Order(), p), Size(l.Order(), p));
  }

  lemma RegionInArena(l: Layout, r: Region, p: Pos)
    requires l.Wf() && BuddyPositions.Wf(l.Order(), p) && Inside(l, r, p) && r.length >= 1
    requires InsideArena(l.arena, p)
    ensures InArena(l, r)
  {
    BytesCompare(l.arena, Start(l.Order(), p) + Size(l.Order(), p), l.arena.blocks);
  }

  lemma OrderedBlocks(l: Layout, r: Region, s: Region, p: Pos, q: Pos)
    requires l.Wf() && BuddyPositions.Wf(l.Order(), p) && BuddyPositions.Wf(l.Order(), q)
    requires Inside(l, r, p) && Inside(l, s, q)
    requires Start(l.Order(), p) + Size(l.Order(), p) <= Start(l.Order(), q)
    ensures r.offset + r.length <= s.offset
  {
    BytesCompare(l.arena, Start(l.Order(), p) + Size(l.Order(), p), Start(l.Order(), q));
  }

  lemma BlocksApart(l: Layout, r: Region, s: Region, p: Pos, q: Pos)
    requires l.Wf() && BuddyPositions.Wf(l.Order(), p) && BuddyPositions.Wf(l.Order(), q)
    requires Inside(l, r, p) && Inside(l, s, q) && Disjoint(l.Order(), p, q)
    ensures NoOverlap(r, s)
  {
    if Start(l.Order(), p) + Size(l.Order(), p) <= Start(l.Order(), q) {
      OrderedBlocks(l, r, s, p, q);
    } else {
      OrderedBlocks(l, s, r, q, p);
    }
  }

  lemma HeadersApart(l: Layout, m: Meta, chain: seq<nat>, blocks: seq<Pos>, i: nat, j: nat)
    requires PoolInv(l, m, chain, blocks) && i < |chain| && j < |chain| && i != j
    ensures NoOverlap(RegionAt(m.words, l.Hdr(chain[i])), RegionAt(m.words, l.Hdr(chain[j])))
  {
    assert blocks[i] in LiveBlocks(l, blocks) && blocks[j] in LiveBlocks(l, blocks);
    assert blocks[i] != blocks[j];
    BlockRegion(l, m.words, chain[i], blocks[i]);
    BlockRegion(l, m.words, chain[j], blocks[j]);
    BlocksApart(l, RegionAt(m.words, l.Hdr(chain[i])), RegionAt(m.words, l.Hdr(chain[j])), blocks[i], blocks[j]);
  }

  /** Distinct names have disjoint regions inside the arena. */
  lemma RegionsDisjoint(l: Layout, m: Meta, chain: seq<nat>, blocks: seq<Pos>)
    requires PoolInv(l, m, chain, blocks)
    ensures DirOk(l, Dir(l, m.words, chain))
  {
    var dir := Dir(l, m.words, chain);
    forall a | a in dir ensures InArena(l, dir[a]) {
      DirHas(l, m.words, chain, a);
      var i :| 0 <= i < |chain| && NameAt(m.words, l.Hdr(chain[i])) == a;
      BlockRegion(l, m.words, chain[i], blocks[i]);
      RegionInArena(l, dir[a], blocks[i]);
    }
    forall a, b | a in dir && b in dir && a != b ensures NoOverlap(dir[a], dir[b]) {
      DirHas(l, m.words, chain, a);
      DirHas(l, m.words, chain, b);
      var i :| 0 <= i < |chain| && NameAt(m.words, l.Hdr(chain[i])) == a;
      var j :| 0 <= j < |chain| && NameAt(m.words, l.Hdr(chain[j])) == b;
      HeadersApart(l, m, chain, blocks, i, j);
    }
  }

  /** Free slots and used slots together are always all of them. */
  lemma SlotsConserved(l: Layout, m: Meta, chain: seq<nat>, blocks: seq<Pos>)
    requires PoolInv(l, m, chain, blocks)
    ensures Rd(m.words, l.rec + OFF_AVAILABLE) + |m.slots| == NUM_OBJ_SLOTS
    ensures |Dir(l, m.words, chain)| == |chain|
  {
    SlotsAdd(l, m, chain);
    DirCount(l, m.words, chain);
  }

  lemma SlotsAdd(l: Layout, m: Meta, chain: seq<nat>)
    requires SlotsOk(l, m, chain) && SlotChain(chain)
    ensures Rd(m.words, l.rec + OFF_AVAILABLE) + |m.slots| == NUM_OBJ_SLOTS
  {
    SlotCount(l.rec, chain);
  }

  lemma {:induction false} SlotCount(rec: nat, chain: seq<nat>)
    requires Distinct(chain)
    ensures |SlotSet(rec, chain)| == |chain|
    decreases |chain|
  {
    if chain != [] {
      var n := |chain| - 1;
      SlotCount(rec, chain[..n]);
      assert chain == chain[..n] + [chain[n]];
      SlotSetExtend(rec, chain[..n], chain[n]);
      NotInPrefix(chain, n);
      assert (rec, chain[n]) !in SlotSet(rec, chain[..n]);
    }
  }

  lemma NotInPrefix(chain: seq<nat>, n: nat)
    requires Distinct(chain) && n < |chain|
    ensures chain[n] !in chain[..n]
  {
  }

  lemma {:induction false} DirCount(l: Layout, words: map<nat, nat>, chain: seq<nat>)
    requires NamesDiffer(l, words, chain)
    ensures |Dir(l, words, chain)| == |chain|
    decreases |chain|
  {
    if chain != [] {
      var n := |chain| - 1;
      var rest := chain[..n];
      DirCount(l, words, rest);
      DirHas(l, words, rest, NameAt(words, l.Hdr(chain[n])));
      assert forall i :: 0 <= i < n ==> rest[i] == chain[i];
      var dir, name := Dir(l, words, rest), NameAt(words, l.Hdr(chain[n]));
      assert name !in dir;
      assert dir[name := RegionAt(words, l.Hdr(chain[n]))].Keys == dir.Keys + {name};
    }
  }
}
