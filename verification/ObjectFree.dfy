/** Freeing a named region: what `atomic_free_memory` logs, when that leaves a pool, and when it halts. */
module ObjectFree {
  import opened Sequences
  import opened BuddyPositions
  import opened BuddyStatus
  import BuddyCuts
  import opened BuddyArena
  import opened BuddyVirtual
  import opened RedoLog
  import opened MetaStores
  import opened ObjectPool
  import opened ListRemoval
  import CrashRecovery

  /** The entries of freeing the position p and the header in `slot`. */
  function FreeOps(l: Layout, m: Meta, p: Pos, slot: nat): seq<Op> {
    [BuddyFree(p)] + RemoveOps(l, m.words, l.Hdr(slot)) + [HdrFree(l.rec, slot, Rd(m.words, l.rec + OFF_AVAILABLE) + 1)]
  }

  /** The stores of the last entry: the slot is free again. */
  function SlotFreed(l: Layout, m: Meta, slot: nat): seq<Store> {
    [SlotBit(l.rec, slot, false), Word(l.rec + OFF_AVAILABLE, Rd(m.words, l.rec + OFF_AVAILABLE) + 1)]
  }

  function FreeStores(l: Layout, m: Meta, p: Pos, slot: nat): seq<Store> {
    [TreeRelease(p)] + RemoveStores(l, m.words, l.Hdr(slot)) + SlotFreed(l, m, slot)
  }

  lemma {:induction false} StoresJoin(a: seq<Op>, b: seq<Op>)
    ensures AllStores(a + b) == AllStores(a) + AllStores(b)
    decreases |a|
  {
    if a == [] {
      assert a + b == b;
    } else {
      assert (a + b)[1..] == a[1..] + b;
      StoresJoin(a[1..], b);
    }
  }

  lemma FreeStoresAre(l: Layout, m: Meta, p: Pos, slot: nat)
    requires l.rec != 0
    ensures AllStores(FreeOps(l, m, p, slot)) == FreeStores(l, m, p, slot)
  {
    var free, header := BuddyFree(p), HdrFree(l.rec, slot, Rd(m.words, l.rec + OFF_AVAILABLE) + 1);
    var remove := RemoveOps(l, m.words, l.Hdr(slot));
    RemoveStoresAre(l, m.words, l.Hdr(slot));
    OpsStores(free, Skip);
    OpsStores(header, Skip);
    hide RemoveOps, RemoveStores, AllStores;
    StoresJoin([free], remove);
    StoresJoin([free] + remove, [header]);
  }

  // What is stored --------------------------------------------------------------------------------------

  /** The stores made: all of them, or the release and one link before the halt. */
  lemma FreeKept(l: Layout, m: Meta, p: Pos, slot: nat)
    ensures var h := l.Hdr(slot);
            if RemoveHalts(l, m.words, h) then
              Kept(FreeStores(l, m, p, slot))
                == [TreeRelease(p), Word(Rd(m.words, h + OFF_NEXT) + OFF_PREV, Rd(m.words, h + OFF_PREV))]
            else Kept(FreeStores(l, m, p, slot)) == FreeStores(l, m, p, slot)
    ensures RemoveHalts(l, m.words, l.Hdr(slot)) <==> Halt in FreeStores(l, m, p, slot)
  {
    var rs := RemoveStores(l, m.words, l.Hdr(slot));
    RemoveKept(l, m.words, l.Hdr(slot));
    hide RemoveStores, RemoveHalts;
    KeptJoin([TreeRelease(p)] + rs, SlotFreed(l, m, slot));
    KeptJoin([TreeRelease(p)], rs);
    KeptAll(SlotFreed(l, m, slot));
    KeptAll(FreeStores(l, m, p, slot));
    assert [TreeRelease(p)] + [Word(Rd(m.words, l.Hdr(slot) + OFF_NEXT) + OFF_PREV, Rd(m.words, l.Hdr(slot) + OFF_PREV))]
        == [TreeRelease(p), Word(Rd(m.words, l.Hdr(slot) + OFF_NEXT) + OFF_PREV, Rd(m.words, l.Hdr(slot) + OFF_PREV))];
  }

  /** The links a removal stores lie apart from each other and from the slot count. */
  lemma RemoveApart(l: Layout, words: map<nat, nat>, chain: seq<nat>, i: nat)
    requires l.Wf() && Linked(l, words, chain) && i < |chain| && !RemoveHalts(l, words, l.Hdr(chain[i]))
    ensures var rs := RemoveStores(l, words, l.Hdr(chain[i]));
            && 1 <= |rs| <= 2 && (forall s :: s in rs ==> s.Word? && s.addr != l.rec + OFF_AVAILABLE)
            && (|rs| == 2 ==> rs[0].addr != rs[1].addr)
  {
    LinkWords(l, words, chain, i);
    RemoveCases(l, words, chain, i);
    HeadersDiffer(l, chain, i, i);
    if |chain| > 1 {
      HeadersDiffer(l, chain, i - 1, i - 1);
      if i + 1 < |chain| {
        HeadersDiffer(l, chain, i - 1, i + 1);
      }
    }
  }

  lemma FreeIndependent(l: Layout, m: Meta, chain: seq<nat>, p: Pos, i: nat)
    requires l.Wf() && Linked(l, m.words, chain) && i < |chain|
    ensures Independent(Kept(FreeStores(l, m, p, chain[i])))
  {
    hide RemoveStores, RemoveHalts, Linked, Layout.Wf, FreeStores, Kept;
    FreeKept(l, m, p, chain[i]);
    if !RemoveHalts(l, m.words, l.Hdr(chain[i])) {
      hide Independent;
      PlainIndependent(l, m, chain, p, i);
    }
  }

  lemma PlainIndependent(l: Layout, m: Meta, chain: seq<nat>, p: Pos, i: nat)
    requires l.Wf() && Linked(l, m.words, chain) && i < |chain| && !RemoveHalts(l, m.words, l.Hdr(chain[i]))
    ensures Independent(FreeStores(l, m, p, chain[i]))
  {
    hide RemoveStores, RemoveHalts, Linked, Layout.Wf, Independent;
    RemoveApart(l, m.words, chain, i);
    WordsBetween(p, RemoveStores(l, m.words, l.Hdr(chain[i])), l.rec, chain[i],
                 l.rec + OFF_AVAILABLE, Rd(m.words, l.rec + OFF_AVAILABLE) + 1);
  }

  lemma WordsBetween(p: Pos, rs: seq<Store>, rec: nat, slot: nat, a: nat, v: nat)
    requires 1 <= |rs| <= 2 && (|rs| == 2 ==> rs[0].Word? && rs[1].Word? && rs[0].addr != rs[1].addr)
    requires forall s :: s in rs ==> s.Word? && s.addr != a
    ensures Independent([TreeRelease(p)] + rs + [SlotBit(rec, slot, false), Word(a, v)])
  {
    assert rs[0] in rs && (|rs| == 2 ==> rs[1] in rs);
  }

  /** Freeing is an update whatever the header, with a halt in it for the first of several. */
  lemma FreeIsUpdate(l: Layout, m: Meta, chain: seq<nat>, p: Pos, i: nat)
    requires l.Wf() && Linked(l, m.words, chain) && i < |chain| && BuddyPositions.Wf(l.Order(), p)
    ensures CrashRecovery.Update(l.Order(), FreeOps(l, m, p, chain[i]))
    ensures Halt in AllStores(FreeOps(l, m, p, chain[i])) <==> i == 0 && |chain| > 1
    ensures |chain| == 1 || i > 0 ==> |FreeOps(l, m, p, chain[i])| == 3
  {
    hide Linked, Independent, Kept, AllStores, FreeStores, RemoveHalts, IsOnly;
    FreeStoresAre(l, m, p, chain[i]);
    FreeIndependent(l, m, chain, p, i);
    FreeKept(l, m, p, chain[i]);
    FirstIsPlaced(l, m, p, chain[i]);
    RemoveCases(l, m.words, chain, i);
    LinkWords(l, m.words, chain, i);
  }

  lemma ApplyOne(o: nat, m: Meta, s: Store)
    requires Shape(o, m.tree) && Storable(o, s)
    ensures ApplyAll(o, m, [s]) == Apply(o, m, s)
  {
    assert [s][1..] == [];
  }

  lemma ApplyTwo(o: nat, m: Meta, s: Store, t: Store)
    requires Shape(o, m.tree) && Storable(o, s) && Storable(o, t)
    ensures ApplyAll(o, m, [s, t]) == Apply(o, Apply(o, m, s), t)
  {
    assert [s, t][1..] == [t];
    ApplyOne(o, Apply(o, m, s), t);
  }

  /** What freeing stores when it does not halt. */
  lemma FreeEffect(l: Layout, m: Meta, p: Pos, slot: nat)
    requires l.Wf() && Shape(l.Order(), m.tree) && BuddyPositions.Wf(l.Order(), p)
    requires !RemoveHalts(l, m.words, l.Hdr(slot))
    ensures AllPlaced(l.Order(), AllStores(FreeOps(l, m, p, slot)))
    ensures RunStores(l.Order(), m, AllStores(FreeOps(l, m, p, slot))) == Outcome(AfterFree(l, m, p, slot), false)
  {
    hide RemoveStores, AllStores, FreeOps, Kept, RemoveWords, Release, RemoveHalts;
    FreeStoresAre(l, m, p, slot);
    FreeKept(l, m, p, slot);
    FreeApplies(l, m, p, slot);
    RunStoresExact(l.Order(), m, FreeStores(l, m, p, slot));
  }

  lemma FreeApplies(l: Layout, m: Meta, p: Pos, slot: nat)
    requires l.Wf() && Shape(l.Order(), m.tree) && BuddyPositions.Wf(l.Order(), p)
    requires !RemoveHalts(l, m.words, l.Hdr(slot))
    ensures AllStorable(l.Order(), FreeStores(l, m, p, slot))
    ensures ApplyAll(l.Order(), m, FreeStores(l, m, p, slot)) == AfterFree(l, m, p, slot)
  {
    var o, rs := l.Order(), RemoveStores(l, m.words, l.Hdr(slot));
    hide RemoveStores, RemoveWords, Release, ApplyAll, RemoveHalts;
    UnlinkApplies(l, m, p, slot);
    var m2 := Unlinked(l, m, p, slot);
    ApplySplit(o, m, [TreeRelease(p)] + rs, SlotFreed(l, m, slot));
    ApplyTwo(o, m2, SlotFreed(l, m, slot)[0], SlotFreed(l, m, slot)[1]);
  }

  /** The block is released and the header unlinked. */
  ghost function Unlinked(l: Layout, m: Meta, p: Pos, slot: nat): Meta
    requires l.Wf() && Shape(l.Order(), m.tree) && BuddyPositions.Wf(l.Order(), p)
  {
    Meta(Release(l.Order(), m.tree, p), RemoveWords(l, m.words, l.Hdr(slot)), m.slots)
  }

  lemma UnlinkApplies(l: Layout, m: Meta, p: Pos, slot: nat)
    requires l.Wf() && Shape(l.Order(), m.tree) && BuddyPositions.Wf(l.Order(), p)
    requires !RemoveHalts(l, m.words, l.Hdr(slot))
    ensures AllStorable(l.Order(), [TreeRelease(p)] + RemoveStores(l, m.words, l.Hdr(slot)))
    ensures ApplyAll(l.Order(), m, [TreeRelease(p)] + RemoveStores(l, m.words, l.Hdr(slot))) == Unlinked(l, m, p, slot)
  {
    var o, h, rs := l.Order(), l.Hdr(slot), RemoveStores(l, m.words, l.Hdr(slot));
    hide RemoveStores, Kept, RemoveWords, Release, ApplyAll, RemoveHalts;
    RemoveKept(l, m.words, h);
    KeptEffect(l, o, m.(tree := Release(o, m.tree, p)), h);
    ApplyOne(o, m, TreeRelease(p));
    ApplySplit(o, m, [TreeRelease(p)], rs);
  }

  /** The state after freeing. */
  ghost function AfterFree(l: Layout, m: Meta, p: Pos, slot: nat): Meta
    requires l.Wf() && Shape(l.Order(), m.tree) && BuddyPositions.Wf(l.Order(), p)
  {
    Meta(Release(l.Order(), m.tree, p), FreeWords(l, m.words, slot), m.slots - {(l.rec, slot)})
  }

  function FreeWords(l: Layout, words: map<nat, nat>, slot: nat): map<nat, nat> {
    RemoveWords(l, words, l.Hdr(slot))[l.rec + OFF_AVAILABLE := Rd(words, l.rec + OFF_AVAILABLE) + 1]
  }

  // The pool without the header ------------------------------------------------------------------------------

  predicate Removable(chain: seq<nat>, i: nat) {
    (|chain| == 1 && i == 0) || Interior(chain, i)
  }

  /** Links do not depend on the slot count. */
  lemma LinkedFrame(l: Layout, w: map<nat, nat>, chain: seq<nat>, v: nat)
    requires l.Wf() && SlotChain(chain)
    ensures Linked(l, w[l.rec + OFF_AVAILABLE := v], chain) <==> Linked(l, w, chain)
  {
    var w' := w[l.rec + OFF_AVAILABLE := v];
    forall i | 0 <= i < |chain|
      ensures NextOk(l, w', chain, i) <==> NextOk(l, w, chain, i)
      ensures PrevOk(l, w', chain, i) <==> PrevOk(l, w, chain, i)
    {
      assert chain[i] < NUM_OBJ_SLOTS;
    }
  }

  /** The words a removal of a removable header changes. */
  lemma FreeReads(l: Layout, w: map<nat, nat>, chain: seq<nat>, i: nat, a: nat)
    requires l.Wf() && Linked(l, w, chain) && i < |chain| && Removable(chain, i)
    requires a != l.rec + OFF_AVAILABLE && a != l.head
    requires forall j :: 0 <= j < |chain| ==> a != l.Hdr(chain[j]) + OFF_NEXT && a != l.Hdr(chain[j]) + OFF_PREV
    ensures Rd(FreeWords(l, w, chain[i]), a) == Rd(w, a)
  {
    RemoveCases(l, w, chain, i);
    if Interior(chain, i) {
      RemoveReads(l, w, chain, i, a);
    }
  }

  /** The rest of a header is no link and no list end. */
  lemma HeaderIsNoLink(l: Layout, chain: seq<nat>, t: nat, k: nat)
    requires l.Wf() && SlotChain(chain) && t < |chain| && OFF_MACHINE <= k < SIZEOF_HEADER
    ensures var a := l.Hdr(chain[t]) + k;
            && a != l.rec + OFF_AVAILABLE && a != l.head
            && forall j :: 0 <= j < |chain| ==> a != l.Hdr(chain[j]) + OFF_NEXT && a != l.Hdr(chain[j]) + OFF_PREV
  {
    assert chain[t] < NUM_OBJ_SLOTS;
    forall j | 0 <= j < |chain|
      ensures l.Hdr(chain[t]) + k != l.Hdr(chain[j]) + OFF_NEXT && l.Hdr(chain[t]) + k != l.Hdr(chain[j]) + OFF_PREV
    {
      assert chain[j] < NUM_OBJ_SLOTS;
    }
  }

  lemma FreeKeepsWord(l: Layout, w: map<nat, nat>, chain: seq<nat>, i: nat, t: nat, k: nat)
    requires l.Wf() && Linked(l, w, chain) && i < |chain| && Removable(chain, i)
    requires t < |chain| && OFF_MACHINE <= k < SIZEOF_HEADER
    ensures Rd(FreeWords(l, w, chain[i]), l.Hdr(chain[t]) + k) == Rd(w, l.Hdr(chain[t]) + k)
  {
    HeaderIsNoLink(l, chain, t, k);
    FreeReads(l, w, chain, i, l.Hdr(chain[t]) + k);
  }

  lemma FreeKeepsHeader(l: Layout, w: map<nat, nat>, chain: seq<nat>, i: nat, t: nat)
    requires l.Wf() && Linked(l, w, chain) && i < |chain| && Removable(chain, i) && t < |chain|
    ensures SameHeader(l, w, FreeWords(l, w, chain[i]), chain[t])
  {
    hide FreeWords, Linked, NameAt, Header, Layout.Wf;
    FreeKeepsWord(l, w, chain, i, t, OFF_OBJ);
    FreeKeepsWord(l, w, chain, i, t, OFF_LENGTH);
    FreeKeepsWord(l, w, chain, i, t, OFF_MACHINE);
    FreeKeepsWord(l, w, chain, i, t, OFF_SLOT_ID);
    FreeKeepsName(l, w, chain, i, t);
  }

  lemma FreeKeepsName(l: Layout, w: map<nat, nat>, chain: seq<nat>, i: nat, t: nat)
    requires l.Wf() && Linked(l, w, chain) && i < |chain| && Removable(chain, i) && t < |chain|
    ensures NameAt(FreeWords(l, w, chain[i]), l.Hdr(chain[t])) == NameAt(w, l.Hdr(chain[t]))
  {
    hide FreeWords, Linked, Header, Layout.Wf, UpToNul;
    var w', h := FreeWords(l, w, chain[i]), l.Hdr(chain[t]);
    forall k | 0 <= k < PROG_ID_SIZE ensures NameBytes(w', h)[k] == NameBytes(w, h)[k] {
      FreeKeepsWord(l, w, chain, i, t, OFF_PROG_ID + k);
    }
    hide NameBytes;
    assert NameBytes(w', h) == NameBytes(w, h);
  }

  lemma FreeLinks(l: Layout, w: map<nat, nat>, chain: seq<nat>, i: nat)
    requires l.Wf() && Linked(l, w, chain) && i < |chain| && Removable(chain, i)
    ensures Linked(l, FreeWords(l, w, chain[i]), Without(chain, i))
  {
    if |chain| == 1 {
      OnlyOneUnlinked(l, w, chain);
    } else {
      InteriorIsUnlinked(l, w, chain, i);
    }
    LinkedFrame(l, RemoveWords(l, w, l.Hdr(chain[i])), Without(chain, i), Rd(w, l.rec + OFF_AVAILABLE) + 1);
  }

  lemma FreeSlots(l: Layout, m: Meta, chain: seq<nat>, i: nat, m': Meta)
    requires SlotsOk(l, m, chain) && SlotChain(chain) && i < |chain|
    requires m'.slots == m.slots - {(l.rec, chain[i])}
    requires Rd(m'.words, l.rec + OFF_AVAILABLE) == Rd(m.words, l.rec + OFF_AVAILABLE) + 1
    ensures SlotsOk(l, m', Without(chain, i))
  {
    forall x ensures x in SlotSet(l.rec, Without(chain, i)) <==> x in SlotSet(l.rec, chain) && x != (l.rec, chain[i]) {
      WithoutHas(chain, i, x.1);
      assert x.0 == l.rec && x.1 in chain ==> x in SlotSet(l.rec, chain);
      assert x.0 == l.rec && x.1 in Without(chain, i) ==> x in SlotSet(l.rec, Without(chain, i));
    }
  }

  /** A block inside the arena is no virtual slot. */
  lemma BlockIsNotVirtual(l: Layout, p: Pos)
    requires l.Wf() && InsideArena(l.arena, p)
    ensures p !in Elements(VirtualSlots(l.arena))
  {
    VirtualSlotsTile(l.arena);
    SizePositive(l.Order(), p);
    hide VirtualSlots, Start, Size;
  }

  lemma SizePositive(o: nat, p: Pos)
    requires BuddyPositions.Wf(o, p)
    ensures Size(o, p) >= 1
  {
  }

  lemma LiveWithout(l: Layout, blocks: seq<Pos>, i: nat)
    requires l.Wf() && Distinct(blocks) && i < |blocks| && InsideArena(l.arena, blocks[i])
    ensures LiveBlocks(l, Without(blocks, i)) == LiveBlocks(l, blocks) - {blocks[i]}
  {
    BlockIsNotVirtual(l, blocks[i]);
    forall p ensures p in Elements(Without(blocks, i)) <==> p in Elements(blocks) && p != blocks[i] {
      WithoutHas(blocks, i, p);
    }
  }

  /** Releasing a position leaves the tree of the other blocks exactly when it is that block. */
  lemma FreeTreeExact(l: Layout, tree: seq<nat>, blocks: seq<Pos>, i: nat, p: Pos)
    requires l.Wf() && TreeOk(l, tree, blocks) && i < |blocks| && InsideArena(l.arena, blocks[i])
    requires BuddyPositions.Wf(l.Order(), p)
    ensures TreeOk(l, Release(l.Order(), tree, p), Without(blocks, i)) <==> p == blocks[i]
  {
    var o, live, b := l.Order(), LiveBlocks(l, blocks), blocks[i];
    LiveWithout(l, blocks, i);
    WithoutDistinct(blocks, i);
    assert b in live;
    if p == b {
      ReleaseIsCanonical(o, live, tree, p);
    } else {
      ReleaseElsewhere(o, live, tree, p, b);
      LiveIsUncovered(o, live, b);
      NothingBelow(o, live - {b}, b);
    }
  }

  lemma NamesWithout(l: Layout, w: map<nat, nat>, w': map<nat, nat>, chain: seq<nat>, i: nat)
    requires NamesDiffer(l, w, chain) && i < |chain|
    requires forall t :: 0 <= t < |chain| ==> SameHeader(l, w, w', chain[t])
    ensures NamesDiffer(l, w', Without(chain, i))
  {
    var rest := Without(chain, i);
    forall a, b | 0 <= a < b < |rest| ensures NameAt(w', l.Hdr(rest[a])) != NameAt(w', l.Hdr(rest[b])) {
      var a', b' := if a < i then a else a + 1, if b < i then b else b + 1;
      assert SameHeader(l, w, w', chain[a']) && SameHeader(l, w, w', chain[b']);
    }
  }

  lemma HeadersWithout(l: Layout, w: map<nat, nat>, w': map<nat, nat>, chain: seq<nat>, blocks: seq<Pos>, i: nat)
    requires l.Wf() && |chain| == |blocks| && i < |chain|
    requires forall t :: 0 <= t < |chain| ==> HeaderOk(l, w, chain[t], blocks[t]) && SameHeader(l, w, w', chain[t])
    ensures forall t :: 0 <= t < |chain| - 1 ==> HeaderOk(l, w', Without(chain, i)[t], Without(blocks, i)[t])
  {
    hide HeaderOk, SameHeader;
    forall t | 0 <= t < |chain| - 1 ensures HeaderOk(l, w', Without(chain, i)[t], Without(blocks, i)[t]) {
      var k := if t < i then t else t + 1;
      assert HeaderOk(l, w, chain[k], blocks[k]) && SameHeader(l, w, w', chain[k]);
      SameHeaderIsOk(l, w, w', chain[k], blocks[k]);
    }
  }

  /** The directory loses the name of the header and keeps the others. */
  lemma DirWithout(l: Layout, w: map<nat, nat>, w': map<nat, nat>, chain: seq<nat>, i: nat)
    requires i < |chain| && NamesDiffer(l, w, chain) && NamesDiffer(l, w', Without(chain, i))
    requires forall t :: 0 <= t < |chain| ==> SameHeader(l, w, w', chain[t])
    ensures Dir(l, w', Without(chain, i)) == Dir(l, w, chain) - {NameAt(w, l.Hdr(chain[i]))}
  {
    hide Dir, NamesDiffer, SameHeader;
    forall name
      ensures name in Dir(l, w', Without(chain, i)) <==> name in Dir(l, w, chain) && name != NameAt(w, l.Hdr(chain[i]))
      ensures name in Dir(l, w', Without(chain, i)) ==> Dir(l, w', Without(chain, i))[name] == Dir(l, w, chain)[name]
    {
      DirWithoutAt(l, w, w', chain, i, name);
    }
  }

  lemma DirWithoutAt(l: Layout, w: map<nat, nat>, w': map<nat, nat>, chain: seq<nat>, i: nat, name: seq<nat>)
    requires i < |chain| && NamesDiffer(l, w, chain) && NamesDiffer(l, w', Without(chain, i))
    requires forall t :: 0 <= t < |chain| ==> SameHeader(l, w, w', chain[t])
    ensures var d, d' := Dir(l, w, chain), Dir(l, w', Without(chain, i));
            (name in d' <==> name in d && name != NameAt(w, l.Hdr(chain[i]))) && (name in d' ==> d'[name] == d[name])
  {
    var rest := Without(chain, i);
    DirHas(l, w, chain, name);
    DirHas(l, w', rest, name);
    hide Dir, NameAt, RegionAt, NamesDiffer;
    if t :| 0 <= t < |rest| && NameAt(w', l.Hdr(rest[t])) == name {
      KeptName(l, w, w', chain, i, t);
      OtherName(l, w, chain, i, if t < i then t else t + 1);
    }
    if k :| 0 <= k < |chain| && k != i && NameAt(w, l.Hdr(chain[k])) == name {
      KeptName(l, w, w', chain, i, if k < i then k else k - 1);
    }
  }

  lemma KeptName(l: Layout, w: map<nat, nat>, w': map<nat, nat>, chain: seq<nat>, i: nat, t: nat)
    requires i < |chain| && t < |chain| - 1 && forall k :: 0 <= k < |chain| ==> SameHeader(l, w, w', chain[k])
    ensures var k, h := if t < i then t else t + 1, l.Hdr(Without(chain, i)[t]);
            h == l.Hdr(chain[k]) && NameAt(w', h) == NameAt(w, h) && RegionAt(w', h) == RegionAt(w, h)
  {
    assert SameHeader(l, w, w', chain[if t < i then t else t + 1]);
    hide NameAt, RegionAt;
  }

  lemma OtherName(l: Layout, w: map<nat, nat>, chain: seq<nat>, i: nat, k: nat)
    requires NamesDiffer(l, w, chain) && i < |chain| && k < |chain| && k != i
    ensures NameAt(w, l.Hdr(chain[k])) != NameAt(w, l.Hdr(chain[i]))
  {
    hide NameAt;
  }

  lemma FreeWordsKept(l: Layout, w: map<nat, nat>, chain: seq<nat>, i: nat)
    requires l.Wf() && Linked(l, w, chain) && i < |chain| && Removable(chain, i)
    ensures forall t :: 0 <= t < |chain| ==> SameHeader(l, w, FreeWords(l, w, chain[i]), chain[t])
  {
    hide SameHeader, FreeWords, Linked;
    forall t | 0 <= t < |chain| ensures SameHeader(l, w, FreeWords(l, w, chain[i]), chain[t]) {
      FreeKeepsHeader(l, w, chain, i, t);
    }
  }

  /** Freeing the block of a removable header takes the pool to the pool without it. */
  lemma FreeKeepsInv(l: Layout, m: Meta, chain: seq<nat>, blocks: seq<Pos>, i: nat)
    requires PoolInv(l, m, chain, blocks) && i < |chain| && Removable(chain, i)
    ensures BuddyPositions.Wf(l.Order(), blocks[i]) && !RemoveHalts(l, m.words, l.Hdr(chain[i]))
    ensures var m' := AfterFree(l, m, blocks[i], chain[i]);
            && PoolInv(l, m', Without(chain, i), Without(blocks, i))
            && Dir(l, m'.words, Without(chain, i)) == Dir(l, m.words, chain) - {NameAt(m.words, l.Hdr(chain[i]))}
  {
    hide PoolInv, Linked, SlotsOk, TreeOk, HeaderOk, SameHeader, NamesDiffer, RemoveHalts, Dir, Release, RemoveWords,
         NameAt;
    PoolParts(l, m, chain, blocks);
    RemoveCases(l, m.words, chain, i);
    var m' := AfterFree(l, m, blocks[i], chain[i]);
    PartsWithout(l, m, chain, blocks, i, m');
    PoolParts(l, m', Without(chain, i), Without(blocks, i));
    FreeWordsKept(l, m.words, chain, i);
    DirWithout(l, m.words, m'.words, chain, i);
  }

  lemma PartsWithout(l: Layout, m: Meta, chain: seq<nat>, blocks: seq<Pos>, i: nat, m': Meta)
    requires Parts(l, m, chain, blocks) && i < |chain| && Removable(chain, i) && BuddyPositions.Wf(l.Order(), blocks[i])
    requires m' == AfterFree(l, m, blocks[i], chain[i])
    ensures Parts(l, m', Without(chain, i), Without(blocks, i))
  {
    hide Linked, SlotsOk, TreeOk, HeaderOk, SameHeader, NamesDiffer, Release, RemoveWords, Layout.Wf, InsideArena;
    assert Rd(m'.words, l.rec + OFF_AVAILABLE) == Rd(m.words, l.rec + OFF_AVAILABLE) + 1;
    FreeLinks(l, m.words, chain, i);
    FreeWordsKept(l, m.words, chain, i);
    FreeSlots(l, m, chain, i, m');
    FreeTreeExact(l, m.tree, blocks, i, blocks[i]);
    HeadersWithout(l, m.words, m'.words, chain, blocks, i);
    NamesWithout(l, m.words, m'.words, chain, i);
    WithoutDistinct(chain, i);
    WithoutDistinct(blocks, i);
  }

  // Exactly when ---------------------------------------------------------------------------------------------

  /** The last of several: the list tail stays on the removed header. */
  lemma LastStaysLinked(l: Layout, m: Meta, chain: seq<nat>)
    requires l.Wf() && Shape(l.Order(), m.tree) && Linked(l, m.words, chain) && |chain| > 1
    ensures !Linked(l, FreeWords(l, m.words, chain[|chain| - 1]), Without(chain, |chain| - 1))
  {
    var n := |chain| - 1;
    LastLeavesTail(l, l.Order(), m, chain);
    RemoveEffect(l, l.Order(), m, l.Hdr(chain[n]));
    WithoutDistinct(chain, n);
    LinkedFrame(l, RemoveWords(l, m.words, l.Hdr(chain[n])), Without(chain, n), Rd(m.words, l.rec + OFF_AVAILABLE) + 1);
  }

  /**
   When freeing runs to its end and leaves the pool without the header: exactly when the header is
   the only one or between two others, and the position released is the header's own block. The
   position comes from the offset and length that the caller gives, not from the header.
   */
  lemma FreeExact(l: Layout, m: Meta, chain: seq<nat>, blocks: seq<Pos>, i: nat, p: Pos)
    requires PoolInv(l, m, chain, blocks) && i < |chain| && BuddyPositions.Wf(l.Order(), p)
    ensures AllPlaced(l.Order(), AllStores(FreeOps(l, m, p, chain[i])))
    ensures var out := RunStores(l.Order(), m, AllStores(FreeOps(l, m, p, chain[i])));
            (!out.halted && PoolInv(l, out.meta, Without(chain, i), Without(blocks, i)))
            <==> (Removable(chain, i) && p == blocks[i])
  {
    hide PoolInv, Linked, TreeOk, SlotsOk, HeaderOk, NamesDiffer, RunStores, AllStores, FreeOps, RemoveHalts,
         FreeStores, Release, FreeWords;
    PoolParts(l, m, chain, blocks);
    RemoveCases(l, m.words, chain, i);
    if i == 0 && |chain| > 1 {
      FirstFreeHalts(l, m, p, chain[i]);
    } else {
      FreeEffect(l, m, p, chain[i]);
      FreeTreeExact(l, m.tree, blocks, i, p);
      PoolParts(l, AfterFree(l, m, p, chain[i]), Without(chain, i), Without(blocks, i));
      if !Removable(chain, i) {
        LastStaysLinked(l, m, chain);
      } else if p == blocks[i] {
        FreeKeepsInv(l, m, chain, blocks, i);
      }
    }
  }

  lemma FirstFreeHalts(l: Layout, m: Meta, p: Pos, slot: nat)
    requires l.Wf() && Shape(l.Order(), m.tree) && BuddyPositions.Wf(l.Order(), p) && RemoveHalts(l, m.words, l.Hdr(slot))
    ensures AllPlaced(l.Order(), AllStores(FreeOps(l, m, p, slot)))
    ensures RunStores(l.Order(), m, AllStores(FreeOps(l, m, p, slot))).halted
  {
    FreeStoresAre(l, m, p, slot);
    FreeKept(l, m, p, slot);
    FirstIsPlaced(l, m, p, slot);
    RunStoresExact(l.Order(), m, FreeStores(l, m, p, slot));
  }

  lemma FirstIsPlaced(l: Layout, m: Meta, p: Pos, slot: nat)
    requires l.Wf() && BuddyPositions.Wf(l.Order(), p)
    ensures AllPlaced(l.Order(), FreeStores(l, m, p, slot))
  {
  }

  /** With the offset of a header's own region the position found is its block exactly if the length gets such a block. */
  lemma FindsOwnBlock(l: Layout, m: Meta, chain: seq<nat>, blocks: seq<Pos>, i: nat, length: nat)
    requires PoolInv(l, m, chain, blocks) && i < |chain|
    ensures var r := RegionAt(m.words, l.Hdr(chain[i]));
            && r.offset >= l.main && blocks[i] != INVALID_POS
            && FreeFindPos(l.arena, m.tree, r.offset - l.main, length)
               == if SameBlockSize(l.arena, r.length, length) then blocks[i] else INVALID_POS
  {
    hide PoolInv, Linked, SlotsOk, NamesDiffer, HeaderOk, FreeFindPos, FitsDepth, TreeOk, Address, SameBlockSize,
         RegionAt, Arena.Order, Arena.Memory, Header;
    PoolParts(l, m, chain, blocks);
    OwnBlock(l, m.words, chain[i], blocks[i]);
    FindsLive(l, m.tree, blocks, i, length);
    SameSizeFits(l.arena, RegionAt(m.words, l.Hdr(chain[i])).length, length, blocks[i].depth);
  }

  /** At the address of a live block the position found is the block exactly if the length gets its depth. */
  lemma FindsLive(l: Layout, tree: seq<nat>, blocks: seq<Pos>, i: nat, length: nat)
    requires l.Wf() && TreeOk(l, tree, blocks) && i < |blocks| && BuddyPositions.Wf(l.Order(), blocks[i])
    requires Address(l.arena, blocks[i]) < l.arena.Memory()
    ensures Shape(l.arena.Order(), tree) && blocks[i] != INVALID_POS
    ensures FreeFindPos(l.arena, tree, Address(l.arena, blocks[i]), length)
         == if FitsDepth(l.arena, length, blocks[i].depth) then blocks[i] else INVALID_POS
  {
    hide FreeFindPos, FitsDepth, LiveSet, Canonical, Address, LiveBlocks, Distinct, Arena.Order, Arena.Memory;
    BlockIsLive(l, blocks, i);
    FreeFindsBlock(l.arena, LiveBlocks(l, blocks), tree, blocks[i], length);
  }

  lemma BlockIsLive(l: Layout, blocks: seq<Pos>, i: nat)
    requires l.Wf() && i < |blocks|
    ensures blocks[i] in LiveBlocks(l, blocks)
  {
  }

  lemma OwnBlock(l: Layout, words: map<nat, nat>, slot: nat, p: Pos)
    requires l.Wf() && HeaderOk(l, words, slot, p)
    ensures var r := RegionAt(words, l.Hdr(slot));
            && BuddyPositions.Wf(l.Order(), p) && FitsDepth(l.arena, r.length, p.depth)
            && r.offset == l.main + Address(l.arena, p) && Address(l.arena, p) < l.arena.Memory()
  {
    BlockRegion(l, words, slot, p);
    RegionInArena(l, RegionAt(words, l.Hdr(slot)), p);
    hide FitsDepth, Start, Size, NameAt;
  }

  // Under crashes ------------------------------------------------------------------------------------------

  ghost function FreeContext(l: Layout, csum: CrashRecovery.Checksum, last: seq<Entry>, stale: seq<Entry>,
                             m: Meta, p: Pos, slot: nat): CrashRecovery.Context
    requires l.Wf()
  {
    CrashRecovery.Context(l.Order(), csum, FreeOps(l, m, p, slot), m, last, stale)
  }

  /**
   Freeing a removable header is crash atomic, if and only if no crash falls inside its release, from
   the first write on: once it is done or recovered, the pool is exactly the old one, or the old one
   without the header and its name. After a crash in there the header and its name are gone
   too, but the state is no pool any more.
   */
  lemma FreeingIsAtomic(l: Layout, m: Meta, chain: seq<nat>, blocks: seq<Pos>, i: nat,
                        csum: CrashRecovery.Checksum, last: seq<Entry>, stale: seq<Entry>,
                        run: seq<CrashRecovery.Machine>)
    requires PoolInv(l, m, chain, blocks) && i < |chain| && Removable(chain, i)
    requires var x := FreeContext(l, csum, last, stale, m, blocks[i], chain[i]);
             CrashRecovery.Start(x) && CrashRecovery.IsRun(x, run) && CrashRecovery.Trusted(x, run)
    requires run[|run| - 1].phase.Done? || run[|run| - 1].phase.Recovered?
    ensures var end, spoilt := run[|run| - 1].meta, CrashRecovery.Spoilt(l.Order(), run);
            if CrashRecovery.Took(FreeContext(l, csum, last, stale, m, blocks[i], chain[i]), run) then
              && (PoolInv(l, end, Without(chain, i), Without(blocks, i)) <==> !spoilt) && (IsPool(l, end) <==> !spoilt)
              && Dir(l, end.words, Without(chain, i)) == Dir(l, m.words, chain) - {NameAt(m.words, l.Hdr(chain[i]))}
              && end.slots == m.slots - {(l.rec, chain[i])}
            else end == m && !spoilt
  {
    assert |run| > 0 && l.Wf() && Shape(l.Order(), m.tree);
    hide PoolInv, Dir, IsPool, CrashRecovery.IsRun, CrashRecovery.Took, CrashRecovery.Trusted, CrashRecovery.Spoilt,
         AllStores, FreeOps, BuddyCuts.Differs;
    var end, m' := run[|run| - 1].meta, AfterFree(l, m, blocks[i], chain[i]);
    CrashRecovery.CrashAtomic(FreeContext(l, csum, last, stale, m, blocks[i], chain[i]), run);
    FreeKeepsInv(l, m, chain, blocks, i);
    FreeEffect(l, m, blocks[i], chain[i]);
    if CrashRecovery.Spoilt(l.Order(), run) && end != m {
      OtherTreeIsNoPool(l, m', Without(chain, i), Without(blocks, i), end.tree);
    }
    PoolIsPool(l, end, Without(chain, i), Without(blocks, i));
  }

  /**
   Freeing the first of several headers: once it has committed it is never done, and no recovery from
   it ever finishes. Every attempt halts at the same place, with the block released and the header
   still at the head of the list.
   */
  lemma FreeingFirstHalts(l: Layout, m: Meta, chain: seq<nat>, blocks: seq<Pos>, p: Pos,
                          csum: CrashRecovery.Checksum, last: seq<Entry>, stale: seq<Entry>,
                          run: seq<CrashRecovery.Machine>)
    requires PoolInv(l, m, chain, blocks) && |chain| > 1 && BuddyPositions.Wf(l.Order(), p)
    requires var x := FreeContext(l, csum, last, stale, m, p, chain[0]);
             CrashRecovery.Start(x) && CrashRecovery.IsRun(x, run) && CrashRecovery.Trusted(x, run)
    ensures var end, took := run[|run| - 1], CrashRecovery.Took(FreeContext(l, csum, last, stale, m, p, chain[0]), run);
            && (took ==> !end.phase.Done? && !end.phase.Recovered?)
            && (end.phase.Halted? ==>
                  && took && (end.meta.tree == Release(l.Order(), m.tree, p) <==> !CrashRecovery.Spoilt(l.Order(), run))
                  && end.meta.words == m.words[l.Hdr(chain[1]) + OFF_PREV := 0] && end.meta.slots == m.slots)
  {
    assert l.Wf() && Shape(l.Order(), m.tree) && Linked(l, m.words, chain);
    FreeIsUpdate(l, m, chain, p, 0);
    HaltedState(l, m, chain, p);
    hide PoolInv, CrashRecovery.IsRun, CrashRecovery.Took, CrashRecovery.Trusted, CrashRecovery.Spoilt, AllStores,
         FreeOps,
         Release;
    CrashRecovery.HaltsForEver(FreeContext(l, csum, last, stale, m, p, chain[0]), run);
  }

  lemma HaltedState(l: Layout, m: Meta, chain: seq<nat>, p: Pos)
    requires l.Wf() && Shape(l.Order(), m.tree) && Linked(l, m.words, chain) && |chain| > 1 && BuddyPositions.Wf(l.Order(), p)
    ensures AllPlaced(l.Order(), AllStores(FreeOps(l, m, p, chain[0])))
    ensures RunStores(l.Order(), m, AllStores(FreeOps(l, m, p, chain[0]))).meta
         == Meta(Release(l.Order(), m.tree, p), m.words[l.Hdr(chain[1]) + OFF_PREV := 0], m.slots)
  {
    FreeStoresAre(l, m, p, chain[0]);
    FirstIsPlaced(l, m, p, chain[0]);
    FreeKept(l, m, p, chain[0]);
    RemoveCases(l, m.words, chain, 0);
    LinkWords(l, m.words, chain, 0);
    hide Linked, AllStores, FreeStores, Kept, ApplyAll, Release;
    ApplyTwo(l.Order(), m, TreeRelease(p), Word(l.Hdr(chain[1]) + OFF_PREV, 0));
  }
}
