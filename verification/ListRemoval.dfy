/** Unlinking a header from the object list through the log. */
module ListRemoval {
  import opened Sequences
  import opened BuddyPositions
  import opened BuddyStatus
  import opened RedoLog
  import opened MetaStores
  import opened ObjectPool

  /** The entries that join the neighbours of a header, and move the list head if it was the first. */
  function SpliceOps(l: Layout, next: nat, prev: nat, first: bool): seq<Op> {
    [TwoVal(next + OFF_PREV, prev, prev + OFF_NEXT, next)] + if first then [Val(l.head, next)] else []
  }

  /** The header is the only one of the list. */
  predicate IsOnly(l: Layout, words: map<nat, nat>, h: nat) {
    Rd(words, l.head) == h && Rd(words, h + OFF_NEXT) == 0
  }

  /** `record_list_queue_remove` of the header at `h`. */
  function RemoveOps(l: Layout, words: map<nat, nat>, h: nat): seq<Op> {
    if IsOnly(l, words, h) then [Val(l.head, 0)]
    else SpliceOps(l, Rd(words, h + OFF_NEXT), Rd(words, h + OFF_PREV), Rd(words, l.head) == h)
  }

  /** The second offset of the splice is null. */
  predicate RemoveHalts(l: Layout, words: map<nat, nat>, h: nat) {
    !IsOnly(l, words, h) && Rd(words, h + OFF_PREV) + OFF_NEXT == 0
  }

  /** The words once the logged stores are made, or those before the halt. */
  function RemoveWords(l: Layout, words: map<nat, nat>, h: nat): map<nat, nat> {
    var next, prev := Rd(words, h + OFF_NEXT), Rd(words, h + OFF_PREV);
    if IsOnly(l, words, h) then words[l.head := 0]
    else if RemoveHalts(l, words, h) then words[next + OFF_PREV := prev]
    else
      var w := words[next + OFF_PREV := prev][prev + OFF_NEXT := next];
      if Rd(words, l.head) == h then w[l.head := next] else w
  }

  lemma OneWord(o: nat, m: Meta, a: nat, v: nat)
    requires Shape(o, m.tree)
    ensures ApplyAll(o, m, [Word(a, v)]) == m.(words := m.words[a := v])
  {
    assert [Word(a, v)][1..] == [];
  }

  lemma TwoWords(o: nat, m: Meta, a: nat, v: nat, b: nat, w: nat)
    requires Shape(o, m.tree)
    ensures ApplyAll(o, m, [Word(a, v), Word(b, w)]) == m.(words := m.words[a := v][b := w])
  {
    assert [Word(a, v), Word(b, w)][1..] == [Word(b, w)];
    OneWord(o, m.(words := m.words[a := v]), b, w);
  }

  lemma ThreeWords(o: nat, m: Meta, a: nat, v: nat, b: nat, w: nat, c: nat, x: nat)
    requires Shape(o, m.tree)
    ensures ApplyAll(o, m, [Word(a, v), Word(b, w), Word(c, x)]) == m.(words := m.words[a := v][b := w][c := x])
  {
    assert [Word(a, v), Word(b, w), Word(c, x)][1..] == [Word(b, w), Word(c, x)];
    TwoWords(o, m.(words := m.words[a := v]), b, w, c, x);
  }

  lemma OpsStores(a: Op, b: Op)
    ensures AllStores([a]) == StoresOf(a) && AllStores([a, b]) == StoresOf(a) + StoresOf(b)
  {
    AllStoresCons(a, []); AllStoresCons(b, []); AllStoresCons(a, [b]);
    assert [a] + [] == [a] && [b] + [] == [b] && [a] + [b] == [a, b];
  }

  /** The stores of a removal, with the halt where the predecessor is null. */
  function RemoveStores(l: Layout, words: map<nat, nat>, h: nat): seq<Store> {
    var next, prev := Rd(words, h + OFF_NEXT), Rd(words, h + OFF_PREV);
    var tail := if Rd(words, l.head) == h then [Word(l.head, next)] else [];
    if IsOnly(l, words, h) then [Word(l.head, 0)]
    else if RemoveHalts(l, words, h) then [Word(next + OFF_PREV, prev), Halt] + tail
    else [Word(next + OFF_PREV, prev), Word(prev + OFF_NEXT, next)] + tail
  }

  lemma RemoveStoresAre(l: Layout, words: map<nat, nat>, h: nat)
    ensures AllStores(RemoveOps(l, words, h)) == RemoveStores(l, words, h)
  {
    var next, prev := Rd(words, h + OFF_NEXT), Rd(words, h + OFF_PREV);
    if IsOnly(l, words, h) {
      OpsStores(Val(l.head, 0), Skip);
    } else {
      var two := TwoVal(next + OFF_PREV, prev, prev + OFF_NEXT, next);
      OpsStores(two, Val(l.head, next));
      assert [two] + [Val(l.head, next)] == [two, Val(l.head, next)];
      assert [two] + [] == [two];
    }
  }

  /** The stores made: all of them, or those before the halt. */
  lemma RemoveKept(l: Layout, words: map<nat, nat>, h: nat)
    ensures var kept := Kept(RemoveStores(l, words, h));
            if RemoveHalts(l, words, h) then kept == [Word(Rd(words, h + OFF_NEXT) + OFF_PREV, Rd(words, h + OFF_PREV))]
            else kept == RemoveStores(l, words, h)
    ensures RemoveHalts(l, words, h) <==> Halt in RemoveStores(l, words, h)
  {
    var ss := RemoveStores(l, words, h);
    KeptAll(ss);
    if RemoveHalts(l, words, h) {
      assert ss[1] == Halt && !ss[0].Halt?;
    }
  }

  /** Executing the entries of a removal stores exactly these words, and halts exactly on a null predecessor. */
  lemma RemoveEffect(l: Layout, o: nat, m: Meta, h: nat)
    requires Shape(o, m.tree)
    ensures AllPlaced(o, AllStores(RemoveOps(l, m.words, h)))
    ensures RunStores(o, m, AllStores(RemoveOps(l, m.words, h)))
         == Outcome(m.(words := RemoveWords(l, m.words, h)), RemoveHalts(l, m.words, h))
  {
    RemoveStoresAre(l, m.words, h);
    RemoveKept(l, m.words, h);
    KeptEffect(l, o, m, h);
    KeptAll(RemoveStores(l, m.words, h));
    hide RemoveOps, AllStores, ApplyAll, Kept, RemoveWords;
  }

  lemma KeptEffect(l: Layout, o: nat, m: Meta, h: nat)
    requires Shape(o, m.tree)
    ensures AllStorable(o, Kept(RemoveStores(l, m.words, h)))
    ensures ApplyAll(o, m, Kept(RemoveStores(l, m.words, h))) == m.(words := RemoveWords(l, m.words, h))
  {
    var next, prev := Rd(m.words, h + OFF_NEXT), Rd(m.words, h + OFF_PREV);
    RemoveKept(l, m.words, h);
    hide ApplyAll, Kept;
    if IsOnly(l, m.words, h) {
      OneWord(o, m, l.head, 0);
    } else if RemoveHalts(l, m.words, h) {
      OneWord(o, m, next + OFF_PREV, prev);
    } else {
      SpliceEffect(l, o, m, h);
    }
  }

  lemma SpliceEffect(l: Layout, o: nat, m: Meta, h: nat)
    requires Shape(o, m.tree) && !IsOnly(l, m.words, h) && !RemoveHalts(l, m.words, h)
    ensures AllStorable(o, RemoveStores(l, m.words, h))
    ensures ApplyAll(o, m, RemoveStores(l, m.words, h)) == m.(words := RemoveWords(l, m.words, h))
  {
    hide RemoveStores, RemoveWords, ApplyAll, IsOnly, RemoveHalts;
    if Rd(m.words, l.head) == h {
      FirstSplice(l, o, m, h);
    } else {
      InnerSplice(l, o, m, h);
    }
  }

  lemma FirstSplice(l: Layout, o: nat, m: Meta, h: nat)
    requires Shape(o, m.tree) && !IsOnly(l, m.words, h) && !RemoveHalts(l, m.words, h) && Rd(m.words, l.head) == h
    ensures AllStorable(o, RemoveStores(l, m.words, h))
    ensures ApplyAll(o, m, RemoveStores(l, m.words, h)) == m.(words := RemoveWords(l, m.words, h))
  {
    hide ApplyAll, IsOnly, RemoveHalts, Rd;
    var next, prev := Rd(m.words, h + OFF_NEXT), Rd(m.words, h + OFF_PREV);
    assert RemoveStores(l, m.words, h) == [Word(next + OFF_PREV, prev), Word(prev + OFF_NEXT, next), Word(l.head, next)];
    ThreeWords(o, m, next + OFF_PREV, prev, prev + OFF_NEXT, next, l.head, next);
  }

  lemma InnerSplice(l: Layout, o: nat, m: Meta, h: nat)
    requires Shape(o, m.tree) && !IsOnly(l, m.words, h) && !RemoveHalts(l, m.words, h) && Rd(m.words, l.head) != h
    ensures AllStorable(o, RemoveStores(l, m.words, h))
    ensures ApplyAll(o, m, RemoveStores(l, m.words, h)) == m.(words := RemoveWords(l, m.words, h))
  {
    hide ApplyAll, IsOnly, RemoveHalts, Rd;
    var next, prev := Rd(m.words, h + OFF_NEXT), Rd(m.words, h + OFF_PREV);
    assert RemoveStores(l, m.words, h) == [Word(next + OFF_PREV, prev), Word(prev + OFF_NEXT, next)];
    TwoWords(o, m, next + OFF_PREV, prev, prev + OFF_NEXT, next);
  }

  lemma LinkWords(l: Layout, w: map<nat, nat>, chain: seq<nat>, i: nat)
    requires Linked(l, w, chain) && i < |chain|
    ensures Rd(w, l.Hdr(chain[i]) + OFF_NEXT) == if i + 1 < |chain| then l.Hdr(chain[i + 1]) else 0
    ensures Rd(w, l.Hdr(chain[i]) + OFF_PREV) == if i > 0 then l.Hdr(chain[i - 1]) else 0
    ensures Rd(w, l.head) == l.Hdr(chain[i]) <==> i == 0
  {
    assert NextOk(l, w, chain, i) && PrevOk(l, w, chain, i);
  }

  /** Which case of the removal a header of the list is. */
  lemma RemoveCases(l: Layout, w: map<nat, nat>, chain: seq<nat>, i: nat)
    requires l.Wf() && Linked(l, w, chain) && i < |chain|
    ensures IsOnly(l, w, l.Hdr(chain[i])) <==> |chain| == 1
    ensures RemoveHalts(l, w, l.Hdr(chain[i])) <==> i == 0 && |chain| > 1
  {
    LinkWords(l, w, chain, i);
  }

  // The three headers on which it fails or is trivial ---------------------------------------------------

  lemma OnlyOneUnlinked(l: Layout, w: map<nat, nat>, chain: seq<nat>)
    requires l.Wf() && Linked(l, w, chain) && |chain| == 1
    ensures Linked(l, RemoveWords(l, w, l.Hdr(chain[0])), Without(chain, 0))
  {
    LinkWords(l, w, chain, 0);
    assert Without(chain, 0) == [];
  }

  /** The first header of several: the run halts, with the list head still on that header. */
  lemma FirstHalts(l: Layout, o: nat, m: Meta, chain: seq<nat>)
    requires Shape(o, m.tree) && l.Wf() && Linked(l, m.words, chain) && |chain| > 1
    ensures AllPlaced(o, AllStores(RemoveOps(l, m.words, l.Hdr(chain[0]))))
    ensures var out := RunStores(o, m, AllStores(RemoveOps(l, m.words, l.Hdr(chain[0]))));
            && out.halted && out.meta.words == m.words[l.Hdr(chain[1]) + OFF_PREV := 0]
            && Rd(out.meta.words, l.head) == l.Hdr(chain[0])
            && !Linked(l, out.meta.words, Without(chain, 0))
  {
    RemoveEffect(l, o, m, l.Hdr(chain[0]));
    RemoveCases(l, m.words, chain, 0);
    LinkWords(l, m.words, chain, 0);
    HeadersDiffer(l, chain, 0, 1);
    HeadersDiffer(l, chain, 1, 1);
    assert Without(chain, 0)[0] == chain[1];
  }

  /** The last header of several: the list tail still names it, and one store goes below the list. */
  lemma LastLeavesTail(l: Layout, o: nat, m: Meta, chain: seq<nat>)
    requires Shape(o, m.tree) && l.Wf() && Linked(l, m.words, chain) && |chain| > 1
    ensures AllPlaced(o, AllStores(RemoveOps(l, m.words, l.Hdr(chain[|chain| - 1]))))
    ensures var out := RunStores(o, m, AllStores(RemoveOps(l, m.words, l.Hdr(chain[|chain| - 1]))));
            && !out.halted && Rd(out.meta.words, l.Tail()) == l.Hdr(chain[|chain| - 1])
            && Rd(out.meta.words, OFF_PREV) == l.Hdr(chain[|chain| - 2])
            && !Linked(l, out.meta.words, Without(chain, |chain| - 1))
  {
    var n := |chain| - 1;
    RemoveEffect(l, o, m, l.Hdr(chain[n]));
    RemoveCases(l, m.words, chain, n);
    LinkWords(l, m.words, chain, n);
    HeadersDiffer(l, chain, n - 1, n);
    HeadersDiffer(l, chain, n - 1, n - 1);
    assert Without(chain, n) == chain[..n];
  }

  // A header between two others --------------------------------------------------------------------------

  predicate Interior(chain: seq<nat>, i: nat) {
    0 < i && i + 1 < |chain|
  }

  lemma RemoveReads(l: Layout, w: map<nat, nat>, chain: seq<nat>, i: nat, a: nat)
    requires l.Wf() && Linked(l, w, chain) && Interior(chain, i)
    ensures var w', next, prev := RemoveWords(l, w, l.Hdr(chain[i])), l.Hdr(chain[i + 1]), l.Hdr(chain[i - 1]);
            Rd(w', a) == if a == prev + OFF_NEXT then next else if a == next + OFF_PREV then prev else Rd(w, a)
  {
    LinkWords(l, w, chain, i);
    RemoveCases(l, w, chain, i);
  }

  lemma HeadersDiffer(l: Layout, chain: seq<nat>, i: nat, j: nat)
    requires l.Wf() && SlotChain(chain) && i < |chain| && j < |chain|
    ensures l.Hdr(chain[i]) == l.Hdr(chain[j]) <==> i == j
    ensures l.Hdr(chain[i]) != l.Hdr(chain[j]) + OFF_PREV && l.Hdr(chain[i]) > 16
    ensures l.head != l.Hdr(chain[i]) && l.head != l.Hdr(chain[i]) + OFF_PREV
    ensures l.Tail() != l.Hdr(chain[i]) && l.Tail() != l.Hdr(chain[i]) + OFF_PREV
  {
    assert chain[i] < NUM_OBJ_SLOTS && chain[j] < NUM_OBJ_SLOTS;
    assert i < j ==> chain[i] != chain[j];
    assert j < i ==> chain[j] != chain[i];
  }

  lemma UnlinkedNext(l: Layout, w: map<nat, nat>, chain: seq<nat>, i: nat, j: nat)
    requires l.Wf() && Linked(l, w, chain) && Interior(chain, i) && j < |chain| - 1
    ensures NextOk(l, RemoveWords(l, w, l.Hdr(chain[i])), Without(chain, i), j)
  {
    var k := if j < i then j else j + 1;
    RemoveReads(l, w, chain, i, l.Hdr(chain[k]) + OFF_NEXT);
    LinkWords(l, w, chain, k);
    HeadersDiffer(l, chain, k, i + 1);
    HeadersDiffer(l, chain, k, i - 1);
    hide RemoveWords, Linked, Layout.Wf, SlotChain;
    assert Without(chain, i)[j] == chain[k];
  }

  lemma UnlinkedPrev(l: Layout, w: map<nat, nat>, chain: seq<nat>, i: nat, j: nat)
    requires l.Wf() && Linked(l, w, chain) && Interior(chain, i) && j < |chain| - 1
    ensures PrevOk(l, RemoveWords(l, w, l.Hdr(chain[i])), Without(chain, i), j)
  {
    var k := if j < i then j else j + 1;
    RemoveReads(l, w, chain, i, l.Hdr(chain[k]) + OFF_PREV);
    LinkWords(l, w, chain, k);
    HeadersDiffer(l, chain, k, i + 1);
    HeadersDiffer(l, chain, i - 1, k);
    hide RemoveWords, Linked, Layout.Wf, SlotChain;
    assert Without(chain, i)[j] == chain[k];
  }

  lemma UnlinkedEnds(l: Layout, w: map<nat, nat>, chain: seq<nat>, i: nat)
    requires l.Wf() && Linked(l, w, chain) && Interior(chain, i)
    ensures var w', chain' := RemoveWords(l, w, l.Hdr(chain[i])), Without(chain, i);
            Rd(w', l.head) == l.Hdr(chain'[0]) && Rd(w', l.Tail()) == l.Hdr(chain'[|chain'| - 1])
  {
    RemoveReads(l, w, chain, i, l.head);
    RemoveReads(l, w, chain, i, l.Tail());
    HeadersDiffer(l, chain, i + 1, i + 1);
    HeadersDiffer(l, chain, i - 1, i - 1);
  }

  lemma InteriorIsUnlinked(l: Layout, w: map<nat, nat>, chain: seq<nat>, i: nat)
    requires l.Wf() && Linked(l, w, chain) && Interior(chain, i)
    ensures Linked(l, RemoveWords(l, w, l.Hdr(chain[i])), Without(chain, i))
  {
    var w', chain' := RemoveWords(l, w, l.Hdr(chain[i])), Without(chain, i);
    WithoutDistinct(chain, i);
    UnlinkedEnds(l, w, chain, i);
    forall j | 0 <= j < |chain'| ensures NextOk(l, w', chain', j) && PrevOk(l, w', chain', j) {
      UnlinkedNext(l, w, chain, i, j);
      UnlinkedPrev(l, w, chain, i, j);
    }
  }

  // All headers ---------------------------------------------------------------------------------------------

  /**
   When a removal runs to its end and leaves the list without the header: for the only header and
   for one between two others. The first of several halts the machine, and the last of several leaves
   the list tail on the header that was removed.
   */
  lemma RemoveExact(l: Layout, o: nat, m: Meta, chain: seq<nat>, i: nat)
    requires Shape(o, m.tree) && l.Wf() && Linked(l, m.words, chain) && i < |chain|
    ensures AllPlaced(o, AllStores(RemoveOps(l, m.words, l.Hdr(chain[i]))))
    ensures var out := RunStores(o, m, AllStores(RemoveOps(l, m.words, l.Hdr(chain[i]))));
            !out.halted && Linked(l, out.meta.words, Without(chain, i)) <==> |chain| == 1 || Interior(chain, i)
  {
    RemoveEffect(l, o, m, l.Hdr(chain[i]));
    RemoveCases(l, m.words, chain, i);
    if |chain| == 1 {
      OnlyOneUnlinked(l, m.words, chain);
    } else if Interior(chain, i) {
      InteriorIsUnlinked(l, m.words, chain, i);
    } else if i > 0 {
      LastLeavesTail(l, o, m, chain);
    }
  }

  /** Words of the list: its head and tail, and the links of its headers. */
  ghost predicate ListWord(l: Layout, chain: seq<nat>, a: nat) {
    || a == l.head || a == l.Tail()
    || exists j :: 0 <= j < |chain| && (a == l.Hdr(chain[j]) + OFF_NEXT || a == l.Hdr(chain[j]) + OFF_PREV)
  }

  /** Every store that is made goes to a word of the list. */
  ghost predicate StoresInList(l: Layout, words: map<nat, nat>, chain: seq<nat>, h: nat) {
    forall s :: s in Kept(AllStores(RemoveOps(l, words, h))) ==> s.Word? && ListWord(l, chain, s.addr)
  }

  /**
   When a removal stores only to words of the list: for every header but the last of several, whose
   null successor stands for a header at offset zero.
   */
  lemma RemoveInsideExact(l: Layout, w: map<nat, nat>, chain: seq<nat>, i: nat)
    requires l.Wf() && Linked(l, w, chain) && i < |chain|
    ensures StoresInList(l, w, chain, l.Hdr(chain[i])) <==> |chain| == 1 || i < |chain| - 1
  {
    var h := l.Hdr(chain[i]);
    RemoveStoresAre(l, w, h);
    RemoveKept(l, w, h);
    LinkWords(l, w, chain, i);
    RemoveCases(l, w, chain, i);
    if |chain| > 1 && i == |chain| - 1 {
      BelowList(l, chain);
      assert RemoveStores(l, w, h)[0] == Word(OFF_PREV, l.Hdr(chain[i - 1]));
      assert Word(OFF_PREV, l.Hdr(chain[i - 1])) in Kept(AllStores(RemoveOps(l, w, h)));
    } else if |chain| > 1 {
      assert ListWord(l, chain, l.Hdr(chain[i + 1]) + OFF_PREV);
      assert i > 0 ==> ListWord(l, chain, l.Hdr(chain[i - 1]) + OFF_NEXT);
    }
  }

  lemma BelowList(l: Layout, chain: seq<nat>)
    requires l.Wf() && SlotChain(chain)
    ensures !ListWord(l, chain, OFF_PREV)
  {
    forall j | 0 <= j < |chain| ensures OFF_PREV != l.Hdr(chain[j]) + OFF_NEXT && OFF_PREV != l.Hdr(chain[j]) + OFF_PREV {
      HeadersDiffer(l, chain, j, j);
    }
  }
}
