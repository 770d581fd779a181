/** Virtual slots: the part of the tree beyond the memory, marked as allocated for good. */
module BuddyVirtual {
  import opened BuddyPositions
  import opened BuddyStatus
  import opened BuddyArena

  /** The positions `buddy_toggle_virtual_slots` toggles, in order, to cover the last
      `delta` units of the block of `p`. */
  function Slots(o: nat, p: Pos, delta: nat): (r: seq<Pos>)
    requires Wf(o, p) && 1 <= delta <= Size(o, p)
    decreases o - p.depth
  {
    if delta == Size(o, p) then [p]
    else
      LargerThanLeaf(o, p); ChildrenSplit(o, p);
      if delta <= Size(o, p) / 2 then Slots(o, Right(p), delta)
      else [Right(p)] + Slots(o, Left(p), delta - Size(o, p) / 2)
  }

  lemma LargerThanLeaf(o: nat, p: Pos)
    requires Wf(o, p) && Size(o, p) > 1
    ensures p.depth < o
  {
  }

  /** Unit `u` of memory lies in the block of `p`. */
  predicate Contains(o: nat, p: Pos, u: nat)
    requires Wf(o, p)
  {
    Start(o, p) <= u < Start(o, p) + Size(o, p)
  }

  ghost predicate AllWf(o: nat, ps: seq<Pos>) {
    forall i :: 0 <= i < |ps| ==> Wf(o, ps[i])
  }

  ghost predicate PairwiseDisjoint(o: nat, ps: seq<Pos>)
    requires AllWf(o, ps)
  {
    forall i, j :: 0 <= i < j < |ps| ==> Disjoint(o, ps[i], ps[j])
  }

  ghost predicate Covered(o: nat, ps: seq<Pos>, u: nat)
    requires AllWf(o, ps)
  {
    exists i :: 0 <= i < |ps| && Contains(o, ps[i], u)
  }

  /** The blocks are disjoint and together are exactly the units lo up to hi. */
  ghost predicate Tiles(o: nat, ps: seq<Pos>, lo: nat, hi: nat) {
    && lo <= hi && AllWf(o, ps) && PairwiseDisjoint(o, ps)
    && (forall i :: 0 <= i < |ps| ==> lo <= Start(o, ps[i]) && Start(o, ps[i]) + Size(o, ps[i]) <= hi)
    && (forall u :: lo <= u < hi ==> Covered(o, ps, u))
  }

  lemma OneTile(o: nat, p: Pos)
    requires Wf(o, p)
    ensures Tiles(o, [p], Start(o, p), Start(o, p) + Size(o, p))
  {
    forall u | Start(o, p) <= u < Start(o, p) + Size(o, p) ensures Covered(o, [p], u) {
      assert Contains(o, [p][0], u);
    }
  }

  lemma AddTile(o: nat, p: Pos, ps: seq<Pos>, lo: nat)
    requires Wf(o, p) && Tiles(o, ps, lo, Start(o, p))
    ensures Tiles(o, [p] + ps, lo, Start(o, p) + Size(o, p))
  {
    var qs := [p] + ps;
    assert forall i :: 1 <= i < |qs| ==> qs[i] == ps[i - 1];
    assert AllWf(o, qs);
    forall i, j | 0 <= i < j < |qs| ensures Disjoint(o, qs[i], qs[j]) {
      assert qs[j] == ps[j - 1];
      if i > 0 { assert qs[i] == ps[i - 1]; }
    }
    forall u | lo <= u < Start(o, p) + Size(o, p) ensures Covered(o, qs, u) {
      if u < Start(o, p) {
        assert Covered(o, ps, u);
        var i :| 0 <= i < |ps| && Contains(o, ps[i], u);
        assert Contains(o, qs[i + 1], u);
      } else {
        assert Contains(o, qs[0], u);
      }
    }
  }

  /** The slots tile exactly the last `delta` units. */
  lemma {:induction false} SlotsTile(o: nat, p: Pos, delta: nat)
    requires Wf(o, p) && 1 <= delta <= Size(o, p)
    ensures Tiles(o, Slots(o, p, delta), Start(o, p) + Size(o, p) - delta, Start(o, p) + Size(o, p))
    decreases o - p.depth
  {
    if delta == Size(o, p) {
      OneTile(o, p);
    } else {
      LargerThanLeaf(o, p);
      ChildrenSplit(o, p);
      if delta <= Size(o, p) / 2 {
        SlotsTile(o, Right(p), delta);
      } else {
        var rest := delta - Size(o, p) / 2;
        SlotsTile(o, Left(p), rest);
        AddTile(o, Right(p), Slots(o, Left(p), rest), Start(o, p) + Size(o, p) - delta);
      }
    }
  }

  function MarkAll(o: nat, st: seq<nat>, ps: seq<Pos>): (r: seq<nat>)
    requires Shape(o, st) && forall i :: 0 <= i < |ps| ==> Wf(o, ps[i])
    ensures Shape(o, r)
    decreases |ps|
  {
    if ps == [] then st else MarkAll(o, Mark(o, st, ps[0]), ps[1..])
  }

  function ReleaseAll(o: nat, st: seq<nat>, ps: seq<Pos>): (r: seq<nat>)
    requires Shape(o, st) && forall i :: 0 <= i < |ps| ==> Wf(o, ps[i])
    ensures Shape(o, r)
    decreases |ps|
  {
    if ps == [] then st else ReleaseAll(o, Release(o, st, ps[0]), ps[1..])
  }

  ghost function Elements(ps: seq<Pos>): set<Pos> {
    set p | p in ps
  }

  lemma StillFree(o: nat, live: set<Pos>, p: Pos, q: Pos)
    requires LiveSet(o, live) && LiveSet(o, live + {p}) && Wf(o, p) && Wf(o, q)
    requires Free(o, live, q) && Disjoint(o, p, q)
    ensures Free(o, live + {p}, q)
  {
  }

  lemma {:induction false} MarkAllCanonical(o: nat, live: set<Pos>, st: seq<nat>, ps: seq<Pos>)
    requires Shape(o, st) && LiveSet(o, live) && Canonical(o, live, st)
    requires AllWf(o, ps) && PairwiseDisjoint(o, ps)
    requires forall i :: 0 <= i < |ps| ==> Free(o, live, ps[i])
    ensures LiveSet(o, live + Elements(ps)) && Canonical(o, live + Elements(ps), MarkAll(o, st, ps))
    decreases |ps|
  {
    if ps == [] {
      assert live + Elements(ps) == live;
    } else {
      var p, rest := ps[0], ps[1..];
      MarkIsCanonical(o, live, st, p);
      forall i | 0 <= i < |rest| ensures Free(o, live + {p}, rest[i]) {
        StillFree(o, live, p, ps[i + 1]);
      }
      MarkAllCanonical(o, live + {p}, Mark(o, st, p), rest);
      assert live + Elements(ps) == live + {p} + Elements(rest);
    }
  }

  lemma {:induction false} ReleaseAllCanonical(o: nat, live: set<Pos>, st: seq<nat>, ps: seq<Pos>)
    requires Shape(o, st) && LiveSet(o, live) && Canonical(o, live, st)
    requires forall i :: 0 <= i < |ps| ==> ps[i] in live
    requires forall i, j :: 0 <= i < j < |ps| ==> ps[i] != ps[j]
    ensures AllWf(o, ps)
    ensures LiveSet(o, live - Elements(ps)) && Canonical(o, live - Elements(ps), ReleaseAll(o, st, ps))
    decreases |ps|
  {
    if ps == [] {
      assert live - Elements(ps) == live;
    } else {
      var p, rest := ps[0], ps[1..];
      ReleaseIsCanonical(o, live, st, p);
      assert forall i :: 0 <= i < |rest| ==> rest[i] == ps[i + 1];
      ReleaseAllCanonical(o, live - {p}, Release(o, st, p), rest);
      assert live - Elements(ps) == live - {p} - Elements(rest);
    }
  }

  // The virtual slots of an arena ---------------------------------------------------------------

  /** Units beyond the memory. */
  function Excess(ar: Arena): nat
    requires ar.blocks >= 1
  {
    Pow2(ar.Order() - 1) - ar.blocks
  }

  lemma ExcessInRightHalf(ar: Arena)
    requires ar.blocks >= 1 && Excess(ar) > 0
    ensures ar.Order() >= 2 && Wf(ar.Order(), Right(ROOT))
    ensures Excess(ar) <= Size(ar.Order(), Right(ROOT))
    ensures Start(ar.Order(), Right(ROOT)) + Size(ar.Order(), Right(ROOT)) == Pow2(ar.Order() - 1)
  {
    RootWf(ar.Order());
    RightHalf(ar.Order(), ROOT);
  }

  lemma RightHalf(o: nat, root: Pos)
    requires o >= 2 && Wf(o, root) && root.index == 1
    ensures Wf(o, Right(root)) && Pow2(o - 1) == 2 * Pow2(o - 2)
    ensures Start(o, Right(root)) == Pow2(o - 2) && Size(o, Right(root)) == Pow2(o - 2)
  {
    hide Start, Size, Pow2;
    HalfPower(o);
    RootBlock(o, root);
    ChildrenSplit(o, root);
  }

  lemma HalfPower(o: nat)
    requires o >= 2
    ensures Pow2(o - 1) == 2 * Pow2(o - 2)
  {
  }

  lemma RootBlock(o: nat, root: Pos)
    requires Wf(o, root) && root.index == 1
    ensures Start(o, root) == 0 && Size(o, root) == Pow2(o - 1)
  {
    IndexOneIsRoot(o, root);
  }

  function VirtualSlots(ar: Arena): seq<Pos>
    requires ar.blocks >= 1
  {
    if Excess(ar) == 0 then []
    else ExcessInRightHalf(ar); Slots(ar.Order(), Right(ROOT), Excess(ar))
  }

  /** The virtual slots tile exactly [memory, effective size). */
  lemma VirtualSlotsTile(ar: Arena)
    requires ar.blocks >= 1
    ensures Tiles(ar.Order(), VirtualSlots(ar), ar.blocks, Pow2(ar.Order() - 1))
  {
    if Excess(ar) > 0 {
      ExcessInRightHalf(ar);
      SlotsTile(ar.Order(), Right(ROOT), Excess(ar));
    }
  }

  lemma InsideTree(o: nat, p: Pos)
    requires Wf(o, p)
    ensures Start(o, p) + Size(o, p) <= Pow2(o - 1)
  {
    RootWf(o);
    RootCovers(o, p);
    RootBlock(o, ROOT);
    WithinCovers(o, ROOT, p);
  }

  lemma SharedUnit(o: nat, live: set<Pos>, p: Pos, q: Pos, u: nat)
    requires LiveSet(o, live) && Wf(o, p) && Free(o, live, p) && q in live
    requires Contains(o, p, u)
    ensures !Contains(o, q, u)
  {
    assert Disjoint(o, p, q);
  }

  /** The block lies in the memory. */
  ghost predicate InsideArena(ar: Arena, p: Pos) {
    ar.blocks >= 1 && Wf(ar.Order(), p) && Start(ar.Order(), p) + Size(ar.Order(), p) <= ar.blocks
  }

  /** With the virtual slots live, every free position lies inside the memory. */
  lemma FreeIsInsideArena(ar: Arena, live: set<Pos>, p: Pos)
    requires ar.blocks >= 1 && LiveSet(ar.Order(), live) && Elements(VirtualSlots(ar)) <= live
    requires Wf(ar.Order(), p) && Free(ar.Order(), live, p)
    ensures InsideArena(ar, p)
  {
    var o, ps := ar.Order(), VirtualSlots(ar);
    VirtualSlotsTile(ar);
    InsideTree(o, p);
    LastUnitUncovered(o, live, ps, ar.blocks, p);
  }

  lemma LastUnitUncovered(o: nat, live: set<Pos>, ps: seq<Pos>, lo: nat, p: Pos)
    requires LiveSet(o, live) && Elements(ps) <= live && Wf(o, p) && Free(o, live, p)
    requires Tiles(o, ps, lo, Pow2(o - 1)) && Start(o, p) + Size(o, p) <= Pow2(o - 1)
    ensures Start(o, p) + Size(o, p) <= lo
  {
    var u := Start(o, p) + Size(o, p) - 1;
    if u >= lo {
      assert Contains(o, p, u);
      assert Covered(o, ps, u);
      var i :| 0 <= i < |ps| && Contains(o, ps[i], u);
      SharedUnit(o, live, p, ps[i], u);
    }
  }

  /** Marking the virtual slots of a fresh tree and releasing them again restores it. */
  lemma VirtualRoundTrip(ar: Arena, st: seq<nat>)
    requires ar.blocks >= 1 && Shape(ar.Order(), st) && Canonical(ar.Order(), {}, st)
    ensures AllWf(ar.Order(), VirtualSlots(ar))
    ensures LiveSet(ar.Order(), Elements(VirtualSlots(ar)))
    ensures Canonical(ar.Order(), Elements(VirtualSlots(ar)), MarkAll(ar.Order(), st, VirtualSlots(ar)))
    ensures ReleaseAll(ar.Order(), MarkAll(ar.Order(), st, VirtualSlots(ar)), VirtualSlots(ar)) == st
  {
    var o, ps := ar.Order(), VirtualSlots(ar);
    VirtualSlotsTile(ar);
    MarkAllCanonical(o, {}, st, ps);
    assert {} + Elements(ps) == Elements(ps);
    var m := MarkAll(o, st, ps);
    forall i, j | 0 <= i < j < |ps| ensures ps[i] != ps[j] {
      assert Disjoint(o, ps[i], ps[j]);
    }
    ReleaseAllCanonical(o, Elements(ps), m, ps);
    assert Elements(ps) - Elements(ps) == {};
    MarkAllKeepsZero(o, st, ps);
    ReleaseAllKeepsZero(o, m, ps);
    CanonicalUnique(o, {}, st, ReleaseAll(o, m, ps));
  }

  lemma {:induction false} MarkAllKeepsZero(o: nat, st: seq<nat>, ps: seq<Pos>)
    requires Shape(o, st) && AllWf(o, ps)
    ensures MarkAll(o, st, ps)[0] == st[0]
    decreases |ps|
  {
    if ps != [] {
      IndexBound(o, ps[0]);
      ChainFrame(o, st[ps[0].index := Width(o, ps[0])], ps[0], 0);
      MarkAllKeepsZero(o, Mark(o, st, ps[0]), ps[1..]);
    }
  }

  lemma {:induction false} ReleaseAllKeepsZero(o: nat, st: seq<nat>, ps: seq<Pos>)
    requires Shape(o, st) && AllWf(o, ps)
    ensures ReleaseAll(o, st, ps)[0] == st[0]
    decreases |ps|
  {
    if ps != [] {
      IndexBound(o, ps[0]);
      ChainFrame(o, st[ps[0].index := 0], ps[0], 0);
      ReleaseAllKeepsZero(o, Release(o, st, ps[0]), ps[1..]);
    }
  }
}
