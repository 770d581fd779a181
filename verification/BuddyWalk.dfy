/** The stackless walk over the tree and what it counts: the maximal free blocks. */
module BuddyWalk {
  import opened BuddyPositions
  import opened BuddyStatus
  import opened BuddySearch

  // The walk ------------------------------------------------------------------------------------

  /** Where the walk goes once the subtree of `p` is done; the invalid position at the end. */
  function Turn(o: nat, p: Pos): (r: Pos)
    requires Wf(o, p)
    ensures r == INVALID_POS || Wf(o, r)
    decreases p.depth
  {
    if p.index == 1 then INVALID_POS
    else
      IndexOneIsRoot(o, p); ParentWf(o, p);
      if p.index % 2 == 1 then Turn(o, Parent(p)) else Sibling(p)
  }

  /** The walk continues exactly where the block of `p` ends. */
  lemma {:induction false} TurnIsNextBlock(o: nat, p: Pos)
    requires Wf(o, p)
    ensures Turn(o, p) != INVALID_POS ==> Start(o, Turn(o, p)) == Start(o, p) + Size(o, p)
    decreases p.depth
  {
    if p.index != 1 {
      IndexOneIsRoot(o, p);
      ParentWf(o, p);
      ChildrenSplit(o, Parent(p));
      if p.index % 2 == 1 {
        TurnIsNextBlock(o, Parent(p));
      }
    }
  }

  /** `struct buddy_tree_walk_state`, started at the root. */
  class WalkState {
    var current: Pos
    var goingUp: bool
    var done: bool

    /** `buddy_tree_walk_state_root`. */
    constructor ()
      ensures current == ROOT && !goingUp && !done
    {
      current, goingUp, done := ROOT, false, false;
    }

    /** `buddy_tree_walk`. */
    method Walk(o: nat) returns (more: bool)
      requires Wf(o, current) && !done
      modifies this
      ensures var target := if !old(goingUp) && old(current).depth < o then Left(old(current))
                            else Turn(o, old(current));
              && !goingUp && done == !more
              && more == (target != INVALID_POS)
              && (more ==> current == target && Wf(o, current))
    {
      ghost var from := current;
      if !goingUp {
        if current.depth < o {
          ChildrenWf(o, current);
          current := Left(current);
          return true;
        }
        goingUp := true;
      }
      while goingUp
        invariant Wf(o, current) && !done ==> goingUp ==> Turn(o, current) == Turn(o, from)
        invariant Wf(o, current)
        invariant goingUp ==> !done
        invariant !goingUp ==> if done then Turn(o, from) == INVALID_POS else current == Turn(o, from)
        decreases goingUp, current.depth
      {
        IndexOneIsRoot(o, current);
        if current.index == 1 {
          done, goingUp := true, false;
        } else {
          ParentWf(o, current);
          if current.index % 2 == 1 {
            current := Parent(current);
          } else {
            current := Sibling(current);
            goingUp := false;
          }
        }
      }
      more := !done;
    }
  }

  // What the walk visits --------------------------------------------------------------------------

  /** The free blocks below `p` that the walk reports, from left to right. */
  function FreeList(o: nat, st: seq<nat>, p: Pos): (r: seq<Pos>)
    requires Shape(o, st) && Wf(o, p)
    decreases o - p.depth
  {
    IndexBound(o, p);
    if st[p.index] == Width(o, p) then []
    else if st[p.index] == 0 then [p]
    else if p.depth == o then []
    else ChildrenWf(o, p); FreeList(o, st, Left(p)) + FreeList(o, st, Right(p))
  }

  /** The free blocks reported after the subtree of `p`. */
  function RestList(o: nat, st: seq<nat>, p: Pos): (r: seq<Pos>)
    requires Shape(o, st) && Wf(o, p)
    decreases p.depth
  {
    if p.index == 1 then []
    else
      IndexOneIsRoot(o, p); ParentWf(o, p);
      if p.index % 2 == 1 then RestList(o, st, Parent(p))
      else FreeList(o, st, Sibling(p)) + RestList(o, st, Parent(p))
  }

  /** What is left after the subtree of `p` is the next subtree and what is left after that. */
  lemma {:induction false} TurnRest(o: nat, st: seq<nat>, p: Pos)
    requires Shape(o, st) && Wf(o, p)
    ensures var t := Turn(o, p);
            RestList(o, st, p) == if t == INVALID_POS then [] else FreeList(o, st, t) + RestList(o, st, t)
    decreases p.depth
  {
    if p.index != 1 {
      IndexOneIsRoot(o, p);
      ParentWf(o, p);
      if p.index % 2 == 1 {
        TurnRest(o, st, Parent(p));
      }
    }
  }

  /** Descending to the left child splits a partial block. */
  lemma LeftRest(o: nat, st: seq<nat>, p: Pos)
    requires Shape(o, st) && Wf(o, p) && p.depth < o && p.index < |st|
    requires st[p.index] != 0 && st[p.index] != Width(o, p)
    ensures Wf(o, Left(p))
    ensures FreeList(o, st, Left(p)) + RestList(o, st, Left(p)) == FreeList(o, st, p) + RestList(o, st, p)
  {
    ChildrenWf(o, p);
    assert Left(p).index % 2 == 0;
    var l, r, rest := FreeList(o, st, Left(p)), FreeList(o, st, Right(p)), RestList(o, st, p);
    assert l + (r + rest) == (l + r) + rest;
  }

  // Which blocks these are --------------------------------------------------------------------------

  /** A free block that is not part of a larger free block. */
  ghost predicate MaximalFree(o: nat, live: set<Pos>, p: Pos)
    requires LiveSet(o, live)
  {
    Wf(o, p) && Free(o, live, p) && TopOfFree(o, live, p)
  }

  lemma FreeBelow(o: nat, live: set<Pos>, p: Pos, q: Pos)
    requires LiveSet(o, live) && Wf(o, p) && Wf(o, q) && Within(p, q) && Free(o, live, p)
    ensures Free(o, live, q)
  {
    WithinCovers(o, p, q);
    forall x | x in live ensures Disjoint(o, q, x) {
      assert Disjoint(o, p, x);
    }
  }

  /** No free block lies below a full one. */
  lemma FullHasNoFree(o: nat, live: set<Pos>, p: Pos, q: Pos)
    requires LiveSet(o, live) && Wf(o, p) && Wf(o, q) && Within(p, q)
    requires Stat(o, live, p) == Width(o, p)
    ensures !Free(o, live, q)
  {
    if Free(o, live, q) {
      StatusComplete(o, live, p, q);
    }
  }

  /** Below a free block only the block itself can be maximal. */
  lemma OnlyTopIsMaximal(o: nat, live: set<Pos>, p: Pos, q: Pos)
    requires LiveSet(o, live) && Wf(o, p) && Free(o, live, p) && Within(p, q) && MaximalFree(o, live, q)
    ensures q == p
  {
    if q != p {
      IndexOneIsRoot(o, q);
      WithinDepth(p, Parent(q));
      FreeBelow(o, live, p, Parent(q));
    }
  }

  /** The walk reports exactly the maximal free blocks. */
  lemma {:induction false} FreeListExact(o: nat, live: set<Pos>, st: seq<nat>, p: Pos, q: Pos)
    requires Shape(o, st) && LiveSet(o, live) && Canonical(o, live, st)
    requires Wf(o, p) && Uncovered(live, p) && TopOfFree(o, live, p)
    ensures q in FreeList(o, st, p) <==> Within(p, q) && MaximalFree(o, live, q)
    decreases o - p.depth
  {
    hide LiveSet, Free, Uncovered, TopOfFree, MaximalFree, Within, Stat;
    IndexBound(o, p);
    assert st[p.index] == Stat(o, live, p);
    if st[p.index] == Width(o, p) {
      FullBlockExact(o, live, p, q);
    } else if st[p.index] == 0 {
      FreeBlockExact(o, live, p, q);
    } else {
      SplitBlock(o, live, st, p);
      FreeListExact(o, live, st, Left(p), q);
      FreeListExact(o, live, st, Right(p), q);
      if MaximalFree(o, live, q) {
        MaximalIsBelowChild(o, live, p, q);
      }
      assert FreeList(o, st, p) == FreeList(o, st, Left(p)) + FreeList(o, st, Right(p));
    }
  }

  lemma FullBlockExact(o: nat, live: set<Pos>, p: Pos, q: Pos)
    requires LiveSet(o, live) && Wf(o, p) && Stat(o, live, p) == Width(o, p)
    ensures !(Within(p, q) && MaximalFree(o, live, q))
  {
    if Within(p, q) && Wf(o, q) {
      FullHasNoFree(o, live, p, q);
    }
  }

  /** The parent of `p`, if any, is not free. */
  ghost predicate TopOfFree(o: nat, live: set<Pos>, p: Pos)
    requires LiveSet(o, live)
  {
    p != ROOT ==> p.depth > 0 && Wf(o, Parent(p)) && !Free(o, live, Parent(p))
  }

  lemma FreeBlockExact(o: nat, live: set<Pos>, p: Pos, q: Pos)
    requires LiveSet(o, live) && Wf(o, p) && Uncovered(live, p) && TopOfFree(o, live, p)
    requires Stat(o, live, p) == 0
    ensures q == p <==> Within(p, q) && MaximalFree(o, live, q)
  {
    ZeroIsFree(o, live, p);
    assert Within(p, p);
    if Within(p, q) && MaximalFree(o, live, q) {
      OnlyTopIsMaximal(o, live, p, q);
    }
  }

  lemma MaximalIsBelowChild(o: nat, live: set<Pos>, p: Pos, q: Pos)
    requires LiveSet(o, live) && Wf(o, p) && !Free(o, live, p) && MaximalFree(o, live, q)
    ensures Within(p, q) <==> Within(Left(p), q) || Within(Right(p), q)
  {
    if Within(p, q) {
      BelowChild(o, p, q);
    }
    WithinChild(p, q);
  }

  /** A partial block is split: it is neither free nor live, and its children inherit the premises. */
  lemma SplitBlock(o: nat, live: set<Pos>, st: seq<nat>, p: Pos)
    requires Shape(o, st) && LiveSet(o, live) && Canonical(o, live, st)
    requires Wf(o, p) && Uncovered(live, p) && p.index < |st|
    requires st[p.index] != 0 && st[p.index] != Width(o, p)
    ensures p !in live && p.depth < o && !Free(o, live, p)
    ensures Wf(o, Left(p)) && Wf(o, Right(p)) && Parent(Left(p)) == p && Parent(Right(p)) == p
    ensures Uncovered(live, Left(p)) && Uncovered(live, Right(p))
    ensures TopOfFree(o, live, Left(p)) && TopOfFree(o, live, Right(p))
  {
    if Free(o, live, p) {
      assert Within(p, p);
      StatusComplete(o, live, p, p);
    }
    ChildrenWf(o, p);
    UncoveredChildren(o, live, p);
  }

  lemma WithinChild(p: Pos, q: Pos)
    ensures Within(Left(p), q) || Within(Right(p), q) ==> Within(p, q) && q != p
  {
    assert Within(p, p) && Within(p, Left(p)) && Within(p, Right(p));
    if Within(Left(p), q) {
      WithinTransitive(p, Left(p), q);
      WithinDepth(Left(p), q);
    }
    if Within(Right(p), q) {
      WithinTransitive(p, Right(p), q);
      WithinDepth(Right(p), q);
    }
  }

  ghost predicate Inside(o: nat, ps: seq<Pos>, lo: nat, hi: nat) {
    forall i :: 0 <= i < |ps| ==> Wf(o, ps[i]) && lo <= Start(o, ps[i]) && Start(o, ps[i]) + Size(o, ps[i]) <= hi
  }

  ghost predicate Ascending(o: nat, ps: seq<Pos>) {
    && (forall i :: 0 <= i < |ps| ==> Wf(o, ps[i]))
    && (forall i, j :: 0 <= i < j < |ps| ==> Start(o, ps[i]) + Size(o, ps[i]) <= Start(o, ps[j]))
  }

  lemma JoinAscending(o: nat, a: seq<Pos>, b: seq<Pos>, lo: nat, mid: nat, hi: nat)
    requires lo <= mid <= hi && Ascending(o, a) && Ascending(o, b) && Inside(o, a, lo, mid) && Inside(o, b, mid, hi)
    ensures Ascending(o, a + b) && Inside(o, a + b, lo, hi)
  {
  }

  /** Each block is reported once: the reported blocks follow each other in memory. */
  lemma {:induction false} FreeListAscending(o: nat, st: seq<nat>, p: Pos)
    requires Shape(o, st) && Wf(o, p)
    ensures Ascending(o, FreeList(o, st, p))
    ensures Inside(o, FreeList(o, st, p), Start(o, p), Start(o, p) + Size(o, p))
    decreases o - p.depth
  {
    IndexBound(o, p);
    if st[p.index] != Width(o, p) && st[p.index] != 0 && p.depth < o {
      ChildrenSplit(o, p);
      FreeListAscending(o, st, Left(p));
      FreeListAscending(o, st, Right(p));
      JoinAscending(o, FreeList(o, st, Left(p)), FreeList(o, st, Right(p)),
                    Start(o, p), Start(o, Right(p)), Start(o, p) + Size(o, p));
    }
  }

  // Conservation --------------------------------------------------------------------------------------

  /** Total size of a list of blocks. */
  function Units(o: nat, ps: seq<Pos>): nat
    requires forall i :: 0 <= i < |ps| ==> ps[i].depth <= o
  {
    if ps == [] then 0 else Size(o, ps[0]) + Units(o, ps[1..])
  }

  lemma {:induction false} UnitsJoin(o: nat, a: seq<Pos>, b: seq<Pos>)
    requires forall i :: 0 <= i < |a| ==> a[i].depth <= o
    requires forall i :: 0 <= i < |b| ==> b[i].depth <= o
    ensures Units(o, a + b) == Units(o, a) + Units(o, b)
    decreases |a|
  {
    if a == [] {
      assert a + b == b;
    } else {
      assert (a + b)[1..] == a[1..] + b;
      UnitsJoin(o, a[1..], b);
    }
  }

  /** Total size of a set of blocks. */
  ghost function SetUnits(o: nat, s: set<Pos>): nat
    requires forall p :: p in s ==> p.depth <= o
  {
    if s == {} then 0 else var p :| p in s; Size(o, p) + SetUnits(o, s - {p})
  }

  lemma {:induction false} SetUnitsRemove(o: nat, s: set<Pos>, q: Pos)
    requires forall p :: p in s ==> p.depth <= o
    requires q in s
    ensures SetUnits(o, s) == Size(o, q) + SetUnits(o, s - {q})
    decreases |s|
  {
    var p :| p in s && SetUnits(o, s) == Size(o, p) + SetUnits(o, s - {p});
    if p != q {
      SetUnitsRemove(o, s - {p}, q);
      SetUnitsRemove(o, s - {q}, p);
      assert s - {p} - {q} == s - {q} - {p};
    }
  }

  lemma {:induction false} SetUnitsJoin(o: nat, a: set<Pos>, b: set<Pos>)
    requires forall p :: p in a || p in b ==> p.depth <= o
    requires a !! b
    ensures SetUnits(o, a + b) == SetUnits(o, a) + SetUnits(o, b)
    decreases |a|
  {
    if a == {} {
      assert a + b == b;
    } else {
      var p :| p in a;
      SetUnitsRemove(o, a, p);
      SetUnitsRemove(o, a + b, p);
      assert a + b - {p} == (a - {p}) + b;
      SetUnitsJoin(o, a - {p}, b);
    }
  }

  ghost function LiveBelow(live: set<Pos>, p: Pos): set<Pos> {
    set q | q in live && Within(p, q)
  }

  lemma LiveBelowSplit(o: nat, live: set<Pos>, p: Pos)
    requires LiveSet(o, live) && Wf(o, p) && p.depth < o && p !in live
    ensures LiveBelow(live, p) == LiveBelow(live, Left(p)) + LiveBelow(live, Right(p))
    ensures LiveBelow(live, Left(p)) !! LiveBelow(live, Right(p))
  {
    ChildrenSplit(o, p);
    forall q | q in live
      ensures Within(p, q) <==> Within(Left(p), q) || Within(Right(p), q)
      ensures !(Within(Left(p), q) && Within(Right(p), q))
    {
      WithinChild(p, q);
      if Within(p, q) {
        BelowChild(o, p, q);
      }
      if Within(Left(p), q) && Within(Right(p), q) {
        WithinCovers(o, Left(p), q);
        WithinCovers(o, Right(p), q);
      }
    }
  }

  lemma LiveAlone(o: nat, live: set<Pos>, p: Pos)
    requires LiveSet(o, live) && p in live
    ensures LiveBelow(live, p) == {p} && SetUnits(o, LiveBelow(live, p)) == Size(o, p)
  {
    LiveIsUncovered(o, live, p);
    assert Within(p, p);
    SetUnitsRemove(o, {p}, p);
    assert {p} - {p} == {};
  }

  /** Free and live blocks below `p` together have the size of `p`. */
  lemma {:induction false} FreeAndLive(o: nat, live: set<Pos>, st: seq<nat>, p: Pos)
    requires Shape(o, st) && LiveSet(o, live) && Canonical(o, live, st)
    requires Wf(o, p) && Uncovered(live, p)
    ensures Ascending(o, FreeList(o, st, p))
    ensures Units(o, FreeList(o, st, p)) + SetUnits(o, LiveBelow(live, p)) == Size(o, p)
    decreases o - p.depth
  {
    IndexBound(o, p);
    FreeListAscending(o, st, p);
    if p in live {
      LiveAlone(o, live, p);
    } else if st[p.index] == 0 {
      ZeroIsFree(o, live, p);
      FreeIsUncovered(o, live, p);
      assert LiveBelow(live, p) == {};
      assert [p][1..] == [];
    } else {
      assert p.depth < o;
      UncoveredChildren(o, live, p);
      ChildrenSplit(o, p);
      FreeAndLive(o, live, st, Left(p));
      FreeAndLive(o, live, st, Right(p));
      LiveBelowSplit(o, live, p);
      SetUnitsJoin(o, LiveBelow(live, Left(p)), LiveBelow(live, Right(p)));
      FullSplits(o, live, st, p);
      UnitsJoin(o, FreeList(o, st, Left(p)), FreeList(o, st, Right(p)));
    }
  }

  /** Also below a full block that is not live the walk would find what it finds below the children. */
  lemma FullSplits(o: nat, live: set<Pos>, st: seq<nat>, p: Pos)
    requires Shape(o, st) && Canonical(o, live, st) && Wf(o, p) && p.depth < o && p !in live
    requires p.index < |st| && st[p.index] != 0
    ensures Wf(o, Left(p)) && Wf(o, Right(p))
    ensures FreeList(o, st, p) == FreeList(o, st, Left(p)) + FreeList(o, st, Right(p))
  {
    ChildrenWf(o, p);
    IndexBound(o, Left(p)); IndexBound(o, Right(p));
    CanonicalIsLocal(o, live, st, p);
    assert st[Left(p).index] == Stat(o, live, Left(p)) && st[Right(p).index] == Stat(o, live, Right(p));
  }

  /** Conservation: the free blocks and the live blocks together are the whole tree. */
  lemma Conservation(o: nat, live: set<Pos>, st: seq<nat>)
    requires Shape(o, st) && LiveSet(o, live) && Canonical(o, live, st)
    ensures Wf(o, ROOT) && Ascending(o, FreeList(o, st, ROOT))
    ensures forall q :: q in FreeList(o, st, ROOT) <==> MaximalFree(o, live, q)
    ensures Units(o, FreeList(o, st, ROOT)) + SetUnits(o, live) == Pow2(o - 1)
  {
    RootWf(o);
    RootUncovered(o, live);
    FreeAndLive(o, live, st, ROOT);
    forall q ensures q in FreeList(o, st, ROOT) <==> MaximalFree(o, live, q) {
      FreeListExact(o, live, st, ROOT, q);
      if Wf(o, q) {
        RootCovers(o, q);
      }
    }
    forall q | q in live ensures Within(ROOT, q) {
      RootCovers(o, q);
    }
    assert LiveBelow(live, ROOT) == live;
  }

  lemma RootUncovered(o: nat, live: set<Pos>)
    requires LiveSet(o, live) && o >= 1
    ensures Uncovered(live, ROOT)
  {
    forall q | q in live && Within(q, ROOT) ensures q == ROOT {
      WithinDepth(q, ROOT);
      IndexOneIsRoot(o, q);
    }
  }
}
