/** The free-block search of the buddy tree, and what a status means for it. */
module BuddySearch {
  import opened BuddyPositions
  import opened BuddyStatus

  /** The half to turn to: one with room, and between two such halves the busier, the left one on a tie. */
  function Half(cur: Pos, l: nat, r: nat, room: nat): Pos {
    if l >= room + 1 then Right(cur)
    else if r >= room + 1 then Left(cur)
    else if r == 0 || l >= r then Left(cur)
    else Right(cur)
  }

  /** The descent of `buddy_tree_find_free`. */
  function Descend(o: nat, st: seq<nat>, cur: Pos, target: nat): Pos
    requires Shape(o, st) && Wf(o, cur) && cur.depth <= target <= o
    decreases target - cur.depth
  {
    if cur.depth == target then cur
    else
      ChildrenWf(o, cur); IndexBound(o, Left(cur)); IndexBound(o, Right(cur));
      Descend(o, st, Half(cur, st[Left(cur).index], st[Right(cur).index], target - cur.depth - 1), target)
  }

  /** `buddy_tree_find_free`. */
  function FindFree(o: nat, st: seq<nat>, target: nat): Pos
    requires Shape(o, st) && 1 <= target <= o
  {
    RootWf(o); IndexBound(o, ROOT);
    if st[1] > target - 1 then INVALID_POS else Descend(o, st, ROOT, target)
  }

  /** A free block below `p` bounds the status of `p` by its relative depth. */
  lemma {:induction false} StatusComplete(o: nat, live: set<Pos>, p: Pos, r: Pos)
    requires LiveSet(o, live) && Wf(o, p) && Wf(o, r) && Within(p, r) && Free(o, live, r)
    ensures p.depth <= r.depth && Stat(o, live, p) <= r.depth - p.depth
    decreases r.depth - p.depth
  {
    WithinDepth(p, r);
    if p == r {
      FreeIsUncovered(o, live, r);
      NothingBelow(o, live, r);
    } else {
      BelowChild(o, p, r);
      ChildrenWf(o, p);
      if p in live {
        WithinCovers(o, p, r);
      }
      if Within(Left(p), r) {
        StatusComplete(o, live, Left(p), r);
      } else {
        StatusComplete(o, live, Right(p), r);
      }
    }
  }

  /** Status zero and nothing live above means the whole block is free. */
  lemma {:induction false} ZeroIsFree(o: nat, live: set<Pos>, p: Pos)
    requires LiveSet(o, live) && Wf(o, p) && Uncovered(live, p) && Stat(o, live, p) == 0
    ensures Free(o, live, p)
  {
    forall q | q in live ensures Disjoint(o, p, q) {
      if q.depth <= p.depth {
        NestedOrDisjoint(o, q, p);
      } else {
        NestedOrDisjoint(o, p, q);
        if Within(p, q) {
          LiveRaisesStatus(o, live, p, q);
        }
      }
    }
  }

  lemma {:induction false} LiveRaisesStatus(o: nat, live: set<Pos>, p: Pos, q: Pos)
    requires LiveSet(o, live) && Wf(o, p) && q in live && Within(p, q)
    ensures Stat(o, live, p) > 0
    decreases q.depth - p.depth
  {
    if p != q {
      BelowChild(o, p, q);
      ChildrenWf(o, p);
      if Within(Left(p), q) {
        WithinDepth(Left(p), q);
        LiveRaisesStatus(o, live, Left(p), q);
      } else {
        WithinDepth(Right(p), q);
        LiveRaisesStatus(o, live, Right(p), q);
      }
    }
  }

  lemma UncoveredChildren(o: nat, live: set<Pos>, p: Pos)
    requires LiveSet(o, live) && Wf(o, p) && p.depth < o && Uncovered(live, p) && p !in live
    ensures Uncovered(live, Left(p)) && Uncovered(live, Right(p))
  {
    ChildrenWf(o, p);
    forall q, c | q in live && (c == Left(p) || c == Right(p)) && Within(q, c) ensures q == c {
      assert Parent(c) == p;
    }
  }

  lemma {:induction false} DescendSound(o: nat, live: set<Pos>, st: seq<nat>, cur: Pos, target: nat)
    requires Shape(o, st) && LiveSet(o, live) && Canonical(o, live, st)
    requires Wf(o, cur) && cur.depth <= target <= o
    requires Uncovered(live, cur) && Stat(o, live, cur) <= target - cur.depth
    ensures var r := Descend(o, st, cur, target);
            Wf(o, r) && r.depth == target && Within(cur, r) && Free(o, live, r)
    decreases target - cur.depth
  {
    if cur.depth == target {
      ZeroIsFree(o, live, cur);
    } else {
      ChildrenWf(o, cur);
      IndexBound(o, Left(cur)); IndexBound(o, Right(cur));
      UncoveredChildren(o, live, cur);
      assert st[Left(cur).index] == Stat(o, live, Left(cur));
      assert st[Right(cur).index] == Stat(o, live, Right(cur));
      var next := Half(cur, st[Left(cur).index], st[Right(cur).index], target - cur.depth - 1);
      DescendSound(o, live, st, next, target);
      assert Within(cur, next) by { assert Within(cur, cur); }
      WithinTransitive(cur, next, Descend(o, st, next, target));
    }
  }

  /** The search is sound and complete: it returns a free position of the target depth, and
      reports failure exactly when there is none. */
  lemma FindFreeExact(o: nat, live: set<Pos>, st: seq<nat>, target: nat)
    requires Shape(o, st) && LiveSet(o, live) && Canonical(o, live, st) && 1 <= target <= o
    ensures var r := FindFree(o, st, target);
            r == INVALID_POS || (Wf(o, r) && r.depth == target && Free(o, live, r))
    ensures FindFree(o, st, target) == INVALID_POS
       <==> forall p :: Wf(o, p) && p.depth == target ==> !Free(o, live, p)
  {
    RootWf(o); IndexBound(o, ROOT);
    assert st[1] == Stat(o, live, ROOT);
    if st[1] > target - 1 {
      forall p | Wf(o, p) && p.depth == target ensures !Free(o, live, p) {
        RootCovers(o, p);
        if Free(o, live, p) {
          StatusComplete(o, live, ROOT, p);
        }
      }
    } else {
      forall q | q in live && Within(q, ROOT) ensures q == ROOT {
        WithinDepth(q, ROOT);
        IndexOneIsRoot(o, q);
      }
      DescendSound(o, live, st, ROOT, target);
    }
  }

  /** What a status says: the relative depth of the nearest free block below. */
  lemma StatusMeaning(o: nat, live: set<Pos>, p: Pos, j: nat)
    requires o >= 1 && LiveSet(o, live) && Wf(o, p) && Uncovered(live, p) && j < Width(o, p)
    ensures Stat(o, live, p) <= j
       <==> exists r :: Wf(o, r) && Within(p, r) && r.depth == p.depth + j && Free(o, live, r)
  {
    if Stat(o, live, p) <= j {
      var r := NearestFree(o, live, p, j);
    }
    forall r | Wf(o, r) && Within(p, r) && r.depth == p.depth + j && Free(o, live, r)
      ensures Stat(o, live, p) <= j
    {
      StatusComplete(o, live, p, r);
    }
  }

  lemma {:induction false} NearestFree(o: nat, live: set<Pos>, p: Pos, j: nat) returns (r: Pos)
    requires LiveSet(o, live) && Wf(o, p) && Uncovered(live, p)
    requires Stat(o, live, p) <= j < Width(o, p)
    ensures Wf(o, r) && Within(p, r) && r.depth == p.depth + j && Free(o, live, r)
    decreases j
  {
    if j == 0 {
      ZeroIsFree(o, live, p);
      r := p;
    } else {
      ChildrenWf(o, p);
      UncoveredChildren(o, live, p);
      var c := if Stat(o, live, Left(p)) <= Stat(o, live, Right(p)) then Left(p) else Right(p);
      r := NearestFree(o, live, c, j - 1);
      assert Within(p, c) by { assert Within(p, p); }
      WithinTransitive(p, c, r);
    }
  }
}
