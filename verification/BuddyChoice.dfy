/**
 Which free block the search takes. Between two halves with room it takes the busier one, so that the
 largest block left free afterwards is as large as any choice leaves it.
 */
module BuddyChoice {
  import opened BuddyPositions
  import opened BuddyStatus
  import opened BuddySearch

  // The statuses with one block more --------------------------------------------------------------------

  /** One block more raises the status of the positions above it. */
  lemma {:induction false} StatGrows(o: nat, live: set<Pos>, q: Pos, p: Pos)
    requires Wf(o, p)
    ensures Stat(o, live + {q}, p) >= Stat(o, live, p)
    decreases o - p.depth
  {
    if p !in live + {q} && p.depth < o {
      ChildrenWf(o, p);
      StatGrows(o, live, q, Left(p));
      StatGrows(o, live, q, Right(p));
    }
  }

  /** And leaves every other one as it is. */
  lemma {:induction false} StatElsewhere(o: nat, live: set<Pos>, q: Pos, p: Pos)
    requires Wf(o, p) && !Within(p, q)
    ensures Stat(o, live + {q}, p) == Stat(o, live, p)
    decreases o - p.depth
  {
    assert p != q;
    if p !in live && p.depth < o {
      ChildrenWf(o, p);
      NotBelow(p, Left(p), q);
      NotBelow(p, Right(p), q);
      StatElsewhere(o, live, q, Left(p));
      StatElsewhere(o, live, q, Right(p));
    }
  }

  lemma NotBelow(p: Pos, c: Pos, q: Pos)
    requires (c == Left(p) || c == Right(p)) && !Within(p, q)
    ensures !Within(c, q)
  {
    if Within(c, q) {
      assert Within(p, p);
      assert Within(p, c);
      WithinTransitive(p, c, q);
    }
  }

  /** The halves of a position do not overlap. */
  lemma NotInBoth(o: nat, p: Pos, q: Pos)
    requires Wf(o, p) && p.depth < o && Wf(o, q)
    ensures !(Within(Left(p), q) && Within(Right(p), q))
  {
    ChildrenSplit(o, p);
    if Within(Left(p), q) && Within(Right(p), q) {
      WithinCovers(o, Left(p), q);
      WithinCovers(o, Right(p), q);
    }
  }

  /** What the extra block makes of the statuses of the two halves it is in or not. */
  lemma StatInHalf(o: nat, live: set<Pos>, p: Pos, c: Pos, s: Pos, q: Pos)
    requires LiveSet(o, live) && Wf(o, p) && p.depth < o && Wf(o, q) && Free(o, live, q)
    requires (c == Left(p) && s == Right(p)) || (c == Right(p) && s == Left(p))
    requires Within(c, q) && p !in live
    ensures p.depth + 1 <= o && q != p
    ensures Stat(o, live + {q}, p) == Combine(Stat(o, live + {q}, c), Stat(o, live, s))
    ensures Stat(o, live + {q}, c) >= Stat(o, live, c) && Stat(o, live + {q}, c) > 0
  {
    hide Free, LiveSet, Within, Wf;
    HalvesWf(o, p);
    NotInBoth(o, p, q);
    WithinDepth(c, q);
    StatElsewhere(o, live, q, s);
    StatGrows(o, live, q, c);
    FreeJoins(o, live, q);
    LiveRaisesStatus(o, live + {q}, c, q);
  }

  lemma FreeJoins(o: nat, live: set<Pos>, q: Pos)
    requires LiveSet(o, live) && Wf(o, q) && Free(o, live, q)
    ensures LiveSet(o, live + {q})
  {
  }

  // The largest block left ----------------------------------------------------------------------------------

  predicate InHalf(p: Pos, c: Pos, s: Pos) {
    (c == Left(p) && s == Right(p)) || (c == Right(p) && s == Left(p))
  }

  /** The search goes on in half c of cur: the other one has no room, or is less busy, or as busy and the right one. */
  ghost predicate Preferred(o: nat, live: set<Pos>, c: Pos, s: Pos, target: nat)
    requires c.depth == s.depth <= target <= o
  {
    || Stat(o, live, s) > target - c.depth
    || Stat(o, live, c) > Stat(o, live, s)
    || (Stat(o, live, c) == Stat(o, live, s) && c.index < s.index)
  }

  /** One turn of the descent. */
  lemma DescendTurn(o: nat, live: set<Pos>, st: seq<nat>, cur: Pos, target: nat) returns (c: Pos, s: Pos)
    requires Shape(o, st) && LiveSet(o, live) && Canonical(o, live, st)
    requires Wf(o, cur) && cur.depth < target <= o && Uncovered(live, cur) && Stat(o, live, cur) <= target - cur.depth
    ensures InHalf(cur, c, s) && Wf(o, c) && Wf(o, s) && c.depth == s.depth == cur.depth + 1
    ensures cur !in live && Uncovered(live, c) && Stat(o, live, c) <= target - c.depth
    ensures Preferred(o, live, c, s, target) && Descend(o, st, cur, target) == Descend(o, st, c, target)
  {
    ChildrenWf(o, cur);
    IndexBound(o, Left(cur)); IndexBound(o, Right(cur));
    UncoveredChildren(o, live, cur);
    assert st[Left(cur).index] == Stat(o, live, Left(cur)) && st[Right(cur).index] == Stat(o, live, Right(cur));
    var l, r, room := st[Left(cur).index], st[Right(cur).index], target - cur.depth - 1;
    if r <= room && (l > room || (r != 0 && l < r)) {
      c, s := Right(cur), Left(cur);
    } else {
      c, s := Left(cur), Right(cur);
    }
  }

  /** Taking a block in the preferred half leaves at least as much as taking one in the other half. */
  lemma PreferredIsBetter(o: nat, live: set<Pos>, p: Pos, c: Pos, s: Pos, target: nat, q: Pos, q': Pos)
    requires LiveSet(o, live) && Wf(o, p) && p.depth < target <= o && p !in live && InHalf(p, c, s)
    requires c.depth == s.depth == p.depth + 1 && Preferred(o, live, c, s, target)
    requires Wf(o, q) && Wf(o, q') && Free(o, live, q) && Free(o, live, q') && q'.depth == target
    requires Within(c, q) && Within(s, q')
    ensures Stat(o, live + {q}, p) <= Stat(o, live + {q'}, p)
  {
    hide Stat, Free, LiveSet, Within, Wf;
    HalvesWf(o, p);
    StatInHalf(o, live, p, c, s, q);
    StatInHalf(o, live, p, s, c, q');
    StatusComplete(o, live, s, q');
  }

  lemma HalvesWf(o: nat, p: Pos)
    requires Wf(o, p) && p.depth < o
    ensures Wf(o, Left(p)) && Wf(o, Right(p)) && Left(p).depth == Right(p).depth == p.depth + 1
  {
    ChildrenWf(o, p);
  }

  lemma SameDepth(o: nat, p: Pos, q: Pos)
    requires Wf(o, p) && Wf(o, q) && p.depth == q.depth && Within(p, q)
    ensures p == q
  {
    WithinDepth(p, q);
  }

  lemma {:induction false} DescendIsBest(o: nat, live: set<Pos>, st: seq<nat>, cur: Pos, target: nat, q: Pos)
    requires Shape(o, st) && LiveSet(o, live) && Canonical(o, live, st)
    requires Wf(o, cur) && cur.depth <= target <= o && Uncovered(live, cur) && Stat(o, live, cur) <= target - cur.depth
    requires Wf(o, q) && q.depth == target && Within(cur, q) && Free(o, live, q)
    ensures Stat(o, live + {Descend(o, st, cur, target)}, cur) <= Stat(o, live + {q}, cur)
    decreases target - cur.depth
  {
    hide Descend, Free, Canonical, LiveSet, Within, Wf;
    DescendSound(o, live, st, cur, target);
    var p := Descend(o, st, cur, target);
    if cur.depth == target {
      SameDepth(o, cur, p);
      SameDepth(o, cur, q);
    } else {
      var c, s := DescendTurn(o, live, st, cur, target);
      BelowChild(o, cur, q);
      DescendSound(o, live, st, c, target);
      if Within(c, q) {
        DescendIsBest(o, live, st, c, target, q);
        StatInHalf(o, live, cur, c, s, p);
        StatInHalf(o, live, cur, c, s, q);
      } else {
        PreferredIsBetter(o, live, cur, c, s, target, p, q);
      }
    }
  }

  lemma RootUncovered(o: nat, live: set<Pos>)
    requires LiveSet(o, live) && o >= 1
    ensures Wf(o, ROOT) && Uncovered(live, ROOT)
  {
    RootWf(o);
    forall q | q in live && Within(q, ROOT) ensures q == ROOT {
      WithinDepth(q, ROOT);
      IndexOneIsRoot(o, q);
    }
  }

  /**
   The search leaves the largest free block that any choice can leave: with the block it finds taken,
   the status of the root is no higher than with any other free block of that depth taken.
   */
  lemma FindFreeIsBest(o: nat, live: set<Pos>, st: seq<nat>, target: nat, q: Pos)
    requires Shape(o, st) && LiveSet(o, live) && Canonical(o, live, st) && 1 <= target <= o
    requires Wf(o, q) && q.depth == target && Free(o, live, q)
    ensures var p := FindFree(o, st, target);
            p != INVALID_POS && Stat(o, live + {p}, ROOT) <= Stat(o, live + {q}, ROOT)
  {
    FindFreeExact(o, live, st, target);
    RootUncovered(o, live);
    IndexBound(o, ROOT);
    RootCovers(o, q);
    StatusComplete(o, live, ROOT, q);
    DescendIsBest(o, live, st, ROOT, target, q);
  }

  /** So no other choice lets a following request succeed that fails after this one. */
  lemma NextRequestIsBest(o: nat, live: set<Pos>, st: seq<nat>, target: nat, q: Pos, next: nat)
    requires Shape(o, st) && LiveSet(o, live) && Canonical(o, live, st) && 1 <= target <= o && 1 <= next <= o
    requires Wf(o, q) && q.depth == target && Free(o, live, q)
    ensures var p := FindFree(o, st, target);
            && Wf(o, p)
            && (FindFree(o, Mark(o, st, q), next) != INVALID_POS ==> FindFree(o, Mark(o, st, p), next) != INVALID_POS)
  {
    var p := FindFree(o, st, target);
    FindFreeIsBest(o, live, st, target, q);
    FindFreeExact(o, live, st, target);
    RootUncovered(o, live);
    IndexBound(o, ROOT);
    MarkIsCanonical(o, live, st, p);
    MarkIsCanonical(o, live, st, q);
    assert Mark(o, st, p)[1] == Stat(o, live + {p}, ROOT) && Mark(o, st, q)[1] == Stat(o, live + {q}, ROOT);
    FailsByRoot(o, live + {p}, Mark(o, st, p), next);
    FailsByRoot(o, live + {q}, Mark(o, st, q), next);
  }

  /** The search fails exactly when the root's status is too high. */
  lemma FailsByRoot(o: nat, live: set<Pos>, st: seq<nat>, target: nat)
    requires Shape(o, st) && LiveSet(o, live) && Canonical(o, live, st) && 1 <= target <= o
    ensures Wf(o, ROOT) && (FindFree(o, st, target) == INVALID_POS <==> Stat(o, live, ROOT) > target - 1)
  {
    RootUncovered(o, live);
    IndexBound(o, ROOT);
    if Stat(o, live, ROOT) <= target - 1 {
      DescendSound(o, live, st, ROOT, target);
    }
  }

  // The choice itself ----------------------------------------------------------------------------------------

  /** Block q is in the preferred half of every position above it. */
  ghost predicate Chosen(o: nat, live: set<Pos>, target: nat, q: Pos)
    requires target <= o
  {
    forall p :: Wf(o, p) && p.depth < target && Within(p, q) ==> ChosenAt(o, live, target, p, q)
  }

  ghost predicate ChosenAt(o: nat, live: set<Pos>, target: nat, p: Pos, q: Pos)
    requires p.depth < target <= o
  {
    && (Within(Left(p), q) ==> Preferred(o, live, Left(p), Right(p), target))
    && (Within(Right(p), q) ==> Preferred(o, live, Right(p), Left(p), target))
  }

  lemma {:induction false} DescendUnique(o: nat, live: set<Pos>, st: seq<nat>, cur: Pos, target: nat, q: Pos)
    requires Shape(o, st) && LiveSet(o, live) && Canonical(o, live, st)
    requires Wf(o, cur) && cur.depth <= target <= o && Uncovered(live, cur) && Stat(o, live, cur) <= target - cur.depth
    requires Wf(o, q) && q.depth == target && Within(cur, q) && Free(o, live, q) && Chosen(o, live, target, q)
    ensures Descend(o, st, cur, target) == q
    decreases target - cur.depth
  {
    if cur.depth < target {
      var c, s := DescendTurn(o, live, st, cur, target);
      BelowChild(o, cur, q);
      assert ChosenAt(o, live, target, cur, q);
      if Within(s, q) {
        StatusComplete(o, live, s, q);
      }
      DescendUnique(o, live, st, c, target, q);
    }
  }

  /** On one path down, what is strictly below cur is below the same half as the end of the path. */
  lemma SameBranch(o: nat, cur: Pos, d: Pos, p: Pos, r: Pos)
    requires Wf(o, cur) && cur.depth < o && Wf(o, p) && Wf(o, r) && p != cur
    requires (d == Left(cur) || d == Right(cur)) && Within(d, r) && Within(cur, p) && Within(p, r)
    ensures Within(d, p)
  {
    BelowChild(o, cur, p);
    var e := if Within(Left(cur), p) then Left(cur) else Right(cur);
    WithinTransitive(e, p, r);
    NotInBoth(o, cur, r);
  }

  lemma {:induction false} DescendChooses(o: nat, live: set<Pos>, st: seq<nat>, cur: Pos, target: nat, p: Pos)
    requires Shape(o, st) && LiveSet(o, live) && Canonical(o, live, st)
    requires Wf(o, cur) && cur.depth <= target <= o && Uncovered(live, cur) && Stat(o, live, cur) <= target - cur.depth
    requires Wf(o, p) && p.depth < target && Within(cur, p) && Within(p, Descend(o, st, cur, target))
    ensures ChosenAt(o, live, target, p, Descend(o, st, cur, target))
    decreases target - cur.depth
  {
    WithinDepth(cur, p);
    var d, t := DescendTurn(o, live, st, cur, target);
    DescendSound(o, live, st, d, target);
    var r := Descend(o, st, d, target);
    if p == cur {
      NotInBoth(o, cur, r);
    } else {
      SameBranch(o, cur, d, p, r);
      DescendChooses(o, live, st, d, target, p);
    }
  }

  /**
   Exactly which block the search finds: a free block of the depth asked for is the one if and only if
   at every position above it, it lies in the busier half, in the left one if both are equally busy,
   or in the only half with room.
   */
  lemma FindFreeChooses(o: nat, live: set<Pos>, st: seq<nat>, target: nat, q: Pos)
    requires Shape(o, st) && LiveSet(o, live) && Canonical(o, live, st) && 1 <= target <= o
    requires Wf(o, q) && q.depth == target && Free(o, live, q)
    ensures FindFree(o, st, target) == q <==> Chosen(o, live, target, q)
  {
    FailsByRoot(o, live, st, target);
    RootUncovered(o, live);
    IndexBound(o, ROOT);
    RootCovers(o, q);
    StatusComplete(o, live, ROOT, q);
    if Chosen(o, live, target, q) {
      DescendUnique(o, live, st, ROOT, target, q);
    }
    if FindFree(o, st, target) == q {
      forall p | Wf(o, p) && p.depth < target && Within(p, q) ensures ChosenAt(o, live, target, p, q) {
        RootCovers(o, p);
        DescendChooses(o, live, st, ROOT, target, p);
      }
    }
  }
}
