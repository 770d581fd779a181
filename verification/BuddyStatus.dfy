/**
 Statuses of the buddy tree. The reference definition `Stat` computes the status of a
 position from the set of live blocks; `Mark` and `Release` are what the allocator does,
 on local numbers only. The theorems connect the two.
 */
module BuddyStatus {
  import opened BuddyPositions

  /** `(a || b) * (min(a, b) + 1)`: the status of a node from those of its children. */
  function Combine(a: nat, b: nat): nat {
    if a == 0 && b == 0 then 0 else if a <= b then a + 1 else b + 1
  }

  /** Live blocks: positions of the tree, pairwise disjoint. */
  ghost predicate LiveSet(o: nat, live: set<Pos>) {
    && (forall p :: p in live ==> Wf(o, p))
    && (forall p, q :: p in live && q in live && p != q ==> Disjoint(o, p, q))
  }

  ghost predicate Free(o: nat, live: set<Pos>, p: Pos)
    requires LiveSet(o, live) && Wf(o, p)
  {
    forall q :: q in live ==> Disjoint(o, p, q)
  }

  /** No live block strictly above `p`. */
  ghost predicate Uncovered(live: set<Pos>, p: Pos) {
    forall q :: q in live && Within(q, p) ==> q == p
  }

  /** The status that `live` gives to position `p`. */
  ghost function Stat(o: nat, live: set<Pos>, p: Pos): (r: nat)
    requires p.depth <= o
    ensures r <= Width(o, p)
    decreases o - p.depth
  {
    if p in live then Width(o, p)
    else if p.depth == o then 0
    else Combine(Stat(o, live, Left(p)), Stat(o, live, Right(p)))
  }

  /** `st` (indexed by heap index) is the canonical status array of `live`. */
  ghost predicate Canonical(o: nat, live: set<Pos>, st: seq<nat>) {
    && |st| == Pow2(o)
    && forall p :: Wf(o, p) ==> p.index < |st| && st[p.index] == Stat(o, live, p)
  }

  // What the allocator does -----------------------------------------------------------

  predicate Shape(o: nat, st: seq<nat>) {
    o >= 1 && |st| == Pow2(o)
  }

  /** `update_parent_chain`, with its early exit. */
  function UpdateChain(o: nat, st: seq<nat>, p: Pos): (r: seq<nat>)
    requires Shape(o, st) && Wf(o, p)
    ensures Shape(o, r)
    decreases p.depth
  {
    if p.index == 1 then st
    else
      IndexOneIsRoot(o, p); ParentWf(o, p);
      IndexBound(o, p); IndexBound(o, Parent(p)); IndexBound(o, Sibling(p));
      var target := Combine(st[p.index], st[Sibling(p).index]);
      if target == st[Parent(p).index] then st
      else UpdateChain(o, st[Parent(p).index := target], Parent(p))
  }

  /** `buddy_tree_mark`. */
  function Mark(o: nat, st: seq<nat>, p: Pos): (r: seq<nat>)
    requires Shape(o, st) && Wf(o, p)
    ensures Shape(o, r)
  {
    IndexBound(o, p);
    UpdateChain(o, st[p.index := Width(o, p)], p)
  }

  /** `buddy_tree_release`. */
  function Release(o: nat, st: seq<nat>, p: Pos): (r: seq<nat>)
    requires Shape(o, st) && Wf(o, p)
    ensures Shape(o, r)
  {
    IndexBound(o, p);
    if st[p.index] != Width(o, p) then st
    else UpdateChain(o, st[p.index := 0], p)
  }

  // The reference definition, one node at a time ---------------------------------------

  ghost function Local(o: nat, live: set<Pos>, st: seq<nat>, p: Pos): nat
    requires Shape(o, st) && Wf(o, p)
  {
    IndexBound(o, p);
    if p in live then Width(o, p)
    else if p.depth == o then 0
    else
      ChildrenWf(o, p); IndexBound(o, Left(p)); IndexBound(o, Right(p));
      Combine(st[2 * p.index], st[2 * p.index + 1])
  }

  ghost predicate LocalAt(o: nat, live: set<Pos>, st: seq<nat>, p: Pos)
    requires Shape(o, st) && Wf(o, p)
  {
    IndexBound(o, p);
    st[p.index] == Local(o, live, st, p)
  }

  lemma {:induction false} LocalIsCanonical(o: nat, live: set<Pos>, st: seq<nat>)
    requires Shape(o, st)
    requires forall p :: Wf(o, p) ==> LocalAt(o, live, st, p)
    ensures Canonical(o, live, st)
  {
    forall p | Wf(o, p) ensures p.index < |st| && st[p.index] == Stat(o, live, p) {
      IndexBound(o, p);
      LocalIsStat(o, live, st, p);
    }
  }

  lemma {:induction false} LocalIsStat(o: nat, live: set<Pos>, st: seq<nat>, p: Pos)
    requires Shape(o, st) && Wf(o, p)
    requires forall q :: Wf(o, q) ==> LocalAt(o, live, st, q)
    ensures p.index < |st| && st[p.index] == Stat(o, live, p)
    decreases o - p.depth
  {
    IndexBound(o, p);
    assert LocalAt(o, live, st, p);
    if p !in live && p.depth < o {
      ChildrenWf(o, p);
      LocalIsStat(o, live, st, Left(p));
      LocalIsStat(o, live, st, Right(p));
    }
  }

  lemma CanonicalIsLocal(o: nat, live: set<Pos>, st: seq<nat>, p: Pos)
    requires Shape(o, st) && Canonical(o, live, st) && Wf(o, p)
    ensures LocalAt(o, live, st, p)
  {
    IndexBound(o, p);
    if p !in live && p.depth < o {
      ChildrenWf(o, p);
      IndexBound(o, Left(p)); IndexBound(o, Right(p));
    }
  }

  lemma UncoveredParent(live: set<Pos>, p: Pos)
    requires p.depth > 0 && Uncovered(live, p)
    ensures Parent(p) !in live && Uncovered(live, Parent(p))
  {
    assert Within(Parent(p), Parent(p));
    forall x | x in live ensures !Within(x, Parent(p)) {
      if Within(x, Parent(p)) {
        WithinDepth(x, Parent(p));
      }
    }
  }

  /** Going up repairs the one node that may be wrong, and stopping early is safe. */
  lemma {:induction false} ChainRepairs(o: nat, live: set<Pos>, st: seq<nat>, p: Pos)
    requires Shape(o, st) && Wf(o, p)
    requires Uncovered(live, p)
    requires forall q :: Wf(o, q) && (p == ROOT || q != Parent(p)) ==> LocalAt(o, live, st, q)
    ensures Canonical(o, live, UpdateChain(o, st, p))
    decreases p.depth
  {
    IndexOneIsRoot(o, p);
    if p == ROOT {
      LocalIsCanonical(o, live, st);
    } else {
      ParentWf(o, p);
      var q := Parent(p);
      IndexBound(o, p); IndexBound(o, q); IndexBound(o, Sibling(p));
      UncoveredParent(live, p);
      var target := Combine(st[p.index], st[Sibling(p).index]);
      if target == st[q.index] {
        assert LocalAt(o, live, st, q);
        LocalIsCanonical(o, live, st);
      } else {
        var st' := st[q.index := target];
        forall r | Wf(o, r) && (q == ROOT || r != Parent(q)) ensures LocalAt(o, live, st', r) {
          RewriteKeepsLocal(o, live, st, q, target, r);
        }
        ChainRepairs(o, live, st', q);
      }
    }
  }

  /** Only the parent of `q` has `q` as a child. */
  lemma ChildIsNot(o: nat, q: Pos, r: Pos)
    requires Wf(o, q) && Wf(o, r) && r.depth < o && (q == ROOT || r != Parent(q))
    ensures Left(r).index != q.index && Right(r).index != q.index
  {
    ChildrenWf(o, r);
    IndexOneIsRoot(o, q);
    if Left(r).index == q.index {
      IndexDeterminesDepth(o, q, Left(r));
    }
    if Right(r).index == q.index {
      IndexDeterminesDepth(o, q, Right(r));
    }
  }

  /** What a position's children ask for does not depend on the status of any other position. */
  lemma RewriteElsewhere(o: nat, live: set<Pos>, st: seq<nat>, q: Pos, v: nat, r: Pos)
    requires Shape(o, st) && Wf(o, r) && q.index < |st|
    requires r.depth < o ==> Left(r).index != q.index && Right(r).index != q.index
    ensures Local(o, live, st[q.index := v], r) == Local(o, live, st, r)
  {
    if r.depth < o {
      ChildrenWf(o, r);
      IndexBound(o, Left(r)); IndexBound(o, Right(r));
    }
  }

  /** Writing at `q` the value its children ask for disturbs only the parent of `q`. */
  lemma RewriteKeepsLocal(o: nat, live: set<Pos>, st: seq<nat>, q: Pos, v: nat, r: Pos)
    requires Shape(o, st) && Wf(o, q) && Wf(o, r)
    requires q.index < |st|
    requires v == Local(o, live, st, q)
    requires r != q ==> LocalAt(o, live, st, r)
    requires q == ROOT || r != Parent(q)
    ensures LocalAt(o, live, st[q.index := v], r)
  {
    hide Local;
    IndexBound(o, r);
    if r.index == q.index {
      IndexDeterminesDepth(o, q, r);
    }
    if r.depth < o {
      ChildIsNot(o, q, r);
    }
    RewriteElsewhere(o, live, st, q, v, r);
  }

  /** Adding or removing the block `p` asks for a new value at `p` and nowhere else. */
  lemma LocalElsewhere(o: nat, live: set<Pos>, live': set<Pos>, st: seq<nat>, p: Pos, q: Pos)
    requires Shape(o, st) && Canonical(o, live, st) && Wf(o, q) && q != p
    requires live' == live + {p} || live' == live - {p}
    ensures LocalAt(o, live', st, q)
  {
    CanonicalIsLocal(o, live, st, q);
  }

  lemma LocalHere(o: nat, live: set<Pos>, live': set<Pos>, st: seq<nat>, p: Pos)
    requires Shape(o, st) && Canonical(o, live, st) && Wf(o, p)
    requires live' == live + {p} || live' == live - {p}
    requires p.depth < o ==> Stat(o, live, Left(p)) == 0 && Stat(o, live, Right(p)) == 0
    ensures Local(o, live', st, p) == if p in live' then Width(o, p) else 0
  {
    if p.depth < o {
      ChildrenWf(o, p);
      assert st[Left(p).index] == Stat(o, live, Left(p));
      assert st[Right(p).index] == Stat(o, live, Right(p));
    }
  }

  /** The new value at `p` is right, and only the parent of `p` may now be wrong. */
  lemma ChangeOne(o: nat, live: set<Pos>, live': set<Pos>, st: seq<nat>, p: Pos, v: nat)
    requires Shape(o, st) && Canonical(o, live, st) && Wf(o, p)
    requires live' == live + {p} || live' == live - {p}
    requires forall q :: q in live && Within(p, q) ==> q == p
    requires v == if p in live' then Width(o, p) else 0
    ensures p.index < |st|
    ensures forall q :: Wf(o, q) && (p == ROOT || q != Parent(p))
              ==> LocalAt(o, live', st[p.index := v], q)
  {
    IndexBound(o, p);
    if p.depth < o {
      NothingBelowChildren(o, live, p);
    }
    LocalHere(o, live, live', st, p);
    forall q | Wf(o, q) && (p == ROOT || q != Parent(p))
      ensures LocalAt(o, live', st[p.index := v], q)
    {
      if q != p {
        LocalElsewhere(o, live, live', st, p, q);
      }
      RewriteKeepsLocal(o, live', st, p, v, q);
    }
  }

  lemma {:induction false} NothingBelow(o: nat, live: set<Pos>, p: Pos)
    requires Wf(o, p)
    requires forall q :: q in live && Within(p, q) ==> q == p
    ensures Stat(o, live, p) == if p in live then Width(o, p) else 0
    decreases o - p.depth
  {
    if p.depth < o && p !in live {
      NothingBelowChildren(o, live, p);
    }
  }

  lemma {:induction false} NothingBelowChildren(o: nat, live: set<Pos>, p: Pos)
    requires Wf(o, p) && p.depth < o
    requires forall q :: q in live && Within(p, q) ==> q == p
    ensures Stat(o, live, Left(p)) == 0 && Stat(o, live, Right(p)) == 0
    decreases o - p.depth, 0
  {
    ChildrenWf(o, p);
    forall c, q | (c == Left(p) || c == Right(p)) && Within(c, q) ensures Within(p, q) && q != p {
      assert Within(p, p);
      assert Within(p, c);
      WithinTransitive(p, c, q);
      WithinDepth(c, q);
    }
    assert Within(Left(p), Left(p)) && Within(Right(p), Right(p));
    NothingBelow(o, live, Left(p));
    NothingBelow(o, live, Right(p));
  }

  // Theorems ---------------------------------------------------------------------------

  lemma FreeIsUncovered(o: nat, live: set<Pos>, p: Pos)
    requires LiveSet(o, live) && Wf(o, p) && Free(o, live, p)
    ensures LiveSet(o, live + {p}) && p !in live
    ensures Uncovered(live + {p}, p)
    ensures forall q :: q in live + {p} && Within(p, q) ==> q == p
  {
    forall q | q in live ensures !Within(q, p) && !Within(p, q) {
      if Within(q, p) {
        WithinCovers(o, q, p);
      }
      if Within(p, q) {
        WithinCovers(o, p, q);
      }
    }
  }

  lemma LiveIsUncovered(o: nat, live: set<Pos>, p: Pos)
    requires LiveSet(o, live) && p in live
    ensures LiveSet(o, live - {p}) && Free(o, live - {p}, p)
    ensures Uncovered(live, p) && Uncovered(live - {p}, p)
    ensures forall q :: q in live && Within(p, q) ==> q == p
  {
    forall q | q in live && q != p ensures !Within(q, p) && !Within(p, q) {
      if Within(q, p) {
        WithinCovers(o, q, p);
      }
      if Within(p, q) {
        WithinCovers(o, p, q);
      }
    }
  }

  /** Marking a free position, or one already live, yields the statuses of `live + {p}`. */
  lemma MarkIsCanonical(o: nat, live: set<Pos>, st: seq<nat>, p: Pos)
    requires o >= 1 && LiveSet(o, live) && Canonical(o, live, st) && Wf(o, p)
    requires p in live || Free(o, live, p)
    ensures LiveSet(o, live + {p})
    ensures Canonical(o, live + {p}, Mark(o, st, p))
  {
    var live' := live + {p};
    if p in live {
      LiveIsUncovered(o, live, p);
      assert live' == live;
    } else {
      FreeIsUncovered(o, live, p);
    }
    ChangeOne(o, live, live', st, p, Width(o, p));
    ChainRepairs(o, live', st[p.index := Width(o, p)], p);
  }

  /** Releasing a live position yields the statuses of `live - {p}`. */
  lemma ReleaseIsCanonical(o: nat, live: set<Pos>, st: seq<nat>, p: Pos)
    requires o >= 1 && LiveSet(o, live) && Canonical(o, live, st) && p in live
    ensures LiveSet(o, live - {p})
    ensures Canonical(o, live - {p}, Release(o, st, p))
  {
    LiveIsUncovered(o, live, p);
    NothingBelow(o, live, p);
    ChangeOne(o, live, live - {p}, st, p, 0);
    ChainRepairs(o, live - {p}, st[p.index := 0], p);
  }

  // Every index from 1 up is the index of a position.
  lemma {:induction false} PositionAt(o: nat, n: nat) returns (p: Pos)
    requires 1 <= n < Pow2(o)
    ensures Wf(o, p) && p.index == n
  {
    if n < Pow2(o - 1) {
      p := PositionAt(o - 1, n);
    } else {
      p := Pos(n, o);
    }
  }

  /** The status array is determined by the live set. */
  lemma CanonicalUnique(o: nat, live: set<Pos>, st1: seq<nat>, st2: seq<nat>)
    requires Canonical(o, live, st1) && Canonical(o, live, st2)
    requires st1[0] == st2[0]
    ensures st1 == st2
  {
    forall n | 0 <= n < |st1| ensures st1[n] == st2[n] {
      if n > 0 {
        var p := PositionAt(o, n);
        assert Wf(o, p);
      }
    }
  }

  /** Only strict ancestors of `p` are rewritten on the way up. */
  lemma {:induction false} ChainFrame(o: nat, st: seq<nat>, p: Pos, n: nat)
    requires Shape(o, st) && Wf(o, p) && n < |st|
    requires n == 0 || n >= p.index
    ensures UpdateChain(o, st, p)[n] == st[n]
    decreases p.depth
  {
    if p.index != 1 {
      IndexOneIsRoot(o, p); ParentWf(o, p);
      IndexBound(o, p); IndexBound(o, Parent(p)); IndexBound(o, Sibling(p));
      var target := Combine(st[p.index], st[Sibling(p).index]);
      if target != st[Parent(p).index] {
        ChainFrame(o, st[Parent(p).index := target], Parent(p), n);
      }
    }
  }

  /** Mark then release of a free position gives back the very same array. */
  lemma MarkThenRelease(o: nat, live: set<Pos>, st: seq<nat>, p: Pos)
    requires o >= 1 && LiveSet(o, live) && Canonical(o, live, st) && Wf(o, p) && Free(o, live, p)
    ensures Release(o, Mark(o, st, p), p) == st
  {
    FreeIsUncovered(o, live, p);
    MarkIsCanonical(o, live, st, p);
    var m := Mark(o, st, p);
    ReleaseIsCanonical(o, live + {p}, m, p);
    assert live + {p} - {p} == live;
    IndexBound(o, p);
    ChainFrame(o, st[p.index := Width(o, p)], p, 0);
    ChainFrame(o, m[p.index := 0], p, 0);
    CanonicalUnique(o, live, st, Release(o, m, p));
  }

  /** Release then mark of a live position gives back the very same array. */
  lemma ReleaseThenMark(o: nat, live: set<Pos>, st: seq<nat>, p: Pos)
    requires o >= 1 && LiveSet(o, live) && Canonical(o, live, st) && p in live
    ensures Mark(o, Release(o, st, p), p) == st
  {
    LiveIsUncovered(o, live, p);
    ReleaseIsCanonical(o, live, st, p);
    var m := Release(o, st, p);
    MarkIsCanonical(o, live - {p}, m, p);
    assert live - {p} + {p} == live;
    IndexBound(o, p);
    ChainFrame(o, st[p.index := 0], p, 0);
    ChainFrame(o, m[p.index := Width(o, p)], p, 0);
    CanonicalUnique(o, live, st, Mark(o, m, p));
  }

  /** After one pass up from `p`, a second pass stops at once: true of any array. */
  lemma ChainSettles(o: nat, st: seq<nat>, p: Pos)
    requires Shape(o, st) && Wf(o, p)
    ensures UpdateChain(o, UpdateChain(o, st, p), p) == UpdateChain(o, st, p)
  {
    var r := UpdateChain(o, st, p);
    if p.index != 1 {
      IndexOneIsRoot(o, p); ParentWf(o, p);
      var q := Parent(p);
      IndexBound(o, p); IndexBound(o, q); IndexBound(o, Sibling(p));
      var target := Combine(st[p.index], st[Sibling(p).index]);
      if target != st[q.index] {
        ChainFrame(o, st[q.index := target], q, q.index);
        ChainFrame(o, st[q.index := target], q, p.index);
        ChainFrame(o, st[q.index := target], q, Sibling(p).index);
      }
    }
  }

  /** Replaying a mark changes nothing, whatever the array. */
  lemma MarkIdempotent(o: nat, st: seq<nat>, p: Pos)
    requires Shape(o, st) && Wf(o, p)
    ensures Mark(o, Mark(o, st, p), p) == Mark(o, st, p)
  {
    IndexBound(o, p);
    var w := st[p.index := Width(o, p)];
    var m := UpdateChain(o, w, p);
    ChainFrame(o, w, p, p.index);
    assert m[p.index := Width(o, p)] == m;
    ChainSettles(o, w, p);
  }

  /** Replaying a release changes nothing, whatever the array. */
  lemma ReleaseIdempotent(o: nat, st: seq<nat>, p: Pos)
    requires Shape(o, st) && Wf(o, p)
    ensures Release(o, Release(o, st, p), p) == Release(o, st, p)
  {
    IndexBound(o, p);
    if st[p.index] == Width(o, p) {
      ChainFrame(o, st[p.index := 0], p, p.index);
    }
  }

  /** The live set can be read off the statuses: full, with an empty left half. */
  lemma LiveIsDecodable(o: nat, live: set<Pos>, st: seq<nat>, p: Pos)
    requires LiveSet(o, live) && Canonical(o, live, st) && Wf(o, p)
    ensures p.index < |st| && (p.depth < o ==> Left(p).index < |st|)
    ensures p in live <==> st[p.index] == Width(o, p) && (p.depth == o || st[Left(p).index] == 0)
  {
    if p.depth < o {
      ChildrenWf(o, p);
      assert st[Left(p).index] == Stat(o, live, Left(p));
      if p in live {
        LiveIsUncovered(o, live, p);
        NothingBelowChildren(o, live, p);
      }
    }
  }

  /**
   Release is only meant for live blocks. It leaves a canonical array exactly when the
   position is live or its status is not full; on a block filled by smaller ones it does not.
   */
  lemma ReleaseExact(o: nat, live: set<Pos>, st: seq<nat>, p: Pos)
    requires o >= 1 && LiveSet(o, live) && Canonical(o, live, st) && Wf(o, p)
    ensures p.index < |st|
    ensures (exists live' :: LiveSet(o, live') && Canonical(o, live', Release(o, st, p)))
       <==> p in live || st[p.index] != Width(o, p)
  {
    IndexBound(o, p);
    if p in live {
      ReleaseIsCanonical(o, live, st, p);
    } else if st[p.index] == Width(o, p) {
      LiveIsDecodable(o, live, st, p);
      ChildrenWf(o, p);
      IndexBound(o, Left(p));
      var r := Release(o, st, p);
      ChainFrame(o, st[p.index := 0], p, p.index);
      ChainFrame(o, st[p.index := 0], p, Left(p).index);
      forall live' | LiveSet(o, live') && Canonical(o, live', r) ensures false {
        CanonicalIsLocal(o, live', r, p);
      }
    }
  }

  /** Walking up from `p` changes only positions above it. */
  lemma {:induction false} ChainOffPath(o: nat, st: seq<nat>, p: Pos, q: Pos)
    requires Shape(o, st) && Wf(o, p) && Wf(o, q) && !Within(q, p)
    ensures q.index < |st| && UpdateChain(o, st, p)[q.index] == st[q.index]
    decreases p.depth
  {
    IndexBound(o, q);
    if p.index != 1 {
      IndexOneIsRoot(o, p); ParentWf(o, p);
      IndexBound(o, p); IndexBound(o, Parent(p)); IndexBound(o, Sibling(p));
      if q.index == Parent(p).index {
        IndexDeterminesDepth(o, q, Parent(p));
        assert false;
      }
      var target := Combine(st[p.index], st[Sibling(p).index]);
      if target != st[Parent(p).index] {
        ChainOffPath(o, st[Parent(p).index := target], Parent(p), q);
      }
    }
  }

  /** Releasing another position leaves the status of a live block full. */
  lemma ReleaseElsewhere(o: nat, live: set<Pos>, st: seq<nat>, p: Pos, b: Pos)
    requires LiveSet(o, live) && Shape(o, st) && Canonical(o, live, st) && Wf(o, p) && b in live && p != b
    ensures b.index < |st| && Release(o, st, p)[b.index] == Width(o, b)
  {
    IndexBound(o, p); IndexBound(o, b);
    LiveIsUncovered(o, live, b);
    NothingBelow(o, live, b);
    if Within(b, p) {
      UnderLive(o, live, p, b);
    } else {
      if p.index == b.index {
        IndexDeterminesDepth(o, p, b);
        assert false;
      }
      ChainOffPath(o, st[p.index := 0], p, b);
    }
  }

  /** Below a live block every status is zero. */
  lemma {:induction false} UnderLive(o: nat, live: set<Pos>, p: Pos, b: Pos)
    requires LiveSet(o, live) && Wf(o, p) && b in live && Within(b, p) && p != b
    ensures Stat(o, live, p) == 0 && Width(o, p) > 0
  {
    forall q | q in live && Within(p, q) ensures q == p {
      WithinTransitive(b, p, q);
      LiveIsUncovered(o, live, b);
    }
    assert p !in live by {
      LiveIsUncovered(o, live, b);
    }
    NothingBelow(o, live, p);
  }

  /**
   An input on which it does not: in an empty tree take both halves of a position, then release the
   position itself. No set of live blocks has the statuses that are left.
   */
  lemma ReleaseOfHalvesFails(o: nat, st: seq<nat>, p: Pos)
    requires Canonical(o, {}, st) && Wf(o, p) && p.depth < o
    ensures Wf(o, Left(p)) && Wf(o, Right(p))
    ensures var halves := Mark(o, Mark(o, st, Left(p)), Right(p));
            !exists live :: LiveSet(o, live) && Canonical(o, live, Release(o, halves, p))
  {
    assert Shape(o, st);
    hide Mark, Release, Canonical, LiveSet, Free;
    ChildrenWf(o, p);
    var l, r := Left(p), Right(p);
    HalvesAreApart(o, p);
    MarkIsCanonical(o, {}, st, l);
    assert {} + {l} == {l};
    MarkIsCanonical(o, {l}, Mark(o, st, l), r);
    FilledIsFull(o, {l} + {r}, Mark(o, Mark(o, st, l), r), p);
    ReleaseExact(o, {l} + {r}, Mark(o, Mark(o, st, l), r), p);
  }

  lemma FilledIsFull(o: nat, live: set<Pos>, st: seq<nat>, p: Pos)
    requires Shape(o, st) && Canonical(o, live, st) && Wf(o, p) && p.depth < o
    requires p !in live && Left(p) in live && Right(p) in live
    ensures p.index < |st| && st[p.index] == Width(o, p)
  {
    CanonicalIsLocal(o, live, st, p);
    ChildrenWf(o, p);
    CanonicalIsLocal(o, live, st, Left(p));
    CanonicalIsLocal(o, live, st, Right(p));
  }

  /** The two halves of a position do not overlap. */
  lemma HalvesAreApart(o: nat, p: Pos)
    requires Wf(o, p) && p.depth < o
    ensures Wf(o, Left(p)) && Wf(o, Right(p)) && LiveSet(o, {Left(p)}) && Free(o, {Left(p)}, Right(p))
    ensures LiveSet(o, {}) && Free(o, {}, Left(p))
  {
    ChildrenWf(o, p);
  }
}
