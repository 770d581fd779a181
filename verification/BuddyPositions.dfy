/** Positions of the buddy tree: heap index plus depth, and the memory each one covers. */
module BuddyPositions {

  function Pow2(n: nat): (r: nat)
    ensures r >= 1
  {
    if n == 0 then 1 else 2 * Pow2(n - 1)
  }

  lemma {:induction false} Pow2Monotone(a: nat, b: nat)
    requires a <= b
    ensures Pow2(a) <= Pow2(b)
    decreases b - a
  {
    if a < b {
      Pow2Monotone(a, b - 1);
    }
  }

  lemma {:induction false} Pow2Add(a: nat, b: nat)
    ensures Pow2(a + b) == Pow2(a) * Pow2(b)
  {
    if a > 0 {
      Pow2Add(a - 1, b);
      calc {
        Pow2(a + b);
        2 * Pow2((a - 1) + b);
        2 * (Pow2(a - 1) * Pow2(b));
        (2 * Pow2(a - 1)) * Pow2(b);
        Pow2(a) * Pow2(b);
      }
    }
  }

  /** `struct buddy_tree_pos`. The root is (1, 1); (0, 0) is INVALID_POS. */
  datatype Pos = Pos(index: nat, depth: nat)

  const INVALID_POS := Pos(0, 0)
  const ROOT := Pos(1, 1)

  /** A position of a tree of order `o`: its depth is the one its index implies. */
  predicate Wf(o: nat, p: Pos) {
    1 <= p.depth <= o && Pow2(p.depth - 1) <= p.index < Pow2(p.depth)
  }

  function Left(p: Pos): Pos { Pos(2 * p.index, p.depth + 1) }

  function Right(p: Pos): Pos { Pos(2 * p.index + 1, p.depth + 1) }

  /** `index ^= 1`. */
  function Sibling(p: Pos): Pos
    requires p.index > 0
  {
    if p.index % 2 == 0 then Pos(p.index + 1, p.depth) else Pos(p.index - 1, p.depth)
  }

  function Parent(p: Pos): Pos
    requires p.depth > 0
  {
    Pos(p.index / 2, p.depth - 1)
  }

  /** Width of the unary status field of `p`, which is also the status of a full node. */
  function Width(o: nat, p: Pos): nat
    requires p.depth <= o
  {
    o - p.depth + 1
  }

  /** Size of the block of `p`, in units of the alignment. */
  function Size(o: nat, p: Pos): nat
    requires p.depth <= o
  {
    Pow2(o - p.depth)
  }

  /** Offset of the block of `p` from the arena start, in units of the alignment. */
  function Start(o: nat, p: Pos): nat
    requires Wf(o, p)
    decreases p.depth
  {
    if p.index == 1 then 0
    else
      IndexOneIsRoot(o, p); ParentWf(o, p);
      Start(o, Parent(p)) + (if p.index % 2 == 0 then 0 else Size(o, p))
  }

  /** The block is as many blocks of its size away from the start as its position in the row. */
  lemma {:induction false} StartIsProduct(o: nat, p: Pos)
    requires Wf(o, p)
    ensures Start(o, p) == (p.index - Pow2(p.depth - 1)) * Size(o, p)
    decreases p.depth
  {
    IndexOneIsRoot(o, p);
    if p != ROOT {
      ParentWf(o, p);
      StartIsProduct(o, Parent(p));
      var k, h := Parent(p).index - Pow2(p.depth - 2), Size(o, p);
      HalfBlocks(k, h);
      assert p.index - Pow2(p.depth - 1) == if p.index % 2 == 0 then 2 * k else 2 * k + 1;
      assert Size(o, Parent(p)) == 2 * h;
    }
  }

  predicate Disjoint(o: nat, p: Pos, q: Pos)
    requires Wf(o, p) && Wf(o, q)
  {
    Start(o, p) + Size(o, p) <= Start(o, q) || Start(o, q) + Size(o, q) <= Start(o, p)
  }

  /** `r` is `p` or lies below it. */
  predicate Within(p: Pos, r: Pos)
    decreases r.depth
  {
    r == p || (r.depth > p.depth && Within(p, Parent(r)))
  }

  lemma RootWf(o: nat)
    requires o >= 1
    ensures Wf(o, ROOT)
  {
    assert Pow2(1) == 2 * Pow2(0);
  }

  lemma IndexOneIsRoot(o: nat, p: Pos)
    requires Wf(o, p)
    ensures p.index == 1 <==> p == ROOT
    ensures p.depth == 1 <==> p == ROOT
  {
    if p.depth > 1 {
      Pow2Monotone(1, p.depth - 1);
      assert Pow2(1) == 2 * Pow2(0);
    } else {
      assert Pow2(1) == 2 * Pow2(0);
    }
  }

  lemma ChildrenWf(o: nat, p: Pos)
    requires Wf(o, p) && p.depth < o
    ensures Wf(o, Left(p)) && Wf(o, Right(p))
    ensures Parent(Left(p)) == p && Parent(Right(p)) == p
    ensures Sibling(Left(p)) == Right(p) && Sibling(Right(p)) == Left(p)
  {
  }

  lemma ParentWf(o: nat, p: Pos)
    requires Wf(o, p) && p != ROOT
    ensures Wf(o, Parent(p)) && Wf(o, Sibling(p)) && Parent(p).depth < o
    ensures Parent(Sibling(p)) == Parent(p)
    ensures p == Left(Parent(p)) || p == Right(Parent(p))
    ensures (p == Left(Parent(p)) && Sibling(p) == Right(Parent(p)))
         || (p == Right(Parent(p)) && Sibling(p) == Left(Parent(p)))
  {
    IndexOneIsRoot(o, p);
    assert Pow2(p.depth - 1) == 2 * Pow2(p.depth - 2);
  }

  lemma IndexBound(o: nat, p: Pos)
    requires Wf(o, p)
    ensures 1 <= p.index < Pow2(o)
  {
    Pow2Monotone(p.depth, o);
  }

  lemma IndexDeterminesDepth(o: nat, p: Pos, q: Pos)
    requires Wf(o, p) && Wf(o, q) && p.index == q.index
    ensures p == q
  {
    if p.depth < q.depth {
      Pow2Monotone(p.depth, q.depth - 1);
    } else if q.depth < p.depth {
      Pow2Monotone(q.depth, p.depth - 1);
    }
  }

  lemma HalfBlocks(k: nat, h: nat)
    ensures k * (2 * h) == (2 * k) * h
    ensures (2 * k + 1) * h == k * (2 * h) + h
  {
  }

  lemma {:induction false} RowOrder(k: nat, m: nat, h: nat)
    requires k < m
    ensures k * h + h <= m * h
    decreases m
  {
    NextRow(m - 1, h);
    if k < m - 1 {
      RowOrder(k, m - 1, h);
    }
  }

  lemma NextRow(k: nat, h: nat)
    ensures (k + 1) * h == k * h + h
  {
  }

  /** The two halves of a block are its children. */
  lemma ChildrenSplit(o: nat, p: Pos)
    requires Wf(o, p) && p.depth < o
    ensures Wf(o, Left(p)) && Wf(o, Right(p))
    ensures Size(o, p) == 2 * Size(o, Left(p)) && Size(o, Left(p)) == Size(o, Right(p))
    ensures Start(o, Left(p)) == Start(o, p)
    ensures Start(o, Right(p)) == Start(o, p) + Size(o, Left(p))
  {
    ChildrenWf(o, p);
  }

  lemma ParentCovers(o: nat, p: Pos)
    requires Wf(o, p) && p != ROOT
    ensures Wf(o, Parent(p))
    ensures Start(o, Parent(p)) <= Start(o, p)
    ensures Start(o, p) + Size(o, p) <= Start(o, Parent(p)) + Size(o, Parent(p))
  {
    ParentWf(o, p);
    ChildrenSplit(o, Parent(p));
  }

  lemma {:induction false} WithinCovers(o: nat, p: Pos, r: Pos)
    requires Wf(o, p) && Wf(o, r) && Within(p, r)
    ensures p.depth <= r.depth
    ensures Start(o, p) <= Start(o, r)
    ensures Start(o, r) + Size(o, r) <= Start(o, p) + Size(o, p)
    ensures !Disjoint(o, p, r)
    decreases r.depth
  {
    if r != p {
      IndexOneIsRoot(o, r);
      ParentCovers(o, r);
      WithinCovers(o, p, Parent(r));
    }
  }

  lemma {:induction false} SameRow(o: nat, p: Pos, q: Pos)
    requires Wf(o, p) && Wf(o, q) && p.depth == q.depth && p.index < q.index
    ensures Start(o, p) + Size(o, p) <= Start(o, q)
    decreases p.depth
  {
    IndexOneIsRoot(o, p);
    IndexOneIsRoot(o, q);
    ParentCovers(o, p);
    ParentCovers(o, q);
    if p.index / 2 < q.index / 2 {
      SameRow(o, Parent(p), Parent(q));
    }
  }

  /** Blocks are nested or disjoint, and nesting is the tree order. */
  lemma {:induction false} NestedOrDisjoint(o: nat, p: Pos, r: Pos)
    requires Wf(o, p) && Wf(o, r) && p.depth <= r.depth
    ensures Within(p, r) <==> !Disjoint(o, p, r)
    decreases r.depth
  {
    if p.depth == r.depth {
      if p.index < r.index {
        SameRow(o, p, r);
      } else if r.index < p.index {
        SameRow(o, r, p);
      } else {
        WithinCovers(o, p, r);
      }
    } else {
      IndexOneIsRoot(o, r);
      ParentCovers(o, r);
      NestedOrDisjoint(o, p, Parent(r));
      if Within(p, r) {
        WithinCovers(o, p, r);
      }
    }
  }

  lemma {:induction false} WithinTransitive(p: Pos, q: Pos, r: Pos)
    requires Within(p, q) && Within(q, r)
    ensures Within(p, r)
    decreases r.depth
  {
    if r != q {
      WithinTransitive(p, q, Parent(r));
      WithinDepth(p, Parent(r));
    }
  }

  lemma {:induction false} WithinDepth(p: Pos, r: Pos)
    requires Within(p, r)
    ensures p.depth <= r.depth
    decreases r.depth
  {
  }

  lemma {:induction false} RootCovers(o: nat, r: Pos)
    requires Wf(o, r)
    ensures Within(ROOT, r)
    decreases r.depth
  {
    IndexOneIsRoot(o, r);
    if r != ROOT {
      ParentWf(o, r);
      RootCovers(o, Parent(r));
    }
  }

  /** Something strictly below `p` is below one of its children. */
  lemma {:induction false} BelowChild(o: nat, p: Pos, r: Pos)
    requires Wf(o, p) && Wf(o, r) && Within(p, r) && r != p
    ensures p.depth < r.depth && p.depth < o
    ensures Within(Left(p), r) || Within(Right(p), r)
    decreases r.depth
  {
    IndexOneIsRoot(o, r);
    WithinDepth(p, Parent(r));
    ParentWf(o, r);
    if Parent(r) != p {
      BelowChild(o, p, Parent(r));
    }
  }
}
