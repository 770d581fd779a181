/** The arena around the buddy tree: sizes, addresses, allocation and release by address. */
module BuddyArena {
  import opened BuddyPositions
  import opened BuddyStatus
  import opened BuddySearch

  /** Exponent of the least power of two not below m. */
  function CeilLog2(m: nat): (k: nat)
    requires m >= 1
    ensures m <= Pow2(k) && (k > 0 ==> Pow2(k - 1) < m)
  {
    if m == 1 then 0 else 1 + CeilLog2((m + 1) / 2)
  }

  /** An arena of `blocks` minimal blocks of 2^alignLog bytes. */
  datatype Arena = Arena(alignLog: nat, blocks: nat) {

    function Align(): nat { Pow2(alignLog) }

    /** The size of `u` minimal blocks. */
    function Bytes(u: nat): (r: nat)
    {
      if u == 0 then 0 else Align() + Bytes(u - 1)
    }

    /** `memory_size`. */
    function Memory(): nat { Bytes(blocks) }

    /** `buddy_tree_order_for_memory`. */
    function Order(): (o: nat)
      requires blocks >= 1
      ensures o >= 1 && blocks <= Pow2(o - 1) && (o > 1 ==> Pow2(o - 2) < blocks)
    {
      CeilLog2(blocks) + 1
    }

    /** `buddy_effective_memory_size`. */
    function Effective(): nat
      requires blocks >= 1
    {
      Bytes(Pow2(Order() - 1))
    }
  }

  lemma {:induction false} BytesIsProduct(ar: Arena, u: nat)
    ensures ar.Bytes(u) == ar.Align() * u
  {
    if u > 0 {
      BytesIsProduct(ar, u - 1);
      OneMore(ar.Align(), u - 1);
    }
  }

  lemma OneMore(a: nat, u: nat)
    ensures a * (u + 1) == a + a * u
  {
  }

  lemma {:induction false} BytesSum(ar: Arena, x: nat, y: nat)
    ensures ar.Bytes(x + y) == ar.Bytes(x) + ar.Bytes(y)
  {
    if y > 0 {
      BytesSum(ar, x, y - 1);
    }
  }

  lemma BytesCompare(ar: Arena, x: nat, y: nat)
    ensures ar.Bytes(x) == ar.Bytes(y) <==> x == y
    ensures ar.Bytes(x) <= ar.Bytes(y) <==> x <= y
  {
    if x < y {
      BytesSum(ar, x, y - x);
    } else if y < x {
      BytesSum(ar, y, x - y);
    }
  }

  /** The effective size is the ceiling power of two of the memory size. */
  lemma EffectiveIsCeiling(ar: Arena)
    requires ar.blocks >= 1
    ensures ar.Memory() >= 1 && ar.Effective() == Pow2(CeilLog2(ar.Memory()))
  {
    BytesIsProduct(ar, ar.blocks);
    BytesIsProduct(ar, Pow2(ar.Order() - 1));
    ScaledCeiling(ar.alignLog, ar.blocks);
  }

  lemma {:induction false} ScaledCeiling(k: nat, m: nat)
    requires m >= 1
    ensures Pow2(k) * m >= 1
    ensures Pow2(CeilLog2(Pow2(k) * m)) == Pow2(k) * Pow2(CeilLog2(m))
  {
    if k > 0 {
      ScaledCeiling(k - 1, m);
      Doubling(Pow2(k - 1), m);
      Doubling(Pow2(k - 1), Pow2(CeilLog2(m)));
      CeilingDoubles(Pow2(k - 1) * m);
    }
  }

  lemma CeilingDoubles(h: nat)
    requires h >= 1
    ensures CeilLog2(2 * h) == 1 + CeilLog2(h)
    ensures Pow2(CeilLog2(2 * h)) == 2 * Pow2(CeilLog2(h))
  {
    HalfOfDouble(h);
    assert CeilLog2(2 * h) == 1 + CeilLog2(h);
    hide CeilLog2;
    assert Pow2(1 + CeilLog2(h)) == 2 * Pow2(CeilLog2(h));
  }

  lemma HalfOfDouble(h: nat)
    ensures (2 * h + 1) / 2 == h
  {
  }

  lemma Doubling(a: nat, b: nat)
    ensures (2 * a) * b == 2 * (a * b)
  {
  }

  // Sizes ------------------------------------------------------------------------------------

  /** `size_for_depth`, in bytes. */
  function SizeForDepth(ar: Arena, depth: nat): nat
    requires ar.blocks >= 1 && 1 <= depth <= ar.Order()
  {
    ar.Bytes(Pow2(ar.Order() - depth))
  }

  /** A request raised to the alignment. */
  function Raised(ar: Arena, size: nat): nat {
    if size < ar.Align() then ar.Align() else size
  }

  lemma HalfSize(ar: Arena, depth: nat)
    requires ar.blocks >= 1 && 1 <= depth < ar.Order()
    ensures SizeForDepth(ar, depth) == 2 * SizeForDepth(ar, depth + 1)
    ensures SizeForDepth(ar, depth) / 2 == SizeForDepth(ar, depth + 1)
  {
    var h := Pow2(ar.Order() - depth - 1);
    assert Pow2(ar.Order() - depth) == 2 * h;
    BytesSum(ar, h, h);
  }

  lemma SmallestBlock(ar: Arena)
    requires ar.blocks >= 1
    ensures SizeForDepth(ar, ar.Order()) == ar.Align()
  {
    assert ar.Bytes(1) == ar.Align() + ar.Bytes(0);
  }

  /** The depth whose block holds a request with less than a factor two to spare. */
  ghost predicate FitsDepth(ar: Arena, size: nat, depth: nat) {
    && ar.blocks >= 1 && 1 <= depth <= ar.Order()
    && Raised(ar, size) <= SizeForDepth(ar, depth) < 2 * Raised(ar, size)
  }

  lemma AlignPositive(ar: Arena)
    ensures ar.Align() >= 1
  {
  }

  /** Room for the request twice means there is a deeper level, and the request fits its blocks. */
  lemma HalveStep(ar: Arena, requested: nat, depth: nat)
    requires ar.blocks >= 1 && 1 <= depth <= ar.Order() && requested >= ar.Align()
    requires SizeForDepth(ar, depth) >= 2 * requested
    ensures depth < ar.Order()
    ensures SizeForDepth(ar, depth) / 2 == SizeForDepth(ar, depth + 1) >= requested
  {
    SmallestBlock(ar);
    HalfSize(ar, depth);
  }

  /** `depth_for_size`. */
  method DepthForSize(ar: Arena, size: nat) returns (depth: nat)
    requires ar.blocks >= 1 && Raised(ar, size) <= ar.Effective()
    ensures FitsDepth(ar, size, depth)
  {
    AlignPositive(ar);
    var requested := Raised(ar, size);
    depth := 1;
    var e := ar.Effective();
    DoubleFits(e, requested);
    while (e / requested) / 2 != 0
      invariant 1 <= depth <= ar.Order()
      invariant e == SizeForDepth(ar, depth) && requested <= e
      invariant (e / requested) / 2 != 0 <==> e >= 2 * requested
      decreases ar.Order() - depth
    {
      HalveStep(ar, requested, depth);
      depth := depth + 1;
      e := e / 2;
      DoubleFits(e, requested);
    }
  }

  /** The loop test of `depth_for_size`: is there room for the request twice? */
  lemma DoubleFits(e: nat, r: nat)
    requires r >= 1
    ensures (e / r) / 2 != 0 <==> e >= 2 * r
  {
    var q := e / r;
    assert r * q <= e < r * q + r;
    if q >= 2 {
      RowOrder(1, q, r);
    } else if q == 1 {
    } else {
    }
  }

  lemma {:induction false} FitsDepthUnique(ar: Arena, size: nat, d1: nat, d2: nat)
    requires FitsDepth(ar, size, d1) && FitsDepth(ar, size, d2)
    ensures d1 == d2
  {
    if d1 < d2 {
      DeeperIsHalf(ar, d1, d2);
    } else if d2 < d1 {
      DeeperIsHalf(ar, d2, d1);
    }
  }

  lemma {:induction false} DeeperIsHalf(ar: Arena, d1: nat, d2: nat)
    requires ar.blocks >= 1 && 1 <= d1 < d2 <= ar.Order()
    ensures SizeForDepth(ar, d1) >= 2 * SizeForDepth(ar, d2)
    decreases d2
  {
    HalfSize(ar, d2 - 1);
    if d1 < d2 - 1 {
      DeeperIsHalf(ar, d1, d2 - 1);
    }
  }

  // Addresses -----------------------------------------------------------------------------------

  /** The offset of a block from the arena start. */
  function Address(ar: Arena, p: Pos): nat
    requires ar.blocks >= 1 && Wf(ar.Order(), p)
  {
    ar.Bytes(Start(ar.Order(), p))
  }

  /** `address_for_position`. */
  method AddressOf(ar: Arena, p: Pos) returns (r: nat)
    requires ar.blocks >= 1 && Wf(ar.Order(), p)
    ensures r == Address(ar, p)
  {
    var blockSize := SizeForDepth(ar, p.depth);
    var index := p.index - Pow2(p.depth - 1);
    ScaledStart(ar, p, blockSize, index);
    r := blockSize * index;
  }

  lemma ScaledStart(ar: Arena, p: Pos, blockSize: nat, index: nat)
    requires ar.blocks >= 1 && Wf(ar.Order(), p)
    requires blockSize == SizeForDepth(ar, p.depth) && index == p.index - Pow2(p.depth - 1)
    ensures blockSize * index == Address(ar, p)
  {
    var o := ar.Order();
    StartIsProduct(o, p);
    BytesIsProduct(ar, Start(o, p));
    BytesIsProduct(ar, Size(o, p));
    Associate(ar.Align(), Size(o, p), index, blockSize, Start(o, p), Address(ar, p));
  }

  lemma Associate(a: nat, s: nat, k: nat, scaled: nat, start: nat, address: nat)
    requires scaled == a * s && start == k * s && address == a * start
    ensures scaled * k == address
  {
    assert (a * s) * k == a * (k * s);
  }

  function Quotient(n: nat, a: nat): nat
    requires a >= 1
  {
    n / a
  }

  /** `deepest_position_for_offset`. */
  function Deepest(ar: Arena, offset: nat): Pos
    requires ar.blocks >= 1
  {
    Pos(Pow2(ar.Order() - 1) + Quotient(offset, ar.Align()), ar.Order())
  }

  /** The loop of `position_for_address`: up to the first position with a status. */
  function Climb(o: nat, st: seq<nat>, p: Pos): (r: Pos)
    requires Shape(o, st) && Wf(o, p)
    ensures r == INVALID_POS || (Wf(o, r) && Within(r, p) && r.index < |st| && st[r.index] != 0)
    decreases p.depth
  {
    IndexBound(o, p);
    if st[p.index] != 0 then assert Within(p, p); p
    else if p == ROOT then INVALID_POS
    else
      IndexOneIsRoot(o, p); ParentWf(o, p);
      var r := Climb(o, st, Parent(p));
      assert r != INVALID_POS ==> Within(r, p) by {
        if r != INVALID_POS { WithinDepth(r, Parent(p)); }
      }
      r
  }

  lemma DivideBound(n: nat, a: nat, b: nat)
    requires a >= 1 && n < a * b
    ensures 0 <= n / a < b
  {
    var q := n / a;
    assert a * q <= n;
    if q >= b {
      MulMonotone(a, b, q);
    }
  }

  lemma LeafStart(o: nat, q: nat)
    requires o >= 1 && q < Pow2(o - 1)
    ensures var leaf := Pos(Pow2(o - 1) + q, o); Wf(o, leaf) && Start(o, leaf) == q
  {
    StartIsProduct(o, Pos(Pow2(o - 1) + q, o));
  }

  lemma DeepestWf(ar: Arena, offset: nat)
    requires ar.blocks >= 1 && offset < ar.Memory()
    ensures Wf(ar.Order(), Deepest(ar, offset))
    ensures Start(ar.Order(), Deepest(ar, offset)) == offset / ar.Align()
  {
    AlignPositive(ar);
    BytesIsProduct(ar, ar.blocks);
    DivideBound(offset, ar.Align(), ar.blocks);
    var o, q := ar.Order(), offset / ar.Align();
    assert q < Pow2(o - 1);
    assert Deepest(ar, offset) == Pos(Pow2(o - 1) + q, o);
    LeafStart(o, q);
  }

  lemma MulMonotone(a: nat, x: nat, y: nat)
    requires x <= y
    ensures a * x <= a * y
  {
    assert a * (y - x) >= 0;
  }

  /** `position_for_address`. */
  function PositionForAddress(ar: Arena, st: seq<nat>, offset: nat): (r: Pos)
    requires ar.blocks >= 1 && Shape(ar.Order(), st) && offset < ar.Memory()
    ensures r == INVALID_POS || (Wf(ar.Order(), r) && Address(ar, r) == offset)
  {
    if offset % ar.Align() != 0 then INVALID_POS
    else
      DeepestWf(ar, offset);
      var p := Climb(ar.Order(), st, Deepest(ar, offset));
      if p == INVALID_POS || Address(ar, p) != offset then INVALID_POS else p
  }

  /** `buddy_free_find_pos`. */
  function FreeFindPos(ar: Arena, st: seq<nat>, offset: nat, size: nat): Pos
    requires ar.blocks >= 1 && Shape(ar.Order(), st)
  {
    if offset >= ar.Memory() then INVALID_POS
    else
      var p := PositionForAddress(ar, st, offset);
      if p == INVALID_POS then INVALID_POS
      else
        var blockSize := SizeForDepth(ar, p.depth);
        if Raised(ar, size) > blockSize || Raised(ar, size) <= blockSize / 2 then INVALID_POS else p
  }

  /** `buddy_free`, on the status array. */
  function FreeAddress(ar: Arena, st: seq<nat>, offset: nat): (r: seq<nat>)
    requires ar.blocks >= 1 && Shape(ar.Order(), st)
    ensures Shape(ar.Order(), r)
  {
    if offset >= ar.Memory() then st
    else
      var p := PositionForAddress(ar, st, offset);
      if p == INVALID_POS then st else Release(ar.Order(), st, p)
  }

  // Theorems ---------------------------------------------------------------------------------------

  /** Climbing from anywhere below a live block stops at that block. */
  lemma {:induction false} ClimbToLive(o: nat, live: set<Pos>, st: seq<nat>, p: Pos, q: Pos)
    requires Shape(o, st) && LiveSet(o, live) && Canonical(o, live, st) && p in live
    requires Wf(o, q) && Within(p, q)
    ensures Climb(o, st, q) == p
    decreases q.depth
  {
    IndexBound(o, q);
    LiveIsUncovered(o, live, p);
    if q == p {
      NothingBelow(o, live, p);
    } else {
      WithinDepth(p, Parent(q));
      NothingLiveBelow(o, live, p, q);
      NothingBelow(o, live, q);
      IndexOneIsRoot(o, q);
      ParentWf(o, q);
      ClimbToLive(o, live, st, p, Parent(q));
    }
  }

  lemma NothingLiveBelow(o: nat, live: set<Pos>, p: Pos, q: Pos)
    requires LiveSet(o, live) && p in live && Wf(o, q) && Within(p, q) && q != p
    ensures forall x :: x in live ==> !Within(q, x)
    ensures q !in live
  {
    LiveIsUncovered(o, live, p);
    forall x | x in live ensures !Within(q, x) {
      if Within(q, x) {
        WithinTransitive(p, q, x);
        WithinDepth(q, x);
      }
    }
    assert Within(q, q);
  }

  lemma {:induction false} FirstLeaf(o: nat, p: Pos) returns (leaf: Pos)
    requires Wf(o, p)
    ensures Wf(o, leaf) && leaf.depth == o && Within(p, leaf) && Start(o, leaf) == Start(o, p)
    decreases o - p.depth
  {
    if p.depth == o {
      leaf := p;
    } else {
      ChildrenSplit(o, p);
      ChildrenWf(o, p);
      leaf := FirstLeaf(o, Left(p));
      assert Within(p, Left(p)) by { assert Within(p, p); }
      WithinTransitive(p, Left(p), leaf);
    }
  }

  lemma LeafIsDeepest(ar: Arena, leaf: Pos)
    requires ar.blocks >= 1 && Wf(ar.Order(), leaf) && leaf.depth == ar.Order()
    ensures Deepest(ar, Address(ar, leaf)) == leaf
  {
    AlignPositive(ar);
    BytesIsProduct(ar, Start(ar.Order(), leaf));
    DivideExact(ar.Align(), Start(ar.Order(), leaf));
    LeafStart(ar.Order(), leaf.index - Pow2(ar.Order() - 1));
  }

  /** Blocks of one size that start at the same address are the same. */
  lemma SameBlock(ar: Arena, p: Pos, q: Pos)
    requires ar.blocks >= 1 && Wf(ar.Order(), p) && Wf(ar.Order(), q) && p.depth == q.depth
    requires Address(ar, p) == Address(ar, q)
    ensures p == q
  {
    hide Arena.Order, Start, Arena.Bytes;
    var o := ar.Order();
    BytesCompare(ar, Start(o, p), Start(o, q));
    SameStart(o, p, q);
  }

  lemma SameStart(o: nat, p: Pos, q: Pos)
    requires Wf(o, p) && Wf(o, q) && p.depth == q.depth && Start(o, p) == Start(o, q)
    ensures p == q
  {
    hide Start, Pow2;
    StartIsProduct(o, p);
    StartIsProduct(o, q);
    var a, b, h := p.index - Pow2(p.depth - 1), q.index - Pow2(q.depth - 1), Size(o, p);
    assert Size(o, q) == h;
    hide Size;
    if a < b {
      RowOrder(a, b, h);
    } else if b < a {
      RowOrder(b, a, h);
    }
  }

  lemma DivideExact(a: nat, s: nat)
    requires a >= 1
    ensures a * s / a == s && a * s % a == 0
  {
    var q := a * s / a;
    assert a * q <= a * s < a * q + a;
    if q < s {
      RowOrder(q, s, a);
    } else if s < q {
      RowOrder(s, q, a);
    }
  }

  /** The address of a live block leads back to it. */
  lemma AddressRoundTrip(ar: Arena, live: set<Pos>, st: seq<nat>, p: Pos)
    requires ar.blocks >= 1 && Shape(ar.Order(), st)
    requires LiveSet(ar.Order(), live) && Canonical(ar.Order(), live, st) && p in live
    requires Address(ar, p) < ar.Memory()
    ensures PositionForAddress(ar, st, Address(ar, p)) == p
  {
    var o := ar.Order();
    var leaf := FirstLeaf(o, p);
    LeafIsDeepest(ar, leaf);
    AlignPositive(ar);
    BytesIsProduct(ar, Start(o, p));
    DivideExact(ar.Align(), Start(o, p));
    ClimbToLive(o, live, st, p, leaf);
  }

  /** The test of the size against the block: it is exactly the depth a request of that size gets. */
  lemma SizeTest(ar: Arena, size: nat, depth: nat)
    requires ar.blocks >= 1 && 1 <= depth <= ar.Order()
    ensures var s := SizeForDepth(ar, depth);
            FitsDepth(ar, size, depth) <==> !(Raised(ar, size) > s || Raised(ar, size) <= s / 2)
  {
  }

  /**
   A live block is found from its address and a size if and only if the size is one that gets a block
   of its depth. With any other size nothing is found.
   */
  lemma FreeFindsBlock(ar: Arena, live: set<Pos>, st: seq<nat>, p: Pos, n: nat)
    requires ar.blocks >= 1 && Shape(ar.Order(), st)
    requires LiveSet(ar.Order(), live) && Canonical(ar.Order(), live, st) && p in live
    requires Address(ar, p) < ar.Memory()
    ensures FreeFindPos(ar, st, Address(ar, p), n) == if FitsDepth(ar, n, p.depth) then p else INVALID_POS
    ensures p != INVALID_POS
  {
    hide FitsDepth, Address;
    AddressRoundTrip(ar, live, st, p);
    SizeTest(ar, n, p.depth);
  }

  /**
   Whatever is found for an offset and a size starts at the offset and is of the depth that the size
   gets; and if it is not a live block, releasing it changes nothing.
   */
  lemma FoundFits(ar: Arena, live: set<Pos>, st: seq<nat>, offset: nat, size: nat)
    requires ar.blocks >= 1 && Shape(ar.Order(), st)
    requires LiveSet(ar.Order(), live) && Canonical(ar.Order(), live, st)
    ensures var r := FreeFindPos(ar, st, offset, size);
            r != INVALID_POS ==>
              && offset < ar.Memory() && Wf(ar.Order(), r) && Address(ar, r) == offset && FitsDepth(ar, size, r.depth)
              && (r in live || Release(ar.Order(), st, r) == st)
  {
    hide FitsDepth, Address;
    var r := FreeFindPos(ar, st, offset, size);
    if r != INVALID_POS {
      SizeTest(ar, size, r.depth);
      DeepestWf(ar, offset);
      StoppedShort(ar.Order(), live, st, Deepest(ar, offset));
    }
  }

  /** The depth a size gets is that of the smallest blocks that hold it. */
  lemma FitsDepthIsSmallest(ar: Arena, size: nat, depth: nat)
    requires ar.blocks >= 1 && 1 <= depth <= ar.Order()
    ensures FitsDepth(ar, size, depth)
       <==> size <= SizeForDepth(ar, depth) && (depth < ar.Order() ==> SizeForDepth(ar, depth + 1) < size)
  {
    hide SizeForDepth, Arena.Order, Arena.Align;
    SmallestBlock(ar);
    AlignPositive(ar);
    if depth < ar.Order() {
      HalfSize(ar, depth);
      if depth + 1 < ar.Order() {
        DeeperIsHalf(ar, depth + 1, ar.Order());
      }
    }
  }

  /** Two sizes that get blocks of the same size. */
  ghost predicate SameBlockSize(ar: Arena, a: nat, b: nat) {
    exists d :: FitsDepth(ar, a, d) && FitsDepth(ar, b, d)
  }

  lemma SameSizeFits(ar: Arena, a: nat, b: nat, depth: nat)
    requires FitsDepth(ar, a, depth)
    ensures SameBlockSize(ar, a, b) <==> FitsDepth(ar, b, depth)
  {
    if SameBlockSize(ar, a, b) {
      var d :| FitsDepth(ar, a, d) && FitsDepth(ar, b, d);
      FitsDepthUnique(ar, a, depth, d);
    }
  }

  lemma {:induction false} ClimbPassedZero(o: nat, st: seq<nat>, p: Pos)
    requires Shape(o, st) && Wf(o, p)
    ensures var r := Climb(o, st, p);
            r != INVALID_POS && r != p ==>
              r.depth < o && Right(r).index < |st| && (st[Left(r).index] == 0 || st[Right(r).index] == 0)
    decreases p.depth
  {
    IndexBound(o, p);
    if st[p.index] == 0 && p != ROOT {
      IndexOneIsRoot(o, p);
      ParentWf(o, p);
      ClimbPassedZero(o, st, Parent(p));
      var r := Climb(o, st, Parent(p));
      if r == Parent(p) {
        ChildrenWf(o, r);
        IndexBound(o, Right(r));
      }
    }
  }

  /** A position the climb stops at without being live is not full, so releasing it does nothing. */
  lemma StoppedShort(o: nat, live: set<Pos>, st: seq<nat>, leaf: Pos)
    requires Shape(o, st) && LiveSet(o, live) && Canonical(o, live, st)
    requires Wf(o, leaf) && leaf.depth == o
    ensures var r := Climb(o, st, leaf); r == INVALID_POS || r in live || Release(o, st, r) == st
  {
    var r := Climb(o, st, leaf);
    ClimbPassedZero(o, st, leaf);
    if r != INVALID_POS && r !in live {
      CanonicalIsLocal(o, live, st, r);
      if r.depth < o {
        ChildrenWf(o, r);
      }
    }
  }

  ghost predicate StartsLive(ar: Arena, live: set<Pos>, offset: nat)
    requires ar.blocks >= 1 && LiveSet(ar.Order(), live)
  {
    exists p :: p in live && Address(ar, p) == offset
  }

  /** `buddy_free` releases the live block that starts at the address; on any other address,
      inside a block, in free memory, misaligned or outside, it leaves the tree as it is. */
  lemma FreeAddressExact(ar: Arena, live: set<Pos>, st: seq<nat>, offset: nat)
    requires ar.blocks >= 1 && Shape(ar.Order(), st)
    requires LiveSet(ar.Order(), live) && Canonical(ar.Order(), live, st)
    ensures offset >= ar.Memory() || !StartsLive(ar, live, offset) ==> FreeAddress(ar, st, offset) == st
    ensures forall p :: p in live && Address(ar, p) == offset && offset < ar.Memory()
              ==> FreeAddress(ar, st, offset) == Release(ar.Order(), st, p)
                  && Canonical(ar.Order(), live - {p}, FreeAddress(ar, st, offset))
  {
    forall p | p in live && Address(ar, p) == offset && offset < ar.Memory()
      ensures FreeAddress(ar, st, offset) == Release(ar.Order(), st, p)
      ensures Canonical(ar.Order(), live - {p}, FreeAddress(ar, st, offset))
    {
      AddressRoundTrip(ar, live, st, p);
      ReleaseIsCanonical(ar.Order(), live, st, p);
    }
    if offset < ar.Memory() && !StartsLive(ar, live, offset) {
      FreeNothing(ar, live, st, offset);
    }
  }

  lemma FreeNothing(ar: Arena, live: set<Pos>, st: seq<nat>, offset: nat)
    requires ar.blocks >= 1 && Shape(ar.Order(), st) && offset < ar.Memory()
    requires LiveSet(ar.Order(), live) && Canonical(ar.Order(), live, st)
    requires !StartsLive(ar, live, offset)
    ensures FreeAddress(ar, st, offset) == st
  {
    var p := PositionForAddress(ar, st, offset);
    if p != INVALID_POS {
      DeepestWf(ar, offset);
      StoppedShort(ar.Order(), live, st, Deepest(ar, offset));
    }
  }
}
