/** The allocator object: a tree over an arena, with the virtual slots marked for good. */
module BuddyAllocator {
  import opened BuddyPositions
  import opened BuddyStatus
  import opened BuddySearch
  import BuddyChoice
  import opened BuddyArena
  import opened BuddyVirtual
  import opened BuddyWalk
  import opened BuddyTree

  class Allocator {
    const arena: Arena
    const tree: Tree
    ghost var live: set<Pos>   // live blocks, the virtual slots among them

    ghost predicate Valid()
      reads this, tree, tree.bits, tree.sizes
    {
      && arena.blocks >= 1
      && tree.Valid() && tree.order == arena.Order()
      && Matches(arena, live, tree.statuses)
    }

    /** `buddy_init_alignment` on aligned memory: exactly the memory is free. */
    constructor (ar: Arena)
      requires ar.blocks >= 1 && ar.Order() <= 31
      ensures Valid() && arena == ar && live == Elements(VirtualSlots(ar))
      ensures fresh(tree) && fresh(tree.bits) && fresh(tree.sizes)
    {
      arena := ar;
      tree := new Tree(ar.Order());
      live := Elements(VirtualSlots(ar));
      new;
      VirtualRoundTrip(arena, tree.statuses);
      Toggle(true);
    }

    /** `buddy_toggle_virtual_slots`. */
    method Toggle(mark: bool)
      requires arena.blocks >= 1 && tree.Valid() && tree.order == arena.Order()
      modifies tree, tree.bits
      ensures tree.Valid() && AllWf(tree.order, VirtualSlots(arena))
      ensures tree.statuses == Toggled(tree.order, old(tree.statuses), VirtualSlots(arena), mark)
    {
      VirtualSlotsTile(arena);
      var effective, memory := arena.Effective(), arena.Memory();
      ExcessBytes(arena);
      if effective == memory {
        return;
      }
      ExcessInRightHalf(arena);
      ToggleFrom(arena, tree, Right(ROOT), effective - memory, Excess(arena), mark);
    }

    /** `buddy_malloc_find_pos`. */
    method MallocFindPos(size: nat) returns (r: Pos)
      requires Valid()
      ensures r == INVALID_POS <==> forall p :: !Fitting(arena, live, size, p)
      ensures r != INVALID_POS ==>
                BestFit(arena, live, size, r) && Address(arena, r) + AtLeastOne(size) <= arena.Memory()
    {
      var requested := AtLeastOne(size);
      if requested > arena.Memory() {
        TooLarge(arena, live, size);
        return INVALID_POS;
      }
      RequestFits(arena, requested);
      var depth := DepthForSize(arena, requested);
      r := tree.FindFreePosition(depth);
      MallocExact(arena, live, tree.statuses, size, depth);
    }

    /** `buddy_malloc_apply`. */
    method MallocApply(p: Pos) returns (address: nat)
      requires Valid() && Wf(tree.order, p) && Free(tree.order, live, p)
      modifies this, tree, tree.bits
      ensures Valid() && live == old(live) + {p} && address == Address(arena, p)
      ensures tree.statuses == Mark(tree.order, old(tree.statuses), p)
    {
      MarkIsCanonical(tree.order, live, tree.statuses, p);
      tree.MarkPosition(p);
      live := live + {p};
      address := AddressOf(arena, p);
    }

    /** `position_for_address`. */
    method PositionFor(offset: nat) returns (r: Pos)
      requires Valid() && offset < arena.Memory()
      ensures r == PositionForAddress(arena, tree.statuses, offset)
    {
      AlignPositive(arena);
      if offset % arena.Align() != 0 {
        return INVALID_POS;
      }
      DeepestWf(arena, offset);
      var o := tree.order;
      var pos := Deepest(arena, offset);
      var status := tree.Status(pos);
      while status == 0
        invariant Wf(o, pos) && pos.index < |tree.statuses| && status == tree.statuses[pos.index]
        invariant Climb(o, tree.statuses, pos) == Climb(o, tree.statuses, Deepest(arena, offset))
        decreases pos.depth
      {
        ClimbUp(o, tree.statuses, pos);
        if pos.depth == 1 {
          return INVALID_POS;
        }
        pos := Parent(pos);
        status := tree.Status(pos);
      }
      ClimbStop(o, tree.statuses, pos);
      var address := AddressOf(arena, pos);
      if address != offset {
        return INVALID_POS;
      }
      r := pos;
    }

    /** `buddy_free_find_pos`: a live block is found if and only if it starts at the offset and the size gets it. */
    method FreeFindPosition(offset: nat, size: nat) returns (r: Pos)
      requires Valid()
      ensures r == FreeFindPos(arena, tree.statuses, offset, size)
      ensures forall p :: p in live ==> (r == p <==> FoundBy(arena, p, offset, size))
      ensures forall p :: p in live && Address(arena, p) == offset && offset < arena.Memory() ==>
                r == p || r == INVALID_POS
    {
      FoundFits(arena, live, tree.statuses, offset, size);
      forall p | p in live
        ensures FreeFindPos(arena, tree.statuses, offset, size) == p <==> FoundBy(arena, p, offset, size)
        ensures Address(arena, p) == offset && offset < arena.Memory() ==>
                  FreeFindPos(arena, tree.statuses, offset, size) in {p, INVALID_POS}
      {
        LiveIsSome(arena, live, p);
        if Address(arena, p) == offset && offset < arena.Memory() {
          FreeFindsBlock(arena, live, tree.statuses, p, size);
        }
      }
      if offset >= arena.Memory() {
        return INVALID_POS;
      }
      r := PositionFor(offset);
      if r == INVALID_POS {
        return;
      }
      var blockSize := SizeForDepth(arena, r.depth);
      var requested := Raised(arena, size);
      if requested > blockSize {
        return INVALID_POS;
      }
      if requested <= blockSize / 2 {
        return INVALID_POS;
      }
    }

    /** `buddy_free`: the live block at the offset goes, and any other offset changes nothing. */
    method FreeAt(offset: nat)
      requires Valid()
      modifies this, tree, tree.bits
      ensures Valid() && live == AfterFree(arena, old(live), offset)
      ensures live == old(live) ==> tree.statuses == old(tree.statuses)
    {
      FreeAtExact(arena, live, tree.statuses, offset);
      hide Matches, AfterFree, FreeAddress;
      ReleaseAt(offset);
      live := AfterFree(arena, live, offset);
    }

    method ReleaseAt(offset: nat)
      requires Valid()
      modifies tree, tree.bits
      ensures tree.Valid() && tree.statuses == FreeAddress(arena, old(tree.statuses), offset)
    {
      FreeAddressCases(arena, tree.statuses, offset);
      if offset < arena.Memory() {
        var p := PositionFor(offset);
        if p != INVALID_POS {
          tree.ReleasePosition(p);
        }
      }
    }

    /** `buddy_arena_free_size`. */
    method FreeSize() returns (result: nat, ghost visited: seq<Pos>)
      requires Valid()
      ensures Ascending(tree.order, visited)
      ensures forall p :: p in visited <==> MaximalFree(tree.order, live, p)
      ensures result + arena.Bytes(SetUnits(tree.order, live - Elements(VirtualSlots(arena)))) == arena.Memory()
    {
      Conservation(tree.order, live, tree.statuses);
      FreeBytes(arena, live, tree.statuses);
      result, visited := CountFree(arena, tree);
    }
  }

  /** The status array is the one of these live blocks, and the virtual slots are among them. */
  ghost predicate Matches(ar: Arena, live: set<Pos>, st: seq<nat>)
    requires ar.blocks >= 1
  {
    && LiveSet(ar.Order(), live) && Canonical(ar.Order(), live, st)
    && Elements(VirtualSlots(ar)) <= live
  }

  /** The loop of `buddy_toggle_virtual_slots`. */
  method ToggleFrom(ar: Arena, tree: Tree, start: Pos, bytes: nat, ghost units: nat, mark: bool)
    requires ar.blocks >= 1 && tree.Valid() && tree.order == ar.Order()
    requires Wf(tree.order, start) && 1 <= units <= Size(tree.order, start) && bytes == ar.Bytes(units)
    modifies tree, tree.bits
    ensures tree.Valid() && AllWf(tree.order, Slots(tree.order, start, units))
    ensures tree.statuses == Toggled(tree.order, old(tree.statuses), Slots(tree.order, start, units), mark)
  {
    var pos, delta := start, bytes;
    ghost var left: nat := units;
    SlotsTile(tree.order, start, units);
    ghost var goal := Toggled(tree.order, tree.statuses, Slots(tree.order, start, units), mark);
    while delta > 0
      invariant tree.Valid() && delta > 0
      invariant ToGo(ar, tree.statuses, pos, left, delta, mark, goal)
      decreases tree.order - pos.depth
    {
      var size := SizeForDepth(ar, pos.depth);
      ToggleStep(ar, tree.statuses, pos, left, delta, size, mark, goal);
      if delta == size {
        ToggleOne(tree, pos, mark);
        break;
      }
      if delta <= size / 2 {
        pos := Right(pos);
      } else {
        ToggleOne(tree, Right(pos), mark);
        left := left - Size(tree.order, Right(pos));
        delta := delta - size / 2;
        pos := Left(pos);
      }
    }
  }

  /** Toggling the slots still to go, the last `left` units of the block of `pos`, gives the goal. */
  ghost predicate ToGo(ar: Arena, st: seq<nat>, pos: Pos, left: nat, delta: nat, mark: bool, goal: seq<nat>)
    requires ar.blocks >= 1 && Shape(ar.Order(), st)
  {
    && Wf(ar.Order(), pos) && 1 <= left <= Size(ar.Order(), pos) && delta == ar.Bytes(left)
    && AllWf(ar.Order(), Slots(ar.Order(), pos, left))
    && Toggled(ar.Order(), st, Slots(ar.Order(), pos, left), mark) == goal
  }

  /** One turn of the toggle loop. */
  lemma ToggleStep(ar: Arena, st: seq<nat>, pos: Pos, left: nat, delta: nat, size: nat, mark: bool, goal: seq<nat>)
    requires ar.blocks >= 1 && Shape(ar.Order(), st) && ToGo(ar, st, pos, left, delta, mark, goal)
    requires size == SizeForDepth(ar, pos.depth)
    ensures delta == size ==> AllWf(ar.Order(), [pos]) && Toggled(ar.Order(), st, [pos], mark) == goal
    ensures delta != size ==> pos.depth < ar.Order() && Wf(ar.Order(), Right(pos)) && AllWf(ar.Order(), [Right(pos)])
    ensures delta != size && delta <= size / 2 ==> ToGo(ar, st, Right(pos), left, delta, mark, goal)
    ensures delta != size && delta > size / 2 ==>
              && left > Size(ar.Order(), Right(pos))
              && ToGo(ar, Toggled(ar.Order(), st, [Right(pos)], mark), Left(pos),
                      left - Size(ar.Order(), Right(pos)), delta - size / 2, mark, goal)
  {
    ToggleCompare(ar, pos, left, delta, size);
    if delta != size {
      ChildrenWf(ar.Order(), pos);
      if delta <= size / 2 {
        ToggleRight(ar.Order(), pos, left);
      } else {
        ToggleLeft(ar.Order(), st, pos, left, mark);
      }
    }
  }

  method ToggleOne(tree: Tree, p: Pos, mark: bool)
    requires tree.Valid() && Wf(tree.order, p)
    modifies tree, tree.bits
    ensures tree.Valid() && tree.statuses == Toggled(tree.order, old(tree.statuses), [p], mark)
  {
    ToggledOne(tree.order, tree.statuses, p, mark);
    if mark {
      tree.MarkPosition(p);
    } else {
      tree.ReleasePosition(p);
    }
  }

  /** The loop of `buddy_arena_free_size`. */
  method CountFree(ar: Arena, tree: Tree) returns (result: nat, ghost visited: seq<Pos>)
    requires tree.Valid() && ar.blocks >= 1 && tree.order == ar.Order()
    ensures Wf(tree.order, ROOT) && visited == FreeList(tree.order, tree.statuses, ROOT)
    ensures Ascending(tree.order, visited) && result == ar.Bytes(Units(tree.order, visited))
  {
    RootWf(tree.order);
    var state := new WalkState();
    result, visited := 0, [];
    var more := true;
    while more
      invariant !more ==> visited == FreeList(tree.order, tree.statuses, ROOT)
      invariant more ==> Wf(tree.order, state.current) && !state.done && !state.goingUp
      invariant more ==> Remaining(tree.order, tree.statuses, visited, state.current)
      invariant more ==> Start(tree.order, state.current) < Pow2(tree.order - 1)
      invariant Ascending(tree.order, visited) && result == ar.Bytes(Units(tree.order, visited))
      decreases more, if more then Pow2(tree.order - 1) - Start(tree.order, state.current) else 0,
                tree.order - state.current.depth
    {
      more, result, visited := Visit(ar, tree, state, result, visited);
    }
  }

  /** One turn of the loop of `buddy_arena_free_size`. */
  method Visit(ar: Arena, tree: Tree, state: WalkState, result: nat, ghost visited: seq<Pos>)
    returns (more: bool, result': nat, ghost visited': seq<Pos>)
    requires tree.Valid() && ar.blocks >= 1 && tree.order == ar.Order()
    requires Wf(tree.order, state.current) && !state.done && !state.goingUp && Wf(tree.order, ROOT)
    requires Remaining(tree.order, tree.statuses, visited, state.current)
    requires Ascending(tree.order, visited) && result == ar.Bytes(Units(tree.order, visited))
    modifies state
    ensures more ==> Wf(tree.order, state.current) && !state.done && !state.goingUp
    ensures Advanced(tree.order, tree.statuses, visited', old(state.current), state.current, more)
    ensures Ascending(tree.order, visited') && result' == ar.Bytes(Units(tree.order, visited'))
  {
    var status := tree.Status(state.current);
    VisitStep(ar, tree.statuses, visited, state.current, status);
    visited' := AfterVisit(visited, state.current, status);
    result' := result;
    if status == tree.order - state.current.depth + 1 {
      state.goingUp := true;
    } else if status == 0 {
      state.goingUp := true;
      result' := result + SizeForDepth(ar, state.current.depth);
    }
    more := state.Walk(tree.order);
  }

  ghost function AfterVisit(visited: seq<Pos>, p: Pos, status: nat): seq<Pos> {
    if status == 0 then visited + [p] else visited
  }

  ghost function VisitTarget(o: nat, p: Pos, status: nat): Pos
    requires Wf(o, p)
  {
    if status != 0 && status != Width(o, p) && p.depth < o then Left(p) else Turn(o, p)
  }

  lemma VisitStep(ar: Arena, st: seq<nat>, visited: seq<Pos>, p: Pos, status: nat)
    requires ar.blocks >= 1 && Shape(ar.Order(), st) && Wf(ar.Order(), p) && Wf(ar.Order(), ROOT)
    requires Remaining(ar.Order(), st, visited, p) && Ascending(ar.Order(), visited)
    requires p.index < |st| && status == st[p.index]
    ensures var o, t, visited' := ar.Order(), VisitTarget(ar.Order(), p, status), AfterVisit(visited, p, status);
            && Advanced(o, st, visited', p, t, t != INVALID_POS)
            && Ascending(o, visited')
            && ar.Bytes(Units(o, visited'))
               == ar.Bytes(Units(o, visited)) + (if status == 0 then SizeForDepth(ar, p.depth) else 0)
  {
    var o := ar.Order();
    if status == 0 {
      VisitFree(o, st, visited, p);
      CountOne(ar, visited, p);
      StepOver(o, st, visited + [p], p);
    } else if status != Width(o, p) && p.depth < o {
      StepOnto(o, st, visited, p);
    } else {
      SkipFull(o, st, visited, p);
    }
  }

  lemma SkipFull(o: nat, st: seq<nat>, visited: seq<Pos>, p: Pos)
    requires Shape(o, st) && Wf(o, p) && Wf(o, ROOT) && Remaining(o, st, visited, p)
    requires p.index < |st| && st[p.index] != 0 && (st[p.index] == Width(o, p) || p.depth == o)
    ensures Advanced(o, st, visited, p, Turn(o, p), Turn(o, p) != INVALID_POS)
  {
    assert FreeList(o, st, p) == [];
    assert [] + RestList(o, st, p) == RestList(o, st, p);
    StepOver(o, st, visited, p);
  }

  function AtLeastOne(size: nat): nat {
    if size == 0 then 1 else size
  }

  /** A free block that holds the request with less than a factor two to spare. */
  ghost predicate Fitting(ar: Arena, live: set<Pos>, size: nat, p: Pos)
    requires ar.blocks >= 1 && LiveSet(ar.Order(), live)
  {
    Wf(ar.Order(), p) && FitsDepth(ar, AtLeastOne(size), p.depth) && Free(ar.Order(), live, p)
  }

  /** A request of any size, also of none, gets a block of the smallest size that holds it. */
  lemma FittingIsSmallest(ar: Arena, live: set<Pos>, size: nat, p: Pos)
    requires ar.blocks >= 1 && LiveSet(ar.Order(), live) && Wf(ar.Order(), p)
    ensures Fitting(ar, live, size, p)
       <==> && Free(ar.Order(), live, p) && size <= SizeForDepth(ar, p.depth)
            && (p.depth < ar.Order() ==> SizeForDepth(ar, p.depth + 1) < size)
  {
    hide SizeForDepth, Free, LiveSet, FitsDepth, Arena.Order, Arena.Align;
    FitsDepthIsSmallest(ar, AtLeastOne(size), p.depth);
    SomeSize(ar, p.depth);
    if p.depth < ar.Order() {
      SomeSize(ar, p.depth + 1);
    }
  }

  lemma SomeSize(ar: Arena, depth: nat)
    requires ar.blocks >= 1 && 1 <= depth <= ar.Order()
    ensures SizeForDepth(ar, depth) >= 1
  {
    hide SizeForDepth, Arena.Order, Arena.Align;
    SmallestBlock(ar);
    AlignPositive(ar);
    if depth < ar.Order() {
      DeeperIsHalf(ar, depth, ar.Order());
    }
  }

  /** The fitting block in the preferred half of every position above it. There is at most one. */
  ghost predicate BestFit(ar: Arena, live: set<Pos>, size: nat, p: Pos)
    requires ar.blocks >= 1 && LiveSet(ar.Order(), live)
  {
    Fitting(ar, live, size, p) && BuddyChoice.Chosen(ar.Order(), live, p.depth, p)
  }

  /** No fitting block leaves a larger free block behind than the best one, and no other is best. */
  lemma BestFitIsBest(ar: Arena, live: set<Pos>, st: seq<nat>, size: nat, p: Pos, q: Pos)
    requires ar.blocks >= 1 && Shape(ar.Order(), st) && LiveSet(ar.Order(), live) && Canonical(ar.Order(), live, st)
    requires BestFit(ar, live, size, p) && Fitting(ar, live, size, q)
    ensures Wf(ar.Order(), ROOT) && Stat(ar.Order(), live + {p}, ROOT) <= Stat(ar.Order(), live + {q}, ROOT)
    ensures BestFit(ar, live, size, q) ==> q == p
  {
    var o := ar.Order();
    hide BuddyChoice.Chosen, Canonical, LiveSet;
    FitsDepthUnique(ar, AtLeastOne(size), p.depth, q.depth);
    RootWf(o);
    BuddyChoice.FindFreeChooses(o, live, st, p.depth, p);
    BuddyChoice.FindFreeChooses(o, live, st, p.depth, q);
    BuddyChoice.FindFreeIsBest(o, live, st, p.depth, q);
  }

  /** The block starts at the offset, inside the memory, and is one a request of `size` bytes gets. */
  ghost predicate FoundBy(ar: Arena, p: Pos, offset: nat, size: nat)
    requires ar.blocks >= 1 && Wf(ar.Order(), p)
  {
    Address(ar, p) == offset && offset < ar.Memory() && FitsDepth(ar, size, p.depth)
  }

  lemma LiveIsSome(ar: Arena, live: set<Pos>, p: Pos)
    requires ar.blocks >= 1 && LiveSet(ar.Order(), live) && p in live
    ensures Wf(ar.Order(), p) && p != INVALID_POS
  {
  }

  /** The live blocks after a release of the given offset. */
  ghost function AfterFree(ar: Arena, live: set<Pos>, offset: nat): set<Pos>
    requires ar.blocks >= 1 && LiveSet(ar.Order(), live)
  {
    if offset >= ar.Memory() then live else set p | p in live && Address(ar, p) != offset
  }

  ghost function Toggled(o: nat, st: seq<nat>, ps: seq<Pos>, mark: bool): (r: seq<nat>)
    requires Shape(o, st) && AllWf(o, ps)
    ensures Shape(o, r)
  {
    if mark then MarkAll(o, st, ps) else ReleaseAll(o, st, ps)
  }

  lemma ToggledOne(o: nat, st: seq<nat>, p: Pos, mark: bool)
    requires Shape(o, st) && Wf(o, p)
    ensures AllWf(o, [p])
    ensures Toggled(o, st, [p], mark) == if mark then Mark(o, st, p) else Release(o, st, p)
  {
    var one := [p];
    assert one[0] == p && one[1..] == [];
    assert MarkAll(o, Mark(o, st, p), []) == Mark(o, st, p);
    assert ReleaseAll(o, Release(o, st, p), []) == Release(o, st, p);
  }

  lemma ToggledFirst(o: nat, st: seq<nat>, p: Pos, rest: seq<Pos>, mark: bool)
    requires Shape(o, st) && Wf(o, p) && AllWf(o, rest)
    ensures AllWf(o, [p]) && AllWf(o, [p] + rest)
    ensures Toggled(o, st, [p] + rest, mark) == Toggled(o, Toggled(o, st, [p], mark), rest, mark)
  {
    var all := [p] + rest;
    assert AllWf(o, [p]) && Toggled(o, st, [p], mark) == (if mark then Mark(o, st, p) else Release(o, st, p)) by {
      ToggledOne(o, st, p, mark);
    }
    assert all[0] == p && all[1..] == rest;
    assert AllWf(o, all) by {
      assert forall i :: 1 <= i < |all| ==> all[i] == rest[i - 1];
    }
  }

  /** The comparisons of the toggle loop are made in bytes; these are the units they mean. */
  lemma ToggleCompare(ar: Arena, p: Pos, units: nat, delta: nat, size: nat)
    requires ar.blocks >= 1 && Wf(ar.Order(), p) && 1 <= units <= Size(ar.Order(), p)
    requires delta == ar.Bytes(units) && size == SizeForDepth(ar, p.depth)
    ensures delta == size <==> units == Size(ar.Order(), p)
    ensures delta != size ==> p.depth < ar.Order() && Size(ar.Order(), p) == 2 * Size(ar.Order(), Right(p))
    ensures delta != size ==> (delta <= size / 2 <==> units <= Size(ar.Order(), Right(p)))
    ensures delta > size / 2 && delta != size ==> delta - size / 2 == ar.Bytes(units - Size(ar.Order(), Right(p)))
  {
    var o := ar.Order();
    AlignPositive(ar);
    BytesCompare(ar, units, Size(o, p));
    if units != Size(o, p) {
      LargerThanLeaf(o, p);
      HalfSize(ar, p.depth);
      BytesCompare(ar, units, Size(o, Right(p)));
      if units > Size(o, Right(p)) {
        BytesSum(ar, units - Size(o, Right(p)), Size(o, Right(p)));
      }
    }
  }

  /** One turn of the toggle loop to the right child. */
  lemma ToggleRight(o: nat, p: Pos, units: nat)
    requires Wf(o, p) && p.depth < o && 1 <= units <= Size(o, Right(p)) && Size(o, p) == 2 * Size(o, Right(p))
    ensures Wf(o, Right(p)) && Slots(o, p, units) == Slots(o, Right(p), units)
  {
    ChildrenWf(o, p);
  }

  /** One turn of the toggle loop that toggles the right child and goes on in the left one. */
  lemma ToggleLeft(o: nat, st: seq<nat>, p: Pos, units: nat, mark: bool)
    requires Shape(o, st) && Wf(o, p) && p.depth < o && Size(o, p) == 2 * Size(o, Right(p))
    requires Size(o, Right(p)) < units < Size(o, p)
    ensures Wf(o, Left(p)) && Wf(o, Right(p)) && Size(o, Left(p)) == Size(o, Right(p))
    ensures AllWf(o, Slots(o, p, units)) && AllWf(o, [Right(p)])
    ensures AllWf(o, Slots(o, Left(p), units - Size(o, Right(p))))
    ensures Toggled(o, st, Slots(o, p, units), mark)
         == Toggled(o, Toggled(o, st, [Right(p)], mark), Slots(o, Left(p), units - Size(o, Right(p))), mark)
  {
    ChildrenWf(o, p);
    var rest := units - Size(o, Right(p));
    SlotsTile(o, p, units);
    SlotsTile(o, Left(p), rest);
    ToggledFirst(o, st, Right(p), Slots(o, Left(p), rest), mark);
    assert Slots(o, p, units) == [Right(p)] + Slots(o, Left(p), rest);
  }

  lemma ExcessBytes(ar: Arena)
    requires ar.blocks >= 1
    ensures ar.Effective() >= ar.Memory()
    ensures ar.Effective() - ar.Memory() == ar.Bytes(Excess(ar))
    ensures ar.Effective() == ar.Memory() <==> Excess(ar) == 0
  {
    AlignPositive(ar);
    BytesCompare(ar, Pow2(ar.Order() - 1), ar.blocks);
    BytesSum(ar, Excess(ar), ar.blocks);
  }

  // Bytes and units ------------------------------------------------------------------------------

  lemma RequestFits(ar: Arena, requested: nat)
    requires ar.blocks >= 1 && 1 <= requested <= ar.Memory()
    ensures Raised(ar, requested) <= ar.Effective()
  {
    BytesCompare(ar, ar.blocks, Pow2(ar.Order() - 1));
    BytesCompare(ar, 1, ar.blocks);
    SmallestBlock(ar);
  }

  /** With the virtual slots live, a fitting block lies inside the memory. */
  lemma FittingIsInside(ar: Arena, live: set<Pos>, size: nat, p: Pos)
    requires ar.blocks >= 1 && LiveSet(ar.Order(), live) && Elements(VirtualSlots(ar)) <= live
    requires Fitting(ar, live, size, p)
    ensures Address(ar, p) + AtLeastOne(size) <= ar.Memory()
  {
    FreeIsInsideArena(ar, live, p);
    var o := ar.Order();
    BytesCompare(ar, Start(o, p) + Size(o, p), ar.blocks);
    BytesSum(ar, Start(o, p), Size(o, p));
  }

  lemma TooLarge(ar: Arena, live: set<Pos>, size: nat)
    requires ar.blocks >= 1 && LiveSet(ar.Order(), live) && Elements(VirtualSlots(ar)) <= live
    requires AtLeastOne(size) > ar.Memory()
    ensures forall p :: !Fitting(ar, live, size, p)
  {
    forall p ensures !Fitting(ar, live, size, p) {
      if Fitting(ar, live, size, p) {
        FittingIsInside(ar, live, size, p);
      }
    }
  }

  /** The search finds a fitting block inside the memory, or there is none. */
  lemma MallocExact(ar: Arena, live: set<Pos>, st: seq<nat>, size: nat, depth: nat)
    requires ar.blocks >= 1 && Shape(ar.Order(), st)
    requires LiveSet(ar.Order(), live) && Canonical(ar.Order(), live, st)
    requires Elements(VirtualSlots(ar)) <= live && FitsDepth(ar, AtLeastOne(size), depth)
    ensures var r := FindFree(ar.Order(), st, depth);
            && (r == INVALID_POS <==> forall p :: !Fitting(ar, live, size, p))
            && (r != INVALID_POS ==>
                  BestFit(ar, live, size, r) && Address(ar, r) + AtLeastOne(size) <= ar.Memory())
  {
    var r := FindFree(ar.Order(), st, depth);
    FindFreeExact(ar.Order(), live, st, depth);
    forall p | Fitting(ar, live, size, p) ensures r != INVALID_POS {
      FitsDepthUnique(ar, AtLeastOne(size), p.depth, depth);
    }
    if r != INVALID_POS {
      assert Fitting(ar, live, size, r);
      FittingIsInside(ar, live, size, r);
      BuddyChoice.FindFreeChooses(ar.Order(), live, st, depth, r);
    }
  }

  lemma ClimbUp(o: nat, st: seq<nat>, p: Pos)
    requires Shape(o, st) && Wf(o, p) && p.index < |st| && st[p.index] == 0
    ensures if p.depth == 1 then Climb(o, st, p) == INVALID_POS
            else Wf(o, Parent(p)) && Climb(o, st, p) == Climb(o, st, Parent(p))
  {
    IndexOneIsRoot(o, p);
    if p != ROOT {
      ParentWf(o, p);
    }
  }

  lemma ClimbStop(o: nat, st: seq<nat>, p: Pos)
    requires Shape(o, st) && Wf(o, p) && p.index < |st| && st[p.index] != 0
    ensures Climb(o, st, p) == p && p != INVALID_POS
  {
  }

  /** Releasing an address takes the block there out of the live set and keeps the tree canonical. */
  lemma FreeAtExact(ar: Arena, live: set<Pos>, st: seq<nat>, offset: nat)
    requires ar.blocks >= 1 && Shape(ar.Order(), st)
    requires Matches(ar, live, st)
    ensures Matches(ar, AfterFree(ar, live, offset), FreeAddress(ar, st, offset))
    ensures AfterFree(ar, live, offset) == live ==> FreeAddress(ar, st, offset) == st
  {
    FreeAddressExact(ar, live, st, offset);
    AfterFreeExact(ar, live, offset);
    if offset < ar.Memory() && StartsLive(ar, live, offset) {
      var p :| p in live && Address(ar, p) == offset;
      assert AfterFree(ar, live, offset) == live - {p};
    }
  }

  lemma FreeAddressCases(ar: Arena, st: seq<nat>, offset: nat)
    requires ar.blocks >= 1 && Shape(ar.Order(), st)
    ensures offset >= ar.Memory() ==> FreeAddress(ar, st, offset) == st
    ensures offset < ar.Memory() ==>
              var p := PositionForAddress(ar, st, offset);
              if p == INVALID_POS then FreeAddress(ar, st, offset) == st
              else Wf(ar.Order(), p) && FreeAddress(ar, st, offset) == Release(ar.Order(), st, p)
  {
  }

  /** A release removes the one live block that starts at the offset, never a virtual slot. */
  lemma AfterFreeExact(ar: Arena, live: set<Pos>, offset: nat)
    requires ar.blocks >= 1 && LiveSet(ar.Order(), live) && Elements(VirtualSlots(ar)) <= live
    ensures LiveSet(ar.Order(), AfterFree(ar, live, offset))
    ensures Elements(VirtualSlots(ar)) <= AfterFree(ar, live, offset)
    ensures offset >= ar.Memory() || !StartsLive(ar, live, offset) ==> AfterFree(ar, live, offset) == live
    ensures forall p :: p in live && Address(ar, p) == offset && offset < ar.Memory()
              ==> AfterFree(ar, live, offset) == live - {p}
  {
    var o := ar.Order();
    VirtualSlotsTile(ar);
    forall p | p in Elements(VirtualSlots(ar)) ensures Address(ar, p) >= ar.Memory() {
      BytesCompare(ar, ar.blocks, Start(o, p));
    }
    forall p, q | p in live && q in live && Address(ar, p) == Address(ar, q) ensures p == q {
      SameAddress(ar, live, p, q);
    }
  }

  lemma SameAddress(ar: Arena, live: set<Pos>, p: Pos, q: Pos)
    requires ar.blocks >= 1 && LiveSet(ar.Order(), live) && p in live && q in live
    requires Address(ar, p) == Address(ar, q)
    ensures p == q
  {
    AlignPositive(ar);
    BytesCompare(ar, Start(ar.Order(), p), Start(ar.Order(), q));
    assert p == q || Disjoint(ar.Order(), p, q);
  }

  // Counting the free size ---------------------------------------------------------------------------

  /** The free blocks not yet visited are those below the current position and after it. */
  ghost predicate Remaining(o: nat, st: seq<nat>, visited: seq<Pos>, p: Pos)
    requires Shape(o, st) && Wf(o, p) && Wf(o, ROOT)
  {
    visited + (FreeList(o, st, p) + RestList(o, st, p)) == FreeList(o, st, ROOT)
  }

  /** A full block, or a free one once visited, leads to the next subtree. */
  lemma StepOver(o: nat, st: seq<nat>, visited: seq<Pos>, p: Pos)
    requires Shape(o, st) && Wf(o, p) && Wf(o, ROOT)
    requires visited + RestList(o, st, p) == FreeList(o, st, ROOT)
    ensures Advanced(o, st, visited, p, Turn(o, p), Turn(o, p) != INVALID_POS)
  {
    InsideTree(o, p);
    TurnRest(o, st, p);
    TurnIsNextBlock(o, p);
    if Turn(o, p) != INVALID_POS {
      InsideTree(o, Turn(o, p));
    }
  }

  lemma VisitFree(o: nat, st: seq<nat>, visited: seq<Pos>, p: Pos)
    requires Shape(o, st) && Wf(o, p) && Wf(o, ROOT) && Remaining(o, st, visited, p)
    requires p.index < |st| && st[p.index] == 0
    ensures visited + [p] + RestList(o, st, p) == FreeList(o, st, ROOT)
    ensures Ascending(o, visited + [p])
  {
    SeqAssociate(visited, FreeList(o, st, p), RestList(o, st, p));
    FreeListAscending(o, st, ROOT);
    PrefixAscends(o, FreeList(o, st, ROOT), visited + [p], RestList(o, st, p));
  }

  lemma SeqAssociate(a: seq<Pos>, b: seq<Pos>, c: seq<Pos>)
    ensures a + (b + c) == a + b + c
  {
  }

  lemma PrefixAscends(o: nat, all: seq<Pos>, a: seq<Pos>, b: seq<Pos>)
    requires Ascending(o, all) && a + b == all
    ensures Ascending(o, a)
  {
    assert forall i :: 0 <= i < |a| ==> a[i] == all[i];
  }

  lemma CountOne(ar: Arena, visited: seq<Pos>, p: Pos)
    requires ar.blocks >= 1 && Wf(ar.Order(), p)
    requires Ascending(ar.Order(), visited) && Ascending(ar.Order(), visited + [p])
    ensures ar.Bytes(Units(ar.Order(), visited + [p]))
         == ar.Bytes(Units(ar.Order(), visited)) + SizeForDepth(ar, p.depth)
  {
    UnitsJoin(ar.Order(), visited, [p]);
    OneUnit(ar.Order(), p);
    BytesAdd(ar, Units(ar.Order(), visited + [p]), Units(ar.Order(), visited), Size(ar.Order(), p));
  }

  lemma BytesAdd(ar: Arena, x: nat, y: nat, z: nat)
    requires x == y + z
    ensures ar.Bytes(x) == ar.Bytes(y) + ar.Bytes(z)
  {
    BytesSum(ar, y, z);
  }

  lemma OneUnit(o: nat, p: Pos)
    requires p.depth <= o
    ensures Units(o, [p]) == Size(o, p)
  {
    assert [p][1..] == [];
  }

  /** What is known after one turn of the free-size loop. */
  ghost predicate Advanced(o: nat, st: seq<nat>, visited: seq<Pos>, from: Pos, to: Pos, more: bool)
    requires Shape(o, st) && Wf(o, from) && Wf(o, ROOT)
  {
    if more then
      && Wf(o, to) && Remaining(o, st, visited, to) && Start(o, from) < Pow2(o - 1) && Start(o, to) < Pow2(o - 1)
      && (Start(o, from) < Start(o, to) || (Start(o, from) == Start(o, to) && from.depth < to.depth <= o))
    else visited == FreeList(o, st, ROOT)
  }

  lemma StepOnto(o: nat, st: seq<nat>, visited: seq<Pos>, p: Pos)
    requires Shape(o, st) && Wf(o, p) && Wf(o, ROOT) && Remaining(o, st, visited, p)
    requires p.index < |st| && st[p.index] != 0 && st[p.index] != Width(o, p) && p.depth < o
    ensures Advanced(o, st, visited, p, Left(p), true)
  {
    LeftRest(o, st, p);
    ChildrenSplit(o, p);
    InsideTree(o, p);
  }

  lemma {:induction false} SlotsUnits(o: nat, p: Pos, delta: nat)
    requires Wf(o, p) && 1 <= delta <= Size(o, p)
    ensures AllWf(o, Slots(o, p, delta)) && Units(o, Slots(o, p, delta)) == delta
    decreases o - p.depth
  {
    SlotsTile(o, p, delta);
    if delta == Size(o, p) {
      assert [p][1..] == [];
    } else {
      LargerThanLeaf(o, p);
      ChildrenSplit(o, p);
      if delta <= Size(o, p) / 2 {
        SlotsUnits(o, Right(p), delta);
      } else {
        var rest := Slots(o, Left(p), delta - Size(o, p) / 2);
        SlotsUnits(o, Left(p), delta - Size(o, p) / 2);
        assert ([Right(p)] + rest)[1..] == rest;
      }
    }
  }

  lemma {:induction false} DistinctUnits(o: nat, ps: seq<Pos>)
    requires AllWf(o, ps) && PairwiseDisjoint(o, ps)
    ensures SetUnits(o, Elements(ps)) == Units(o, ps)
    decreases |ps|
  {
    if ps != [] {
      var p, rest := ps[0], ps[1..];
      forall i | 0 <= i < |rest| ensures rest[i] != p {
        assert Disjoint(o, ps[0], ps[i + 1]);
      }
      assert PairwiseDisjoint(o, rest) by {
        forall i, j | 0 <= i < j < |rest| ensures Disjoint(o, rest[i], rest[j]) {
          assert Disjoint(o, ps[i + 1], ps[j + 1]);
        }
      }
      DistinctUnits(o, rest);
      SetUnitsRemove(o, Elements(ps), p);
      assert Elements(ps) - {p} == Elements(rest);
    }
  }

  lemma VirtualUnits(ar: Arena)
    requires ar.blocks >= 1
    ensures AllWf(ar.Order(), VirtualSlots(ar)) && Units(ar.Order(), VirtualSlots(ar)) == Excess(ar)
  {
    if Excess(ar) > 0 {
      ExcessInRightHalf(ar);
      SlotsUnits(ar.Order(), Right(ROOT), Excess(ar));
    }
  }

  /** Free blocks and the blocks handed out together have the size of the memory. */
  lemma FreeUnits(ar: Arena, live: set<Pos>, st: seq<nat>)
    requires ar.blocks >= 1 && Shape(ar.Order(), st)
    requires LiveSet(ar.Order(), live) && Canonical(ar.Order(), live, st)
    requires Elements(VirtualSlots(ar)) <= live
    ensures Wf(ar.Order(), ROOT) && Ascending(ar.Order(), FreeList(ar.Order(), st, ROOT))
    ensures Units(ar.Order(), FreeList(ar.Order(), st, ROOT))
          + SetUnits(ar.Order(), live - Elements(VirtualSlots(ar))) == ar.blocks
  {
    var o, ps := ar.Order(), VirtualSlots(ar);
    var virtual := Elements(ps);
    Conservation(o, live, st);
    VirtualSlotsTile(ar);
    DistinctUnits(o, ps);
    VirtualUnits(ar);
    SetUnitsJoin(o, live - virtual, virtual);
    assert live - virtual + virtual == live;
  }

  lemma FreeBytes(ar: Arena, live: set<Pos>, st: seq<nat>)
    requires ar.blocks >= 1 && Shape(ar.Order(), st)
    requires LiveSet(ar.Order(), live) && Canonical(ar.Order(), live, st)
    requires Elements(VirtualSlots(ar)) <= live
    ensures Wf(ar.Order(), ROOT) && Ascending(ar.Order(), FreeList(ar.Order(), st, ROOT))
    ensures ar.Bytes(Units(ar.Order(), FreeList(ar.Order(), st, ROOT)))
          + ar.Bytes(SetUnits(ar.Order(), live - Elements(VirtualSlots(ar)))) == ar.Memory()
  {
    FreeUnits(ar, live, st);
    hide *;
    MemoryParts(ar, Units(ar.Order(), FreeList(ar.Order(), st, ROOT)),
                SetUnits(ar.Order(), live - Elements(VirtualSlots(ar))));
  }

  lemma MemoryParts(ar: Arena, x: nat, y: nat)
    requires x + y == ar.blocks
    ensures ar.Bytes(x) + ar.Bytes(y) == ar.Memory()
  {
    BytesSum(ar, x, y);
  }
}
