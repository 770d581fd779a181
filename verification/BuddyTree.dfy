/** The buddy tree over its packed bitset, as `buddy_alloc.h` runs it. */
module BuddyTree {
  import opened BuddyPositions
  import opened BuddyStatus
  import opened BuddySearch
  import opened BuddyFields
  import opened Bitset

  class Tree {
    const order: nat
    const bits: array<bv8>
    const sizes: array<nat>        // the memo of size_for_order
    ghost var statuses: seq<nat>   // by heap index; entry 0 is unused

    ghost predicate Valid()
      reads this, bits, sizes
    {
      && 1 <= order <= 31
      && bits as object != sizes
      && bits.Length == BitsetSizeof(SizeForOrder(order, 0))
      && sizes.Length == order + 1
      && (forall i :: 0 <= i <= order ==> sizes[i] == SizeForOrder(order, i))
      && |statuses| == Pow2(order)
      && Encodes(order, View(bits[..]), statuses)
    }

    /** `buddy_tree_init`: every block is free. */
    constructor (o: nat)
      requires 1 <= o <= 31
      ensures Valid() && order == o && fresh(bits) && fresh(sizes)
      ensures Canonical(o, {}, statuses) && statuses[0] == 0
    {
      order := o;
      var n := SizeForOrderLoop(o, 0);
      bits := new bv8[BitsetSizeof(n)](_ => 0);
      var memo := PopulateSizes(o);
      sizes := memo;
      statuses := Zeros(o);
      new;
      EmptyEncodes(order, bits[..]);
      EmptyIsCanonical(order);
    }

    /** `buddy_tree_internal_position_tree`. */
    method InternalPosition(p: Pos) returns (width: nat, loc: nat)
      requires Valid() && Wf(order, p)
      ensures width == Width(order, p) && loc == Loc(order, p)
    {
      width := order - p.depth + 1;
      loc := sizes[width] + width * (p.index - Pow2(p.depth - 1));
    }

    /** `write_to_internal_position`. */
    method WriteField(p: Pos, width: nat, loc: nat, value: nat)
      requires Valid() && Wf(order, p) && width == Width(order, p) && loc == Loc(order, p)
      requires value <= width
      modifies this, bits
      ensures Valid()
      ensures p.index < old(|statuses|) && statuses == old(statuses)[p.index := value]
    {
      FieldInBits(order, p);
      ghost var before := View(bits[..]);
      WriteUnary(bits, loc, width, value);
      WriteReachesOne(order, before, View(bits[..]), statuses, p, value);
      statuses := statuses[p.index := value];
    }

    /** `read_from_internal_position` over the first `span` bits of the field of `p`. */
    method ReadField(p: Pos, loc: nat, span: nat) returns (value: nat)
      requires Valid() && Wf(order, p) && loc == Loc(order, p) && span <= Width(order, p)
      requires p.index < |statuses| && statuses[p.index] <= span
      ensures value == statuses[p.index]
    {
      FieldInBits(order, p);
      assert Holds(View(bits[..]), loc, Width(order, p), statuses[p.index]);
      var first := Test(bits, loc);
      if !first {
        return 0;
      }
      OnesOfUnary(View(bits[..]), loc, Width(order, p), statuses[p.index], span);
      value := CountRange(bits, loc, loc + span - 1);
    }

    /** `compare_with_internal_position`: is the status at least `value`? */
    method AtLeast(p: Pos, loc: nat, value: nat) returns (r: bool)
      requires Valid() && Wf(order, p) && loc == Loc(order, p) && 1 <= value <= Width(order, p)
      ensures p.index < |statuses| && r == (statuses[p.index] >= value)
    {
      FieldInBits(order, p);
      IndexBound(order, p);
      assert Holds(View(bits[..]), loc, Width(order, p), statuses[p.index]);
      r := Test(bits, loc + value - 1);
    }

    /** `buddy_tree_status`. */
    method Status(p: Pos) returns (value: nat)
      requires Valid() && Wf(order, p)
      ensures p.index < |statuses| && value == statuses[p.index]
    {
      IndexBound(order, p);
      assert Holds(View(bits[..]), Loc(order, p), Width(order, p), statuses[p.index]);
      var width, loc := InternalPosition(p);
      value := ReadField(p, loc, width);
    }

    /** The reads of one turn of `update_parent_chain`. */
    method ParentTarget(pos: Pos, width: nat, loc: nat, current: nat)
      returns (parent: Pos, target: nat, same: bool)
      requires Valid() && Wf(order, pos) && pos.index != 1
      requires width == Width(order, pos) && loc == Loc(order, pos)
      requires pos.index < |statuses| && current == statuses[pos.index]
      ensures parent == Parent(pos) && Wf(order, parent) && parent.index < |statuses|
      ensures target <= Width(order, parent)
      ensures same == (target == statuses[parent.index])
      ensures UpdateChain(order, statuses, pos)
           == if same then statuses
              else UpdateChain(order, statuses[parent.index := target], parent)
    {
      IndexOneIsRoot(order, pos);
      ParentWf(order, pos);
      parent := Parent(pos);
      IndexBound(order, pos); IndexBound(order, parent); IndexBound(order, Sibling(pos));
      SiblingField(order, pos);
      FieldValue(order, View(bits[..]), statuses, Sibling(pos));
      FieldValue(order, View(bits[..]), statuses, pos);
      var siblingLoc := loc + width - 2 * width * (pos.index % 2);
      var sizeSibling := ReadField(Sibling(pos), siblingLoc, width);
      var sizeParent := Status(parent);
      target := Combine(current, sizeSibling);
      same := target == sizeParent;
    }

    /** `update_parent_chain`. */
    method UpdateParentChain(p: Pos, width: nat, loc: nat, current: nat)
      requires Valid() && Wf(order, p) && width == Width(order, p) && loc == Loc(order, p)
      requires p.index < |statuses| && current == statuses[p.index]
      modifies this, bits
      ensures Valid() && statuses == UpdateChain(order, old(statuses), p)
    {
      var pos, posWidth, posLoc, sizeCurrent := p, width, loc, current;
      while pos.index != 1
        invariant Valid() && Wf(order, pos)
        invariant posWidth == Width(order, pos) && posLoc == Loc(order, pos)
        invariant pos.index < |statuses| && sizeCurrent == statuses[pos.index]
        invariant UpdateChain(order, statuses, pos) == UpdateChain(order, old(statuses), p)
        decreases pos.depth
      {
        var parent, target, same := ParentTarget(pos, posWidth, posLoc, sizeCurrent);
        if same {
          return;
        }
        posWidth, posLoc := InternalPosition(parent);
        WriteField(parent, posWidth, posLoc, target);
        pos, sizeCurrent := parent, target;
      }
    }

    /** `buddy_tree_mark`. */
    method MarkPosition(p: Pos)
      requires Valid() && Wf(order, p)
      modifies this, bits
      ensures Valid() && statuses == Mark(order, old(statuses), p)
    {
      IndexBound(order, p);
      var width, loc := InternalPosition(p);
      WriteField(p, width, loc, width);
      UpdateParentChain(p, width, loc, width);
    }

    /** `buddy_tree_release`. */
    method ReleasePosition(p: Pos)
      requires Valid() && Wf(order, p)
      modifies this, bits
      ensures Valid() && statuses == Release(order, old(statuses), p)
    {
      IndexBound(order, p);
      var width, loc := InternalPosition(p);
      var value := Status(p);
      if value != width {
        return;
      }
      WriteField(p, width, loc, 0);
      UpdateParentChain(p, width, loc, 0);
    }

    /** `buddy_tree_find_free`. */
    method FindFreePosition(targetDepth: nat) returns (r: Pos)
      requires Valid() && 1 <= targetDepth <= order
      ensures r == FindFree(order, statuses, targetDepth)
    {
      RootWf(order); IndexBound(order, ROOT);
      var current := ROOT;
      var targetStatus := targetDepth - 1;
      var rootStatus := Status(current);
      if rootStatus > targetStatus {
        return INVALID_POS;
      }
      while current.depth != targetDepth
        invariant Wf(order, current) && current.depth <= targetDepth
        invariant targetStatus == targetDepth - current.depth
        invariant Descend(order, statuses, current, targetDepth)
               == Descend(order, statuses, ROOT, targetDepth)
        decreases targetDepth - current.depth
      {
        targetStatus := targetStatus - 1;
        current := ChooseChild(current, targetStatus, targetDepth);
      }
      r := current;
    }

    /** One turn of the search loop. */
    method ChooseChild(current: Pos, targetStatus: nat, ghost targetDepth: nat) returns (next: Pos)
      requires Valid() && Wf(order, current) && current.depth < targetDepth <= order
      requires targetStatus == targetDepth - current.depth - 1
      ensures next == Left(current) || next == Right(current)
      ensures Wf(order, next)
      ensures Descend(order, statuses, next, targetDepth) == Descend(order, statuses, current, targetDepth)
    {
      ChildrenWf(order, current);
      var left, right := Left(current), Right(current);
      IndexBound(order, left); IndexBound(order, right);
      SiblingField(order, left);
      var width, leftLoc := InternalPosition(left);
      var rightLoc := leftLoc + width;
      var leftBusy := AtLeast(left, leftLoc, targetStatus + 1);
      if leftBusy {
        return right;
      }
      var rightBusy := AtLeast(right, rightLoc, targetStatus + 1);
      if rightBusy {
        return left;
      }
      var rightStatus := ReadField(right, rightLoc, targetStatus);
      if rightStatus != 0 {
        var leftBusier := AtLeast(left, leftLoc, rightStatus);
        next := if leftBusier then left else right;
      } else {
        next := left;
      }
    }
  }

  /** `buddy_tree_populate_size_for_order`. */
  method PopulateSizes(o: nat) returns (sizes: array<nat>)
    ensures fresh(sizes) && sizes.Length == o + 1
    ensures forall i :: 0 <= i <= o ==> sizes[i] == SizeForOrder(o, i)
  {
    sizes := new nat[o + 1];
    var i := 0;
    while i <= o
      invariant 0 <= i <= o + 1
      invariant forall j :: 0 <= j < i ==> sizes[j] == SizeForOrder(o, j)
    {
      sizes[i] := SizeForOrderLoop(o, i);
      i := i + 1;
    }
  }

  function Zeros(o: nat): (st: seq<nat>)
    ensures |st| == Pow2(o) && forall n :: 0 <= n < |st| ==> st[n] == 0
  {
    seq(Pow2(o), _ => 0)
  }

  lemma FieldValue(o: nat, bits: seq<bool>, st: seq<nat>, p: Pos)
    requires Encodes(o, bits, st) && Wf(o, p)
    ensures p.index < |st| && st[p.index] <= Width(o, p)
  {
    assert Holds(bits, Loc(o, p), Width(o, p), st[p.index]);
  }

  /** The field of the sibling is one width to the right of an even index, to the left of an odd one. */
  lemma SiblingField(o: nat, p: Pos)
    requires Wf(o, p) && p != ROOT
    ensures Wf(o, Sibling(p)) && Width(o, Sibling(p)) == Width(o, p)
    ensures Loc(o, Sibling(p)) == Loc(o, p) + Width(o, p) - 2 * Width(o, p) * (p.index % 2)
  {
    ParentWf(o, p);
    NextField(Width(o, p), p.index - Pow2(p.depth - 1));
    NextField(Width(o, p), Sibling(p).index - Pow2(p.depth - 1));
  }

  lemma NextField(w: nat, i: int)
    ensures w * (i + 1) == w * i + w
  {
  }

  lemma EmptyEncodes(o: nat, bytes: seq<bv8>)
    requires |bytes| == BitsetSizeof(SizeForOrder(o, 0))
    requires forall c :: 0 <= c < |bytes| ==> bytes[c] == 0
    ensures Encodes(o, View(bytes), Zeros(o))
  {
    forall k | 0 <= k < 8 * |bytes| ensures !View(bytes)[k] {
      ViewAt(bytes, k);
      ConstBit(k % 8);
    }
    forall p | Wf(o, p) ensures p.index < Pow2(o) && Holds(View(bytes), Loc(o, p), Width(o, p), 0) {
      IndexBound(o, p);
      FieldInBits(o, p);
    }
  }

  lemma EmptyIsCanonical(o: nat)
    ensures Canonical(o, {}, Zeros(o))
  {
    forall p | Wf(o, p) ensures p.index < Pow2(o) && Stat(o, {}, p) == 0 {
      IndexBound(o, p);
      NothingBelow(o, {}, p);
    }
  }
}
