/** Where the unary status fields of the buddy tree lie in the packed bitset. */
module BuddyFields {
  import opened BuddyPositions
  import opened BuddyStatus
  import opened Bitset

  /** Bits taken by all fields wider than `to` in a tree of order `o`. */
  function SizeForOrder(o: nat, to: nat): (r: nat)
    requires to <= o
    ensures r + o + 2 == Pow2(o - to) * (to + 2)
  {
    SizeForOrderPositive(o, to);
    Pow2(o - to) * (to + 2) - (o + 2)
  }

  lemma {:induction false} SizeForOrderPositive(o: nat, to: nat)
    requires to <= o
    ensures Pow2(o - to) * (to + 2) >= o + 2
    decreases o - to
  {
    if to < o {
      SizeForOrderPositive(o, to + 1);
      HalfBlocks(to + 2, Pow2(o - to - 1));
      var h := Pow2(o - to - 1);
      assert Pow2(o - to) * (to + 2) == h * (to + 3) + h * (to + 1) by {
        SumOfProducts(h, to);
      }
    }
  }

  lemma SumOfProducts(h: nat, to: nat)
    ensures (2 * h) * (to + 2) == h * (to + 3) + h * (to + 1)
    ensures h * (to + 1) >= 0
  {
  }

  /** The row of fields of width `w` holds 2^(o-w) of them. */
  lemma RowEnd(o: nat, w: nat)
    requires 1 <= w <= o
    ensures SizeForOrder(o, w - 1) == SizeForOrder(o, w) + w * Pow2(o - w)
  {
    var h := Pow2(o - w);
    assert Pow2(o - w + 1) == 2 * h;
    RowArithmetic(h, w);
  }

  lemma RowArithmetic(h: nat, w: nat)
    ensures (2 * h) * (w + 1) == h * (w + 2) + w * h
  {
  }

  /** The loop of `size_for_order`: the sum over the levels is the closed form. */
  method SizeForOrderLoop(o: nat, to: nat) returns (result: nat)
    requires to <= o
    ensures result == SizeForOrder(o, to)
  {
    result := 0;
    var order, multi := o, 1;
    while order != to
      invariant to <= order <= o
      invariant multi == Pow2(o - order)
      invariant result == SizeForOrder(o, order)
    {
      RowEnd(o, order);
      result := result + order * multi;
      order := order - 1;
      multi := multi * 2;
    }
  }

  /** The whole tree takes 2^(o+1) - o - 2 bits. */
  lemma TotalBits(o: nat)
    ensures SizeForOrder(o, 0) + o + 2 == Pow2(o + 1)
  {
  }

  /** First bit of the field of `p`. */
  function Loc(o: nat, p: Pos): nat
    requires Wf(o, p)
  {
    SizeForOrder(o, Width(o, p)) + Width(o, p) * (p.index - Pow2(p.depth - 1))
  }

  /** A field ends inside its row. */
  lemma FieldInRow(o: nat, p: Pos)
    requires Wf(o, p)
    ensures SizeForOrder(o, Width(o, p)) <= Loc(o, p)
    ensures Loc(o, p) + Width(o, p) <= SizeForOrder(o, Width(o, p) - 1)
  {
    var w := Width(o, p);
    RowEnd(o, w);
    FieldBound(w, p.index - Pow2(p.depth - 1), Pow2(p.depth - 1));
  }

  lemma FieldBound(w: nat, i: nat, n: nat)
    requires i < n
    ensures w * i + w <= w * n && 0 <= w * i
  {
    RowOrder(i, n, w);
    assert w * i == i * w && w * n == n * w;
  }

  lemma {:induction false} RowsOrdered(o: nat, a: nat, b: nat)
    requires a <= b <= o
    ensures SizeForOrder(o, b) <= SizeForOrder(o, a)
    decreases b - a
  {
    if a < b {
      RowEnd(o, b);
      assert b * Pow2(o - b) >= 0;
      RowsOrdered(o, a, b - 1);
    }
  }

  /** Fields follow each other in index order, so two fields never share a bit. */
  lemma FieldsDisjoint(o: nat, p: Pos, q: Pos)
    requires Wf(o, p) && Wf(o, q) && p.index < q.index
    ensures Loc(o, p) + Width(o, p) <= Loc(o, q)
    ensures Loc(o, q) + Width(o, q) <= SizeForOrder(o, 0)
  {
    FieldInRow(o, p);
    FieldInRow(o, q);
    RowsOrdered(o, 0, Width(o, q) - 1);
    if p.depth == q.depth {
      FieldBound(Width(o, p), p.index - Pow2(p.depth - 1), q.index - Pow2(p.depth - 1));
    } else {
      if q.depth < p.depth {
        Pow2Monotone(q.depth, p.depth - 1);
      }
      RowsOrdered(o, Width(o, q), Width(o, p) - 1);
    }
  }

  lemma FieldInBits(o: nat, p: Pos)
    requires Wf(o, p)
    ensures Loc(o, p) + Width(o, p) <= SizeForOrder(o, 0)
  {
    FieldInRow(o, p);
    RowsOrdered(o, 0, Width(o, p) - 1);
  }

  predicate InField(o: nat, p: Pos, k: nat) {
    Wf(o, p) && Loc(o, p) <= k < Loc(o, p) + Width(o, p)
  }

  /** The fields leave no gap: each bit of the total belongs to exactly one field. */
  lemma FieldsTile(o: nat, k: nat)
    requires k < SizeForOrder(o, 0)
    ensures exists p :: InField(o, p, k)
    ensures forall p, q :: InField(o, p, k) && InField(o, q, k) ==> p == q
  {
    var p := FieldAt(o, k, 0);
    forall p, q | InField(o, p, k) && InField(o, q, k) ensures p == q {
      if p.index < q.index {
        FieldsDisjoint(o, p, q);
      } else if q.index < p.index {
        FieldsDisjoint(o, q, p);
      } else {
        IndexDeterminesDepth(o, p, q);
      }
    }
  }

  lemma {:induction false} FieldAt(o: nat, k: nat, w: nat) returns (p: Pos)
    requires w <= o && k < SizeForOrder(o, w)
    ensures InField(o, p, k)
    decreases o - w
  {
    RowEnd(o, w + 1);
    if k < SizeForOrder(o, w + 1) {
      p := FieldAt(o, k, w + 1);
    } else {
      p := FieldInThisRow(o, w + 1, k - SizeForOrder(o, w + 1));
    }
  }

  lemma FieldInThisRow(o: nat, w: nat, rest: nat) returns (p: Pos)
    requires 1 <= w <= o && rest < w * Pow2(o - w)
    ensures Wf(o, p) && Width(o, p) == w
    ensures Loc(o, p) <= SizeForOrder(o, w) + rest < Loc(o, p) + w
  {
    var k := DivideRow(rest, w, Pow2(o - w));
    p := Pos(Pow2(o - w) + k, o - w + 1);
  }

  lemma DivideRow(rest: nat, width: nat, n: nat) returns (k: nat)
    requires width >= 1 && rest < width * n
    ensures k < n && width * k <= rest < width * k + width
  {
    k := rest / width;
    assert rest == width * k + rest % width;
    assert k >= n ==> width * k >= width * n;
  }

  // Contents ----------------------------------------------------------------------------

  /** The field at `lo` of width `w` holds `v` in unary. */
  ghost predicate Holds(bits: seq<bool>, lo: nat, w: nat, v: nat) {
    && v <= w && lo + w <= |bits|
    && forall k :: lo <= k < lo + w ==> bits[k] == (k < lo + v)
  }

  /** The packed bits encode the status array `st`. */
  ghost predicate Encodes(o: nat, bits: seq<bool>, st: seq<nat>) {
    && |st| == Pow2(o)
    && SizeForOrder(o, 0) <= |bits|
    && forall p :: Wf(o, p) ==>
         p.index < |st| && Holds(bits, Loc(o, p), Width(o, p), st[p.index])
  }

  /** `write_to_internal_position` on the bits: clear the field, then set its first bits. */
  method WriteUnary(bs: array<bv8>, loc: nat, width: nat, value: nat)
    requires 1 <= width && value <= width && loc + width <= 8 * bs.Length
    modifies bs
    ensures Holds(View(bs[..]), loc, width, value)
    ensures forall k :: 0 <= k < 8 * bs.Length && !(loc <= k < loc + width)
              ==> View(bs[..])[k] == old(View(bs[..]))[k]
  {
    ClearRange(bs, loc, loc + width - 1);
    if value > 0 {
      SetRange(bs, loc, loc + value - 1);
    }
  }

  /** A write to the field of `p` reaches no other field. */
  lemma WriteReachesOne(o: nat, before: seq<bool>, after: seq<bool>, st: seq<nat>, p: Pos, v: nat)
    requires Encodes(o, before, st) && Wf(o, p) && |after| == |before|
    requires Holds(after, Loc(o, p), Width(o, p), v)
    requires forall k :: 0 <= k < |before| && !(Loc(o, p) <= k < Loc(o, p) + Width(o, p))
               ==> after[k] == before[k]
    ensures p.index < |st| && Encodes(o, after, st[p.index := v])
  {
    var st' := st[p.index := v];
    forall q | Wf(o, q)
      ensures q.index < |st'| && Holds(after, Loc(o, q), Width(o, q), st'[q.index])
    {
      if q.index == p.index {
        IndexDeterminesDepth(o, p, q);
      } else {
        FieldInBits(o, q);
        if q.index < p.index {
          FieldsDisjoint(o, q, p);
        } else {
          FieldsDisjoint(o, p, q);
        }
        assert Holds(before, Loc(o, q), Width(o, q), st[q.index]);
      }
    }
  }

  lemma {:induction false} OnesOfUnary(bits: seq<bool>, lo: nat, w: nat, v: nat, span: nat)
    requires Holds(bits, lo, w, v) && v <= span <= w
    ensures Ones(bits, lo, lo + span) == v
  {
    OnesRun(bits, lo, lo + v, true);
    OnesRun(bits, lo + v, lo + span, false);
    OnesSplit(bits, lo, lo + v, lo + span);
  }

  lemma {:induction false} OnesRun(bits: seq<bool>, lo: nat, hi: nat, on: bool)
    requires lo <= hi <= |bits| && forall k :: lo <= k < hi ==> bits[k] == on
    ensures Ones(bits, lo, hi) == if on then hi - lo else 0
    decreases hi - lo
  {
    if lo < hi {
      OnesRun(bits, lo + 1, hi, on);
    }
  }

  // Layout of the memo table -------------------------------------------------------------

  const SIZEOF_SIZE_T := 8
  const SIZEOF_TREE_HEADER := 24

  function PaddedBitset(o: nat): nat {
    var b := BitsetSizeof(SizeForOrder(o, 0));
    b + b % SIZEOF_SIZE_T
  }

  /** `buddy_tree_sizeof`. */
  function TreeSizeof(o: nat): nat {
    SIZEOF_TREE_HEADER + PaddedBitset(o) + (o + 2) * SIZEOF_SIZE_T
  }

  /** First word of the memo table, counted from `data`. */
  function MemoOffset(o: nat): nat {
    PaddedBitset(o) / SIZEOF_SIZE_T + 1
  }

  /** The memo table of order + 1 words starts after the last status bit and ends inside
      `buddy_tree_sizeof`, although the padding does not round up to a word. */
  lemma MemoTableFits(o: nat)
    ensures SizeForOrder(o, 0) <= 8 * (MemoOffset(o) * SIZEOF_SIZE_T)
    ensures SIZEOF_TREE_HEADER + (MemoOffset(o) + o + 1) * SIZEOF_SIZE_T <= TreeSizeof(o)
  {
    var n := SizeForOrder(o, 0);
    var b := BitsetSizeof(n);
    assert 8 * b >= n;
    var padded := PaddedBitset(o);
    assert padded / 8 * 8 <= padded < padded / 8 * 8 + 8;
  }
}
