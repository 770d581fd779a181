/** A byte-backed bitset with operations on inclusive bit ranges. */
module Bitset {

  const CHAR_BIT := 8

  const INDEX_MASK: seq<bv8> := [1, 2, 4, 8, 16, 32, 64, 128]

  const CHAR_MASK: seq<seq<bv8>> := [
    [1, 3, 7, 15, 31, 63, 127, 255],
    [0, 2, 6, 14, 30, 62, 126, 254],
    [0, 0, 4, 12, 28, 60, 124, 252],
    [0, 0, 0,  8, 24, 56, 120, 248],
    [0, 0, 0,  0, 16, 48, 112, 240],
    [0, 0, 0,  0,  0, 32,  96, 224],
    [0, 0, 0,  0,  0,  0,  64, 192],
    [0, 0, 0,  0,  0,  0,   0, 128]
  ]

  function BitsetSizeof(elements: nat): nat {
    (elements + CHAR_BIT - 1) / CHAR_BIT
  }

  /** Bit `j` of a byte. */
  predicate BitIn(b: bv8, j: nat)
    requires j < 8
  {
    b & INDEX_MASK[j] != 0
  }

  predicate Bit(bs: seq<bv8>, k: nat)
    requires k < 8 * |bs|
  {
    BitIn(bs[k / 8], k % 8)
  }

  /** The bits of a byte sequence, in order. */
  ghost function View(bs: seq<bv8>): (v: seq<bool>)
    ensures |v| == 8 * |bs|
  {
    if bs == [] then [] else seq(8, j requires 0 <= j < 8 => BitIn(bs[0], j)) + View(bs[1..])
  }

  lemma {:induction false} ViewAt(bs: seq<bv8>, k: nat)
    requires k < 8 * |bs|
    ensures View(bs)[k] == Bit(bs, k)
  {
    hide BitIn;
    if k >= 8 {
      ViewAt(bs[1..], k - 8);
      ShiftBucket(k);
    }
  }

  lemma ShiftBucket(k: nat)
    requires k >= 8
    ensures (k - 8) / 8 == k / 8 - 1 && (k - 8) % 8 == k % 8
  {
  }

  ghost function Ones(v: seq<bool>, lo: nat, hi: nat): nat
    requires hi <= |v|
    decreases hi - lo
  {
    if lo >= hi then 0 else (if v[lo] then 1 else 0) + Ones(v, lo + 1, hi)
  }

  /** Number of set bits of `b` from bit `j` up. */
  function PopcountFrom(b: bv8, j: nat): nat
    requires j <= 8
    decreases 8 - j
  {
    if j == 8 then 0 else (if BitIn(b, j) then 1 else 0) + PopcountFrom(b, j + 1)
  }

  /** `popcount_byte`: the lookup table tabulates this. */
  function Popcount(b: bv8): nat {
    PopcountFrom(b, 0)
  }

  lemma MaskBitLow(f: nat, t: nat, j: nat)
    requires f < 4 && t < 8 && j < 8
    ensures BitIn(CHAR_MASK[f][t], j) <==> f <= j <= t
  {
    if f == 0 {
    } else if f == 1 {
    } else if f == 2 {
    } else {
    }
  }

  lemma MaskBitHigh(f: nat, t: nat, j: nat)
    requires 4 <= f < 8 && t < 8 && j < 8
    ensures BitIn(CHAR_MASK[f][t], j) <==> f <= j <= t
  {
  }

  /** Entry [f][t] of the mask table has exactly the bits f..t. */
  lemma MaskBit(f: nat, t: nat, j: nat)
    requires f < 8 && t < 8 && j < 8
    ensures BitIn(CHAR_MASK[f][t], j) <==> f <= j <= t
  {
    if f < 4 {
      MaskBitLow(f, t, j);
    } else {
      MaskBitHigh(f, t, j);
    }
  }

  lemma OrBit(a: bv8, b: bv8, j: nat)
    requires j < 8
    ensures BitIn(a | b, j) <==> BitIn(a, j) || BitIn(b, j)
  {
  }

  lemma AndBit(a: bv8, b: bv8, j: nat)
    requires j < 8
    ensures BitIn(a & b, j) <==> BitIn(a, j) && BitIn(b, j)
  {
  }

  lemma ConstBit(j: nat)
    requires j < 8
    ensures BitIn(255, j) && !BitIn(0, j)
  {
  }

  lemma ClearBit(b: bv8, m: bv8, j: nat)
    requires j < 8
    ensures BitIn(b & !m, j) <==> BitIn(b, j) && !BitIn(m, j)
  {
  }

  /** `after` is `before` with the bits f..t switched on or off. */
  ghost predicate ByteWritten(before: bv8, after: bv8, f: nat, t: nat, on: bool) {
    forall j :: 0 <= j < 8 ==> (BitIn(after, j) <==> if f <= j <= t then on else BitIn(before, j))
  }

  method ClearBits(b: bv8, f: nat, t: nat) returns (r: bv8)
    requires f < 8 && t < 8
    ensures ByteWritten(b, r, f, t, false)
  {
    forall j | 0 <= j < 8
      ensures BitIn(b & !CHAR_MASK[f][t], j) <==> BitIn(b, j) && !(f <= j <= t)
    {
      ClearBit(b, CHAR_MASK[f][t], j);
      MaskBit(f, t, j);
    }
    r := b & !CHAR_MASK[f][t];
  }

  method SetBits(b: bv8, f: nat, t: nat) returns (r: bv8)
    requires f < 8 && t < 8
    ensures ByteWritten(b, r, f, t, true)
  {
    forall j | 0 <= j < 8
      ensures BitIn(b | CHAR_MASK[f][t], j) <==> BitIn(b, j) || f <= j <= t
    {
      OrBit(b, CHAR_MASK[f][t], j);
      MaskBit(f, t, j);
    }
    r := b | CHAR_MASK[f][t];
  }

  lemma ConstByteBits(b: bv8)
    ensures ByteWritten(b, 0, 0, 7, false) && ByteWritten(b, 255, 0, 7, true)
  {
    forall j | 0 <= j < 8 ensures BitIn(255, j) && !BitIn(0, j) {
      ConstBit(j);
    }
  }

  lemma BucketIndex(k: nat)
    ensures 8 * (k / 8) + k % 8 == k && k % 8 < 8
  {
  }

  lemma IndexInBucket(c: nat, j: nat)
    requires j < 8
    ensures (8 * c + j) / 8 == c && (8 * c + j) % 8 == j
  {
  }

  /** `after` is `before` with the bits from..to switched on or off. */
  ghost predicate RangeWritten(before: seq<bool>, after: seq<bool>, from: nat, to: nat, on: bool) {
    && |before| == |after|
    && forall k :: 0 <= k < |before| ==> after[k] == if from <= k <= to then on else before[k]
  }

  /** What a range operation leaves in the byte `c`. */
  ghost predicate ByteDone(before: bv8, after: bv8, c: nat, from: nat, to: nat, on: bool) {
    var fb, tb := from / 8, to / 8;
    if c < fb || tb < c then after == before
    else ByteWritten(before, after, if c == fb then from % 8 else 0, if c == tb then to % 8 else 7, on)
  }

  lemma BytesMakeRange(before: seq<bv8>, after: seq<bv8>, from: nat, to: nat, on: bool)
    requires |before| == |after| && from <= to
    requires forall c :: 0 <= c < |before| ==> ByteDone(before[c], after[c], c, from, to, on)
    ensures RangeWritten(View(before), View(after), from, to, on)
  {
    forall k | 0 <= k < 8 * |before|
      ensures View(after)[k] == if from <= k <= to then on else View(before)[k]
    {
      ViewAt(before, k); ViewAt(after, k);
      ByteDoneAt(before[k / 8], after[k / 8], k, from, to, on);
    }
  }

  lemma ByteDoneAt(before: bv8, after: bv8, k: nat, from: nat, to: nat, on: bool)
    requires from <= to && ByteDone(before, after, k / 8, from, to, on)
    ensures BitIn(after, k % 8) <==> if from <= k <= to then on else BitIn(before, k % 8)
  {
    BucketIndex(k); BucketIndex(from); BucketIndex(to);
  }

  /** `bitset_test`. */
  method Test(bs: array<bv8>, pos: nat) returns (r: bool)
    requires pos < 8 * bs.Length
    ensures r == View(bs[..])[pos]
  {
    ViewAt(bs[..], pos);
    r := bs[pos / 8] & INDEX_MASK[pos % 8] != 0;
  }

  /** `bitset_clear_range`: clears the bits from..to, both included, and no other. */
  method ClearRange(bs: array<bv8>, from: nat, to: nat)
    requires from <= to < 8 * bs.Length
    modifies bs
    ensures RangeWritten(old(View(bs[..])), View(bs[..]), from, to, false)
  {
    var fromBucket, toBucket := from / 8, to / 8;
    var fromIndex, toIndex := from % 8, to % 8;
    if fromBucket == toBucket {
      var b := ClearBits(bs[fromBucket], fromIndex, toIndex);
      bs[fromBucket] := b;
    } else {
      var b := ClearBits(bs[fromBucket], fromIndex, 7);
      var d := ClearBits(bs[toBucket], 0, toIndex);
      bs[fromBucket] := b;
      bs[toBucket] := d;
      var i := fromBucket + 1;
      while i != toBucket
        invariant fromBucket < i <= toBucket
        invariant forall c :: 0 <= c < bs.Length && !(i <= c < toBucket)
                    ==> ByteDone(old(bs[c]), bs[c], c, from, to, false)
      {
        ConstByteBits(old(bs[i]));
        bs[i] := 0;
        i := i + 1;
      }
    }
    BytesMakeRange(old(bs[..]), bs[..], from, to, false);
  }

  /** `bitset_set_range`: sets the bits from..to, both included, and no other. */
  method SetRange(bs: array<bv8>, from: nat, to: nat)
    requires from <= to < 8 * bs.Length
    modifies bs
    ensures RangeWritten(old(View(bs[..])), View(bs[..]), from, to, true)
  {
    var fromBucket, toBucket := from / 8, to / 8;
    var fromIndex, toIndex := from % 8, to % 8;
    if fromBucket == toBucket {
      var b := SetBits(bs[fromBucket], fromIndex, toIndex);
      bs[fromBucket] := b;
    } else {
      var b := SetBits(bs[fromBucket], fromIndex, 7);
      var d := SetBits(bs[toBucket], 0, toIndex);
      bs[fromBucket] := b;
      bs[toBucket] := d;
      var i := fromBucket + 1;
      while i != toBucket
        invariant fromBucket < i <= toBucket
        invariant forall c :: 0 <= c < bs.Length && !(i <= c < toBucket)
                    ==> ByteDone(old(bs[c]), bs[c], c, from, to, true)
      {
        ConstByteBits(old(bs[i]));
        bs[i] := 255;
        i := i + 1;
      }
    }
    BytesMakeRange(old(bs[..]), bs[..], from, to, true);
  }

  function ByteCount(b: bv8, lo: nat, hi: nat): nat
    requires hi <= 8
    decreases hi - lo
  {
    if lo >= hi then 0 else (if BitIn(b, lo) then 1 else 0) + ByteCount(b, lo + 1, hi)
  }

  lemma {:induction false} MaskedPopcount(b: bv8, r: bv8, f: nat, t: nat, j: nat)
    requires f <= t < 8 && j <= 8
    requires forall i :: 0 <= i < 8 ==> (BitIn(r, i) <==> BitIn(b, i) && f <= i <= t)
    ensures PopcountFrom(r, j) == ByteCount(b, if j < f then f else j, t + 1)
    decreases 8 - j
  {
    hide BitIn;
    if j < 8 {
      MaskedPopcount(b, r, f, t, j + 1);
    }
  }

  lemma {:induction false} OnesSplit(v: seq<bool>, lo: nat, mid: nat, hi: nat)
    requires lo <= mid <= hi <= |v|
    ensures Ones(v, lo, hi) == Ones(v, lo, mid) + Ones(v, mid, hi)
    decreases mid - lo
  {
    if lo < mid {
      OnesSplit(v, lo + 1, mid, hi);
    }
  }

  lemma {:induction false} CountInByte(bs: seq<bv8>, c: nat, lo: nat, hi: nat)
    requires c < |bs| && lo <= hi <= 8
    ensures ByteCount(bs[c], lo, hi) == Ones(View(bs), 8 * c + lo, 8 * c + hi)
    decreases hi - lo
  {
    if lo < hi {
      IndexInBucket(c, lo);
      ViewAt(bs, 8 * c + lo);
      CountInByte(bs, c, lo + 1, hi);
    }
  }

  lemma {:induction false} PopcountIsByteCount(b: bv8, j: nat)
    requires j <= 8
    ensures PopcountFrom(b, j) == ByteCount(b, j, 8)
    decreases 8 - j
  {
    if j < 8 {
      PopcountIsByteCount(b, j + 1);
    }
  }

  lemma CountedMask(b: bv8, f: nat, t: nat)
    requires f <= t < 8
    ensures Popcount(b & CHAR_MASK[f][t]) == ByteCount(b, f, t + 1)
  {
    forall j | 0 <= j < 8
      ensures BitIn(b & CHAR_MASK[f][t], j) <==> BitIn(b, j) && f <= j <= t
    {
      AndBit(b, CHAR_MASK[f][t], j);
      MaskBit(f, t, j);
    }
    MaskedPopcount(b, b & CHAR_MASK[f][t], f, t, 0);
  }

  /** `popcount_byte` of a byte masked to the bits f..t. */
  method CountMasked(bs: array<bv8>, c: nat, f: nat, t: nat) returns (n: nat)
    requires c < bs.Length && f <= t < 8
    ensures n == Ones(View(bs[..]), 8 * c + f, 8 * c + t + 1)
  {
    CountedMask(bs[c], f, t);
    CountInByte(bs[..], c, f, t + 1);
    n := Popcount(bs[c] & CHAR_MASK[f][t]);
  }

  /** `popcount_byte` of a whole byte. */
  method CountByte(bs: array<bv8>, c: nat) returns (n: nat)
    requires c < bs.Length
    ensures n == Ones(View(bs[..]), 8 * c, 8 * c + 8)
  {
    PopcountIsByteCount(bs[c], 0);
    CountInByte(bs[..], c, 0, 8);
    n := Popcount(bs[c]);
  }

  /** The middle of `bitset_count_range`: whole bytes from bucket `lo` up to `hi`. */
  method CountBuckets(bs: array<bv8>, lo: nat, hi: nat) returns (result: nat)
    requires lo <= hi <= bs.Length
    ensures result == Ones(View(bs[..]), 8 * lo, 8 * hi)
  {
    result := 0;
    var i := lo;
    while i != hi
      invariant lo <= i <= hi
      invariant result == Ones(View(bs[..]), 8 * lo, 8 * i)
    {
      var n := CountByte(bs, i);
      OnesSplit(View(bs[..]), 8 * lo, 8 * i, 8 * i + 8);
      result := result + n;
      i := i + 1;
    }
  }

  /** `bitset_count_range`: the number of set bits from..to, both included. */
  method CountRange(bs: array<bv8>, from: nat, to: nat) returns (result: nat)
    requires from <= to < 8 * bs.Length
    ensures result == Ones(View(bs[..]), from, to + 1)
  {
    hide Ones;
    var fromBucket, toBucket := from / 8, to / 8;
    var fromIndex, toIndex := from % 8, to % 8;
    ghost var v := View(bs[..]);
    BucketIndex(from); BucketIndex(to);
    if fromBucket == toBucket {
      result := CountMasked(bs, fromBucket, fromIndex, toIndex);
    } else {
      CountParts(v, fromBucket, fromIndex, toBucket, toIndex);
      var first := CountMasked(bs, fromBucket, fromIndex, 7);
      var last := CountMasked(bs, toBucket, 0, toIndex);
      var middle := CountBuckets(bs, fromBucket + 1, toBucket);
      result := first + last + middle;
    }
  }

  lemma CountParts(v: seq<bool>, fb: nat, fi: nat, tb: nat, ti: nat)
    requires fi < 8 && ti < 8 && fb < tb && 8 * tb + ti < |v|
    ensures Ones(v, 8 * fb + fi, 8 * tb + ti + 1)
         == Ones(v, 8 * fb + fi, 8 * fb + 7 + 1) + Ones(v, 8 * tb + 0, 8 * tb + ti + 1) + Ones(v, 8 * (fb + 1), 8 * tb)
  {
    OnesSplit(v, 8 * fb + fi, 8 * fb + 8, 8 * tb + ti + 1);
    OnesSplit(v, 8 * fb + 8, 8 * tb, 8 * tb + ti + 1);
  }
}
