/** The cyclic scan that picks the next waiting port. */
module CyclicScan {

  /** How far the scan that starts after `k` has to go to reach port `w`: 1 for k + 1, and so on round. */
  function Distance(size: nat, k: nat, w: nat): (d: nat)
    requires k < size && w < size
    ensures 1 <= d <= size
  {
    if w > k then w - k else w + size - k
  }

  /** Ports at different places are at different distances. */
  lemma DistanceInjective(size: nat, k: nat, v: nat, w: nat)
    requires k < size && v < size && w < size && Distance(size, k, v) == Distance(size, k, w)
    ensures v == w
  {
  }

  /** Once the scan has moved on to an earlier port, the rest of the way to `w` is strictly shorter. */
  lemma DistanceShrinks(size: nat, k: nat, v: nat, w: nat)
    requires k < size && v < size && w < size && Distance(size, k, v) < Distance(size, k, w)
    ensures Distance(size, v, w) == Distance(size, k, w) - Distance(size, k, v)
  {
  }

  predicate Ports(size: nat, active: set<nat>) {
    forall w :: w in active ==> w < size
  }

  /** The port that the scan finds: the active one at the least distance. */
  ghost predicate IsNext(size: nat, active: set<nat>, k: nat, r: nat)
    requires k < size && Ports(size, active)
  {
    r in active && forall w :: w in active ==> Distance(size, k, r) <= Distance(size, k, w)
  }

  /** The port at distance d. */
  function PortAt(size: nat, k: nat, d: nat): (w: nat)
    requires k < size && 1 <= d <= size
    ensures w < size && Distance(size, k, w) == d
  {
    if k + d < size then k + d else k + d - size
  }

  /** The first active port from distance d on. */
  function NextFrom(size: nat, active: set<nat>, k: nat, d: nat): (r: nat)
    requires k < size && Ports(size, active) && active != {} && 1 <= d <= size
    requires forall w :: w in active ==> Distance(size, k, w) >= d
    ensures IsNext(size, active, k, r)
    decreases size - d
  {
    var pos := PortAt(size, k, d);
    if pos in active then pos
    else
      assert forall w :: w in active ==> Distance(size, k, w) > d by {
        forall w | w in active ensures Distance(size, k, w) != d {
          if Distance(size, k, w) == d { DistanceInjective(size, k, w, pos); }
        }
      }
      assert d < size by { var w :| w in active; assert Distance(size, k, w) > d; }
      NextFrom(size, active, k, d + 1)
  }

  function NextPort(size: nat, active: set<nat>, k: nat): (r: nat)
    requires k < size && Ports(size, active) && active != {}
    ensures IsNext(size, active, k, r)
  {
    NextFrom(size, active, k, 1)
  }

  /** `next_bit`. */
  method NextBit(size: nat, active: set<nat>, k: nat) returns (pos: nat)
    requires k < size && Ports(size, active) && active != {}
    ensures pos == NextPort(size, active, k)
  {
    pos := (k + 1) % size;
    ghost var gone: nat := 1;
    StepOn(size, k);
    while pos !in active
      invariant pos < size && 1 <= gone <= size && pos == PortAt(size, k, gone)
      invariant forall w :: w in active ==> Distance(size, k, w) >= gone
      invariant NextFrom(size, active, k, gone) == NextPort(size, active, k)
      decreases size - gone
    {
      assert NextFrom(size, active, k, gone) != pos;
      forall w | w in active ensures Distance(size, k, w) > gone {
        if Distance(size, k, w) == gone {
          DistanceInjective(size, k, w, pos);
        }
      }
      ghost var some :| some in active;
      assert Distance(size, k, some) > gone;
      StepOn(size, pos);
      pos := (pos + 1) % size;
      gone := gone + 1;
    }
  }

  lemma StepOn(size: nat, pos: nat)
    requires pos < size
    ensures (pos + 1) % size == if pos + 1 < size then pos + 1 else 0
  {
  }
}
