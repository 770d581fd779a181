/**
 Making one store, memory write by memory write. A word or a slot bit is one write; a buddy
 operation writes the status of its position and then climbs towards the root.
 */
module StoreSteps {
  import opened BuddyPositions
  import opened BuddyStatus
  import opened BuddyCuts
  import opened MetaStores

  /** Where a buddy operation is: not under way, or at the position whose parent it compares next. */
  datatype Climb = Ground | At(q: Pos)

  datatype Progress = Progress(meta: Meta, climb: Climb, done: bool)

  predicate OnTree(s: Store) {
    s.TreeMark? || s.TreeRelease?
  }

  predicate Climbable(o: nat, climb: Climb, s: Store) {
    Storable(o, s) && (climb.At? ==> OnTree(s) && Wf(o, climb.q))
  }

  /** What the operation writes into the status of its own position. */
  function OwnStatus(o: nat, s: Store): nat
    requires OnTree(s) && Wf(o, s.pos)
  {
    if s.TreeMark? then Width(o, s.pos) else 0
  }

  datatype Write = NoWrite | Write(index: nat, value: nat)

  /** The status that s writes next. A release of a block whose status is not full writes nothing. */
  function NextWrite(o: nat, t: seq<nat>, climb: Climb, s: Store): (w: Write)
    requires Shape(o, t) && Climbable(o, climb, s)
    ensures w.Write? ==> OnTree(s) && w.index < |t|
  {
    if climb.At? then
      if Pending(o, t, climb.q) then
        IndexOneIsRoot(o, climb.q); ParentWf(o, climb.q); IndexBound(o, Parent(climb.q));
        Write(Parent(climb.q).index, ParentStatus(o, t, climb.q).0)
      else NoWrite
    else if !OnTree(s) then NoWrite
    else
      IndexBound(o, s.pos);
      if s.TreeRelease? && t[s.pos.index] != Width(o, s.pos) then NoWrite else Write(s.pos.index, OwnStatus(o, s))
  }

  /** One write of store s. */
  function StoreNext(o: nat, m: Meta, climb: Climb, s: Store): (r: Progress)
    requires Shape(o, m.tree) && Climbable(o, climb, s)
    ensures Shape(o, r.meta.tree) && (r.done ==> r.climb == Ground) && Climbable(o, r.climb, s)
  {
    var w := NextWrite(o, m.tree, climb, s);
    if w.Write? then
      OneIteration(o, m.tree, if climb.At? then climb.q else s.pos);
      Progress(m.(tree := m.tree[w.index := w.value]), At(if climb.At? then Parent(climb.q) else s.pos), false)
    else if OnTree(s) then Progress(m, Ground, true)
    else Progress(Apply(o, m, s), Ground, true)
  }

  /** Where the store leads from here. */
  function Goal(o: nat, m: Meta, climb: Climb, s: Store): (r: Meta)
    requires Shape(o, m.tree) && Climbable(o, climb, s)
    ensures Shape(o, r.tree)
  {
    if climb.At? then m.(tree := UpdateChain(o, m.tree, climb.q)) else Apply(o, m, s)
  }

  /** The climb of s has come to q: its own status is written, and above it the first parent is right. */
  predicate OnWay(o: nat, t: seq<nat>, s: Store, q: Pos)
    requires Shape(o, t)
  {
    && OnTree(s) && Wf(o, s.pos) && Wf(o, q)
    && s.pos.index < |t| && t[s.pos.index] == OwnStatus(o, s)
    && (q == s.pos || (q.index <= s.pos.index / 2 && !Pending(o, t, s.pos)))
  }

  /** A write further up leaves the first comparison as it is. */
  lemma WriteAbove(o: nat, t: seq<nat>, p: Pos, q: Pos)
    requires Shape(o, t) && Wf(o, p) && Wf(o, q) && Pending(o, t, q) && q.index <= p.index / 2 && p.index < |t|
    ensures ParentWritten(o, t, q)[p.index] == t[p.index]
    ensures Pending(o, ParentWritten(o, t, q), p) == Pending(o, t, p)
  {
    IndexOneIsRoot(o, q); ParentWf(o, q); IndexBound(o, Parent(q));
    IndexOneIsRoot(o, p); ParentWf(o, p);
    IndexBound(o, p); IndexBound(o, Parent(p)); IndexBound(o, Sibling(p));
  }

  /** The first write at q itself makes its comparison right. */
  lemma WriteSettles(o: nat, t: seq<nat>, q: Pos)
    requires Shape(o, t) && Wf(o, q) && Pending(o, t, q) && q.index < |t|
    ensures ParentWritten(o, t, q)[q.index] == t[q.index] && !Pending(o, ParentWritten(o, t, q), q)
  {
    IndexOneIsRoot(o, q); ParentWf(o, q);
    IndexBound(o, q); IndexBound(o, Parent(q)); IndexBound(o, Sibling(q));
  }

  /** The buddy operation s changes nothing in this tree. */
  predicate Still(o: nat, t: seq<nat>, s: Store)
    requires Shape(o, t) && OnTree(s) && Wf(o, s.pos)
  {
    t == if s.TreeMark? then Mark(o, t, s.pos) else Release(o, t, s.pos)
  }

  /** Each write leads where the whole store leads, and the last one is there. */
  lemma StepTowards(o: nat, m: Meta, climb: Climb, s: Store)
    requires Shape(o, m.tree) && Climbable(o, climb, s) && (climb.At? ==> OnWay(o, m.tree, s, climb.q))
    ensures var r := StoreNext(o, m, climb, s);
            if r.done then r.meta == Goal(o, m, climb, s)
            else r.climb.At? && OnWay(o, r.meta.tree, s, r.climb.q) && Goal(o, r.meta, r.climb, s) == Goal(o, m, climb, s)
  {
    if climb.At? {
      OneIteration(o, m.tree, climb.q);
      if Pending(o, m.tree, climb.q) {
        ClimbStays(o, m.tree, s, climb.q);
      }
    } else if OnTree(s) {
      IndexBound(o, s.pos);
    }
  }

  lemma ClimbStays(o: nat, t: seq<nat>, s: Store, q: Pos)
    requires Shape(o, t) && OnWay(o, t, s, q) && Pending(o, t, q)
    ensures OnWay(o, ParentWritten(o, t, q), s, Parent(q))
  {
    IndexOneIsRoot(o, q); ParentWf(o, q);
    if q == s.pos {
      WriteSettles(o, t, q);
    } else {
      WriteAbove(o, t, s.pos, q);
    }
  }

  /** After n more writes of s, or at its end. */
  function StoreAfter(o: nat, m: Meta, climb: Climb, s: Store, n: nat): Progress
    requires Shape(o, m.tree) && Climbable(o, climb, s)
    decreases n
  {
    if n == 0 then Progress(m, climb, false)
    else
      var r := StoreNext(o, m, climb, s);
      if r.done then r else StoreAfter(o, r.meta, r.climb, s, n - 1)
  }

  lemma {:induction false} ClimbIsCut(o: nat, m: Meta, q: Pos, s: Store, n: nat)
    requires Shape(o, m.tree) && Storable(o, s) && OnTree(s) && Wf(o, q)
    ensures StoreAfter(o, m, At(q), s, n).meta == m.(tree := ChainCut(o, m.tree, q, n))
    decreases n
  {
    OneIteration(o, m.tree, q);
    if n > 0 && Pending(o, m.tree, q) {
      ClimbIsCut(o, m.(tree := ParentWritten(o, m.tree, q)), Parent(q), s, n - 1);
    }
  }

  /** The states between the writes of a buddy operation are its cuts. */
  lemma WritesAreCuts(o: nat, m: Meta, p: Pos, n: nat)
    requires Shape(o, m.tree) && Wf(o, p)
    ensures StoreAfter(o, m, Ground, TreeMark(p), n + 1).meta == m.(tree := MarkCut(o, m.tree, p, n))
    ensures p.index < |m.tree|
    ensures m.tree[p.index] == Width(o, p) ==>
              StoreAfter(o, m, Ground, TreeRelease(p), n + 1).meta == m.(tree := ReleaseCut(o, m.tree, p, n))
  {
    IndexBound(o, p);
    ClimbIsCut(o, m.(tree := m.tree[p.index := Width(o, p)]), p, TreeMark(p), n);
    ClimbIsCut(o, m.(tree := m.tree[p.index := 0]), p, TreeRelease(p), n);
  }

  /**
   The climb is strictly inside the chain: an ancestor is still to be written, and replaying the
   store would no longer do it. A mark that has written its own status only is not: its replay
   starts over.
   */
  predicate Inside(o: nat, t: seq<nat>, s: Store, q: Pos)
    requires Shape(o, t) && Wf(o, q) && OnTree(s)
  {
    Pending(o, t, q) && (s.TreeRelease? || q != s.pos)
  }

  /** Replaying a store cut here leads where it was going exactly when the cut is not inside the chain. */
  lemma CutExact(o: nat, m: Meta, s: Store, q: Pos)
    requires Shape(o, m.tree) && OnWay(o, m.tree, s, q)
    ensures Apply(o, m, s) == Goal(o, m, At(q), s) <==> !Inside(o, m.tree, s, q)
    ensures Inside(o, m.tree, s, q) ==> Apply(o, m, s) == m && Differs(o, m.tree, Goal(o, m, At(q), s).tree)
  {
    var t := m.tree;
    OneIteration(o, t, q);
    OneIteration(o, t, s.pos);
    if s.TreeMark? {
      MarkAgain(o, t, s.pos);
    }
    if Pending(o, t, q) {
      PendingChanges(o, t, q);
    }
  }

  /** A write cut short: the status is neither the old one nor the new one. */
  predicate Torn(o: nat, t: seq<nat>, climb: Climb, s: Store, t': seq<nat>)
    requires Shape(o, t) && Climbable(o, climb, s)
  {
    var w := NextWrite(o, t, climb, s);
    && w.Write? && |t'| == |t| && t' == t[w.index := t'[w.index]]
    && t'[w.index] != t[w.index] && t'[w.index] != w.value
  }

  /** A store torn here is not made good by its replay: a release, or a mark past its first ancestor. */
  predicate TearSpoils(climb: Climb, s: Store) {
    s.TreeRelease? || (s.TreeMark? && climb.At? && climb.q != s.pos)
  }

  /**
   Replaying a store whose next write was cut short leads where it was going exactly when it is a mark
   that has not finished its first ancestor.
   */
  lemma TearExact(o: nat, m: Meta, climb: Climb, s: Store, t': seq<nat>)
    requires Shape(o, m.tree) && Climbable(o, climb, s) && (climb.At? ==> OnWay(o, m.tree, s, climb.q))
    requires Torn(o, m.tree, climb, s, t')
    ensures Shape(o, t')
    ensures Apply(o, m.(tree := t'), s) == Goal(o, m, climb, s) <==> !TearSpoils(climb, s)
    ensures TearSpoils(climb, s) ==>
              Apply(o, m.(tree := t'), s) == m.(tree := t') && Differs(o, t', Goal(o, m, climb, s).tree)
  {
    if climb.Ground? {
      OwnTear(o, m, s, t');
    } else if climb.q == s.pos && s.TreeMark? {
      FirstTear(o, m, s, t');
    } else {
      LaterTear(o, m, s, climb.q, t');
    }
  }

  /** Its own status torn. */
  lemma OwnTear(o: nat, m: Meta, s: Store, t': seq<nat>)
    requires Shape(o, m.tree) && Climbable(o, Ground, s) && Torn(o, m.tree, Ground, s, t')
    ensures Shape(o, t')
    ensures s.TreeMark? ==> Apply(o, m.(tree := t'), s) == Apply(o, m, s)
    ensures s.TreeRelease? ==> Apply(o, m.(tree := t'), s) == m.(tree := t') && Differs(o, t', Apply(o, m, s).tree)
  {
    IndexBound(o, s.pos);
    if s.TreeMark? {
      assert t'[s.pos.index := Width(o, s.pos)] == m.tree[s.pos.index := Width(o, s.pos)];
    } else {
      ChainFrame(o, m.tree[s.pos.index := 0], s.pos, s.pos.index);
    }
  }

  /** The first ancestor of a mark torn. */
  lemma FirstTear(o: nat, m: Meta, s: Store, t': seq<nat>)
    requires Shape(o, m.tree) && s.TreeMark? && Climbable(o, At(s.pos), s) && OnWay(o, m.tree, s, s.pos)
    requires Torn(o, m.tree, At(s.pos), s, t')
    ensures Shape(o, t') && Apply(o, m.(tree := t'), s) == Goal(o, m, At(s.pos), s)
  {
    var p := s.pos;
    IndexOneIsRoot(o, p); ParentWf(o, p);
    IndexBound(o, p); IndexBound(o, Parent(p)); IndexBound(o, Sibling(p));
    MarkAgain(o, t', p);
    OneIteration(o, m.tree, p);
    OneIteration(o, t', p);
    assert ParentWritten(o, t', p) == ParentWritten(o, m.tree, p);
  }

  /** A later ancestor torn, or one of a release. */
  lemma LaterTear(o: nat, m: Meta, s: Store, q: Pos, t': seq<nat>)
    requires Shape(o, m.tree) && Climbable(o, At(q), s) && OnWay(o, m.tree, s, q) && Torn(o, m.tree, At(q), s, t')
    requires s.TreeRelease? || q != s.pos
    ensures Shape(o, t') && Apply(o, m.(tree := t'), s) == m.(tree := t')
    ensures Differs(o, t', Goal(o, m, At(q), s).tree)
  {
    var p := s.pos;
    IndexOneIsRoot(o, q); ParentWf(o, q); IndexBound(o, Parent(q)); IndexBound(o, p);
    if s.TreeMark? {
      IndexOneIsRoot(o, p); ParentWf(o, p); IndexBound(o, Parent(p)); IndexBound(o, Sibling(p));
      MarkAgain(o, t', p);
      OneIteration(o, t', p);
    }
    OneIteration(o, m.tree, q);
    ChainFrame(o, ParentWritten(o, m.tree, q), Parent(q), Parent(q).index);
  }

  /** A store that changes nothing as a whole changes nothing on the way, and never climbs. */
  lemma StillSteps(o: nat, m: Meta, s: Store)
    requires Shape(o, m.tree) && Storable(o, s) && Apply(o, m, s) == m
    ensures var r := StoreNext(o, m, Ground, s);
            r.meta == m && (!r.done ==> OnTree(s) && r.climb == At(s.pos) && !Pending(o, m.tree, s.pos))
  {
    if OnTree(s) {
      IndexBound(o, s.pos);
      var w := m.tree[s.pos.index := OwnStatus(o, s)];
      ChainFrame(o, w, s.pos, s.pos.index);
      if w == m.tree && Pending(o, m.tree, s.pos) {
        PendingChanges(o, m.tree, s.pos);
      }
    }
  }

  /** A store elsewhere does not see the tree. */
  lemma OffTree(o: nat, m: Meta, s: Store, t: seq<nat>)
    requires Shape(o, m.tree) && Shape(o, t) && Storable(o, s) && !OnTree(s)
    ensures Apply(o, m.(tree := t), s) == Apply(o, m, s).(tree := t) && Apply(o, m, s).tree == m.tree
  {
  }

  /** After all stores the tree is what the buddy operation among them makes of it. */
  lemma {:induction false} TreeAfter(o: nat, m: Meta, ss: seq<Store>, k: nat)
    requires Shape(o, m.tree) && AllStorable(o, ss) && Independent(ss) && k < |ss| && OnTree(ss[k])
    ensures ApplyAll(o, m, ss).tree == Apply(o, m, ss[k]).tree
    decreases |ss|
  {
    var rest := ss[1..];
    if k == 0 {
      assert forall i :: 0 <= i < |rest| ==> Apart(ss[0], rest[i]) by {
        assert forall i :: 0 <= i < |rest| ==> rest[i] == ss[i + 1];
      }
      TreeKept(o, Apply(o, m, ss[0]), rest);
    } else {
      assert Apart(ss[0], ss[k]) && rest[k - 1] == ss[k];
      TreeAfter(o, Apply(o, m, ss[0]), rest, k - 1);
    }
  }

  lemma {:induction false} TreeKept(o: nat, m: Meta, ss: seq<Store>)
    requires Shape(o, m.tree) && AllStorable(o, ss) && forall i :: 0 <= i < |ss| ==> !OnTree(ss[i])
    ensures ApplyAll(o, m, ss).tree == m.tree
    decreases |ss|
  {
    if ss != [] {
      TreeKept(o, Apply(o, m, ss[0]), ss[1..]);
    }
  }

  /** A store that has made n of its writes is on its way, or done. */
  lemma {:induction false} AfterLeads(o: nat, m: Meta, climb: Climb, s: Store, n: nat)
    requires Shape(o, m.tree) && Climbable(o, climb, s) && (climb.At? ==> OnWay(o, m.tree, s, climb.q))
    ensures var r := StoreAfter(o, m, climb, s, n);
            && Shape(o, r.meta.tree) && Climbable(o, r.climb, s) && (r.climb.At? ==> OnWay(o, r.meta.tree, s, r.climb.q))
            && (if r.done then r.climb.Ground? && r.meta == Goal(o, m, climb, s)
                else Goal(o, r.meta, r.climb, s) == Goal(o, m, climb, s))
    decreases n
  {
    hide OnWay, Goal, StoreNext;
    if n > 0 {
      StepTowards(o, m, climb, s);
      var r := StoreNext(o, m, climb, s);
      if !r.done {
        AfterLeads(o, r.meta, r.climb, s, n - 1);
      }
    }
  }

  /**
   A replay from any state between two writes ends where the uninterrupted run ends, exactly when the
   cut is not strictly inside the chain of a buddy operation.
   */
  lemma ReplayFromWrite(o: nat, m: Meta, ss: seq<Store>, k: nat, n: nat)
    requires Shape(o, m.tree) && AllStorable(o, ss) && Independent(ss) && k < |ss|
    ensures AllStorable(o, ss[..k])
    ensures var r := StoreAfter(o, ApplyAll(o, m, ss[..k]), Ground, ss[k], n);
            && Shape(o, r.meta.tree) && (r.climb.At? ==> OnTree(ss[k]) && Wf(o, r.climb.q))
            && (ApplyAll(o, r.meta, ss) == ApplyAll(o, m, ss)
                <==> !(r.climb.At? && Inside(o, r.meta.tree, ss[k], r.climb.q)))
  {
    assert AllStorable(o, ss[..k]);
    hide Independent, OnWay, Inside, UpdateChain, Mark, Release;
    var s, before := ss[k], ApplyAll(o, m, ss[..k]);
    var r, goal := StoreAfter(o, before, Ground, s, n), Apply(o, before, s);
    AfterLeads(o, before, Ground, s, n);
    ReplayFromCut(o, m, ss, k);
    EarlyStoreAbsorbed(o, before, ss, k);
    if r.climb.At? {
      CutExact(o, r.meta, s, r.climb.q);
      EarlyStoreAbsorbed(o, r.meta, ss, k);
      TreeAfter(o, r.meta, ss, k);
      TreeAfter(o, before, ss, k);
    } else if !r.done {
      EarlyStoreAbsorbed(o, r.meta, ss, k);
    }
  }
}
