/**
 Marking and releasing cut short. Both first write the status of the position and then those of its
 ancestors, one at a time, until one of them is right. A crash between two of these writes leaves
 the ancestors above as they were, and a replay starts again at the bottom.
 */
module BuddyCuts {
  import opened BuddyPositions
  import opened BuddyStatus
  import opened BuddySearch

  /** The next iteration of `update_parent_chain`, from position q, writes the parent of q. */
  predicate Pending(o: nat, st: seq<nat>, q: Pos)
    requires Shape(o, st) && Wf(o, q)
  {
    q.index != 1 && ParentStatus(o, st, q).0 != ParentStatus(o, st, q).1
  }

  /** The status that q and its sibling ask of their parent, and the status their parent has. */
  function ParentStatus(o: nat, st: seq<nat>, q: Pos): (nat, nat)
    requires Shape(o, st) && Wf(o, q) && q.index != 1
  {
    IndexOneIsRoot(o, q); ParentWf(o, q);
    IndexBound(o, q); IndexBound(o, Parent(q)); IndexBound(o, Sibling(q));
    (Combine(st[q.index], st[Sibling(q).index]), st[Parent(q).index])
  }

  /** That write. */
  function ParentWritten(o: nat, st: seq<nat>, q: Pos): (r: seq<nat>)
    requires Shape(o, st) && Wf(o, q) && q.index != 1
    ensures Shape(o, r)
  {
    IndexOneIsRoot(o, q); ParentWf(o, q); IndexBound(o, Parent(q));
    st[Parent(q).index := ParentStatus(o, st, q).0]
  }

  lemma OneIteration(o: nat, st: seq<nat>, q: Pos)
    requires Shape(o, st) && Wf(o, q)
    ensures if Pending(o, st, q) then
              Wf(o, Parent(q)) && UpdateChain(o, st, q) == UpdateChain(o, ParentWritten(o, st, q), Parent(q))
            else UpdateChain(o, st, q) == st
  {
    IndexOneIsRoot(o, q);
    if q.index != 1 {
      ParentWf(o, q);
    }
  }

  /** Two status arrays differ at a position. */
  ghost predicate Differs(o: nat, st: seq<nat>, st': seq<nat>) {
    exists q :: Wf(o, q) && q.index < |st| && q.index < |st'| && st[q.index] != st'[q.index]
  }

  /** A write that is pending changes a status, and the rest of the chain does not change it back. */
  lemma PendingChanges(o: nat, st: seq<nat>, q: Pos)
    requires Shape(o, st) && Wf(o, q) && Pending(o, st, q)
    ensures Differs(o, st, UpdateChain(o, st, q))
  {
    IndexOneIsRoot(o, q); ParentWf(o, q); IndexBound(o, Parent(q));
    OneIteration(o, st, q);
    ChainFrame(o, ParentWritten(o, st, q), Parent(q), Parent(q).index);
  }

  // Cut after n writes -----------------------------------------------------------------------------------

  /** The chain cut after n of its writes. */
  function ChainCut(o: nat, st: seq<nat>, q: Pos, n: nat): (r: seq<nat>)
    requires Shape(o, st) && Wf(o, q)
    ensures Shape(o, r)
    decreases n
  {
    if n == 0 || !Pending(o, st, q) then st
    else OneIteration(o, st, q); ChainCut(o, ParentWritten(o, st, q), Parent(q), n - 1)
  }

  /** How many ancestors the chain writes. */
  function ChainWrites(o: nat, st: seq<nat>, q: Pos): (n: nat)
    requires Shape(o, st) && Wf(o, q)
    decreases q.depth
  {
    if !Pending(o, st, q) then 0
    else
      OneIteration(o, st, q);
      IndexOneIsRoot(o, q);
      1 + ChainWrites(o, ParentWritten(o, st, q), Parent(q))
  }

  /** Cut after all its writes the chain is complete, and cut before the last it is not. */
  lemma {:induction false} ChainCutExact(o: nat, st: seq<nat>, q: Pos, n: nat)
    requires Shape(o, st) && Wf(o, q)
    ensures ChainCut(o, st, q, n) == UpdateChain(o, st, q) <==> n >= ChainWrites(o, st, q)
    decreases n
  {
    OneIteration(o, st, q);
    if Pending(o, st, q) {
      if n == 0 {
        PendingChanges(o, st, q);
      } else {
        ChainCutExact(o, ParentWritten(o, st, q), Parent(q), n - 1);
      }
    }
  }

  /** The cut leaves everything from q down alone, once above it also the parent that was written first. */
  lemma {:induction false} CutFrame(o: nat, st: seq<nat>, q: Pos, n: nat, k: nat)
    requires Shape(o, st) && Wf(o, q) && q.index <= k < |st|
    ensures ChainCut(o, st, q, n)[k] == st[k]
    decreases n
  {
    if n > 0 && Pending(o, st, q) {
      OneIteration(o, st, q);
      CutFrame(o, ParentWritten(o, st, q), Parent(q), n - 1, k);
    }
  }

  /** After a cut that has written a parent, the chain from the bottom has nothing to do. */
  lemma CutIsStill(o: nat, st: seq<nat>, p: Pos, n: nat)
    requires Shape(o, st) && Wf(o, p) && n > 0
    ensures !Pending(o, ChainCut(o, st, p, n), p)
  {
    if Pending(o, st, p) {
      OneIteration(o, st, p);
      IndexOneIsRoot(o, p); ParentWf(o, p);
      IndexBound(o, p); IndexBound(o, Parent(p)); IndexBound(o, Sibling(p));
      var w := ParentWritten(o, st, p);
      CutFrame(o, w, Parent(p), n - 1, Parent(p).index);
      CutFrame(o, w, Parent(p), n - 1, p.index);
      CutFrame(o, w, Parent(p), n - 1, Sibling(p).index);
    }
  }

  /** Marking p, cut after the status of p and n ancestors were written. */
  function MarkCut(o: nat, st: seq<nat>, p: Pos, n: nat): (r: seq<nat>)
    requires Shape(o, st) && Wf(o, p)
    ensures Shape(o, r)
  {
    IndexBound(o, p);
    ChainCut(o, st[p.index := Width(o, p)], p, n)
  }

  function MarkWrites(o: nat, st: seq<nat>, p: Pos): nat
    requires Shape(o, st) && Wf(o, p)
  {
    IndexBound(o, p);
    ChainWrites(o, st[p.index := Width(o, p)], p)
  }

  /** Replaying a mark on any array whose status at p is full is running the chain from p. */
  lemma MarkAgain(o: nat, st: seq<nat>, p: Pos)
    requires Shape(o, st) && Wf(o, p) && p.index < |st| && st[p.index] == Width(o, p)
    ensures Mark(o, st, p) == UpdateChain(o, st, p)
  {
    assert st[p.index := Width(o, p)] == st;
  }

  /**
   When replaying a mark repairs a cut one: exactly when no ancestor was written yet, or all were.
   In between the replay changes nothing.
   */
  lemma MarkCutExact(o: nat, st: seq<nat>, p: Pos, n: nat)
    requires Shape(o, st) && Wf(o, p)
    ensures Mark(o, MarkCut(o, st, p, n), p) == Mark(o, st, p) <==> n == 0 || n >= MarkWrites(o, st, p)
    ensures n > 0 ==> Mark(o, MarkCut(o, st, p, n), p) == MarkCut(o, st, p, n)
  {
    IndexBound(o, p);
    var w, c := st[p.index := Width(o, p)], MarkCut(o, st, p, n);
    CutFrame(o, w, p, n, p.index);
    MarkAgain(o, c, p);
    ChainCutExact(o, w, p, n);
    if n > 0 {
      CutIsStill(o, w, p, n);
      OneIteration(o, c, p);
    }
  }

  /** Releasing p, cut after the status of p and n ancestors were written. */
  function ReleaseCut(o: nat, st: seq<nat>, p: Pos, n: nat): (r: seq<nat>)
    requires Shape(o, st) && Wf(o, p)
    ensures Shape(o, r)
  {
    IndexBound(o, p);
    ChainCut(o, st[p.index := 0], p, n)
  }

  function ReleaseWrites(o: nat, st: seq<nat>, p: Pos): nat
    requires Shape(o, st) && Wf(o, p)
  {
    IndexBound(o, p);
    ChainWrites(o, st[p.index := 0], p)
  }

  /**
   When replaying a release repairs a cut one: once the status of p is written it changes nothing
   any more, so exactly when all ancestors were written.
   */
  lemma ReleaseCutExact(o: nat, st: seq<nat>, p: Pos, n: nat)
    requires Shape(o, st) && Wf(o, p) && p.index < |st| && st[p.index] == Width(o, p)
    ensures Release(o, ReleaseCut(o, st, p, n), p) == ReleaseCut(o, st, p, n)
    ensures Release(o, ReleaseCut(o, st, p, n), p) == Release(o, st, p) <==> n >= ReleaseWrites(o, st, p)
  {
    var w := st[p.index := 0];
    CutFrame(o, w, p, n, p.index);
    ChainCutExact(o, w, p, n);
  }

  // Inputs on which the replay does not repair it ------------------------------------------------------------

  /** The root is written last. */
  lemma {:induction false} RootIsLast(o: nat, st: seq<nat>, q: Pos, n: nat)
    requires Shape(o, st) && Wf(o, q) && 1 < |st| && n + 1 < q.depth
    ensures ChainCut(o, st, q, n)[1] == st[1]
    decreases n
  {
    if n > 0 && Pending(o, st, q) {
      OneIteration(o, st, q);
      IndexOneIsRoot(o, q); ParentWf(o, q); IndexOneIsRoot(o, Parent(q));
      RootIsLast(o, ParentWritten(o, st, q), Parent(q), n - 1);
    }
  }

  /**
   Marking any position at depth three or more in an empty tree, cut after its parent was written and
   replayed: the root still counts as free, so the search for the whole arena returns it although a
   block inside it is live, and the statuses are not those of that block.
   */
  lemma CutMarkFails(o: nat, st: seq<nat>, p: Pos)
    requires Canonical(o, {}, st) && Wf(o, p) && p.depth >= 3
    ensures LiveSet(o, {p}) && Wf(o, ROOT)
    ensures var r := Mark(o, MarkCut(o, st, p, 1), p);
            && !Canonical(o, {p}, r) && FindFree(o, r, 1) == ROOT && !Free(o, {p}, ROOT)
  {
    RootWf(o);
    IndexBound(o, p); IndexBound(o, ROOT);
    NothingBelow(o, {}, ROOT);
    RootIsLast(o, st[p.index := Width(o, p)], p, 1);
    MarkCutExact(o, st, p, 1);
    RootCovers(o, p);
    WithinCovers(o, ROOT, p);
    LiveRaisesStatus(o, {p}, ROOT, p);
  }

  /**
   Releasing the only block of a tree, at depth two or more, cut right after its own status was
   written and replayed: everything is free, but the search for the whole arena finds nothing.
   */
  lemma CutReleaseFails(o: nat, st: seq<nat>, p: Pos)
    requires Canonical(o, {p}, st) && Wf(o, p) && p.depth >= 2
    ensures LiveSet(o, {}) && Wf(o, ROOT) && p.index < |st| && st[p.index] == Width(o, p)
    ensures var r := Release(o, ReleaseCut(o, st, p, 0), p);
            && !Canonical(o, {}, r) && FindFree(o, r, 1) == INVALID_POS && Free(o, {}, ROOT)
  {
    RootWf(o);
    IndexBound(o, p); IndexBound(o, ROOT);
    NothingBelow(o, {p}, p);
    NothingBelow(o, {}, ROOT);
    ReleaseCutExact(o, st, p, 0);
    RootIsLast(o, st[p.index := 0], p, 0);
    RootCovers(o, p);
    LiveRaisesStatus(o, {p}, ROOT, p);
  }
}
