/**
 Work on a list of stores, write by write, and work that leaves the tree as it is: a replay of what is
 already there. All it can do to the tree is rewrite the status of the block it marks.
 */
module StoreWork {
  import opened BuddyPositions
  import opened BuddyStatus
  import opened BuddyCuts
  import opened MetaStores
  import opened StoreSteps

  /** The stores still to make, and how far the first of them is if it is a buddy operation under way. */
  datatype Work = Work(todo: seq<Store>, climb: Climb)

  /** One more write of the stores still to make. */
  ghost predicate WorkStep(o: nat, m: Meta, w: Work, m': Meta, w': Work)
    requires Shape(o, m.tree)
  {
    && w.todo != [] && Climbable(o, w.climb, w.todo[0])
    && var r := StoreNext(o, m, w.climb, w.todo[0]);
       m' == r.meta && w' == Work(if r.done then w.todo[1..] else w.todo, r.climb)
  }

  /** What is left to do when the buddy operation under way is finished. */
  function Rest(w: Work): seq<Store> {
    if w.climb.At? && w.todo != [] then w.todo[1..] else w.todo
  }

  predicate Suffix(todo: seq<Store>, ss: seq<Store>) {
    |todo| <= |ss| && todo == ss[|ss| - |todo|..]
  }

  /** The buddy operation under way has found the first parent right. */
  predicate AtRest(o: nat, t: seq<nat>, w: Work)
    requires w.climb.At?
  {
    w.todo != [] && OnTree(w.todo[0]) && w.climb.q == w.todo[0].pos
    && Shape(o, t) && Wf(o, w.climb.q) && !Pending(o, t, w.climb.q)
  }

  /** There is one buddy operation at most. */
  ghost predicate OneOnTree(ss: seq<Store>) {
    forall s, t :: s in ss && t in ss && OnTree(s) && OnTree(t) ==> s == t
  }

  /** t1 is t, or t but for the status of a block that one of the stores marks. */
  ghost predicate OffByMark(t: seq<nat>, t1: seq<nat>, ss: seq<Store>) {
    t1 == t || exists s :: s in ss && s.TreeMark? && OffAt(t, t1, s.pos.index)
  }

  predicate OffAt(t: seq<nat>, t1: seq<nat>, k: nat) {
    k < |t| == |t1| && t1 == t[k := t1[k]]
  }

  /** The work leaves the tree t as it is, but may be putting a torn status right. */
  ghost predicate Mending(o: nat, t: seq<nat>, t1: seq<nat>, w: Work) {
    if w.climb.At? then t1 == t && AtRest(o, t, w) else OffByMark(t, t1, Kept(w.todo))
  }

  /** Every buddy operation still to make changes nothing in t. */
  ghost predicate StillAll(o: nat, t: seq<nat>, ss: seq<Store>) {
    Shape(o, t) && OneOnTree(ss) && forall s :: s in ss && OnTree(s) ==> Wf(o, s.pos) && Still(o, t, s)
  }

  /** Independent stores hold one buddy operation at most. */
  lemma OneTreeStore(ss: seq<Store>, k: nat)
    requires Independent(ss) && k < |ss| && OnTree(ss[k])
    ensures forall s :: s in ss && OnTree(s) ==> s == ss[k]
  {
    forall s | s in ss && OnTree(s) ensures s == ss[k] {
      var i :| 0 <= i < |ss| && ss[i] == s;
    }
  }

  lemma IndependentHasOne(ss: seq<Store>)
    requires Independent(ss)
    ensures OneOnTree(ss)
  {
    hide Independent;
    forall s, t | s in ss && t in ss && OnTree(s) && OnTree(t) ensures s == t {
      var k :| 0 <= k < |ss| && ss[k] == t;
      OneTreeStore(ss, k);
    }
  }

  lemma OnWayIsOnTree(o: nat, t: seq<nat>, s: Store, q: Pos)
    requires Shape(o, t) && OnWay(o, t, s, q)
    ensures OnTree(s) && Wf(o, q)
  {
  }

  lemma TornIsOnTree(o: nat, t: seq<nat>, climb: Climb, s: Store, t': seq<nat>)
    requires Shape(o, t) && Climbable(o, climb, s) && Torn(o, t, climb, s, t')
    ensures OnTree(s) && !s.Halt? && t' != t && (climb.At? ==> Pending(o, t, climb.q))
  {
  }

  lemma WorkIsStorable(o: nat, m: Meta, w: Work, m': Meta, w': Work)
    requires Shape(o, m.tree) && WorkStep(o, m, w, m', w')
    ensures w.todo != [] && Storable(o, w.todo[0]) && !w.todo[0].Halt?
  {
  }

  /** The first write of a buddy operation that changes nothing in t makes the tree t, and there is no other. */
  lemma StillStep(o: nat, t: seq<nat>, m: Meta, s: Store)
    requires Shape(o, t) && Shape(o, m.tree) && Storable(o, s) && OnTree(s) && Still(o, t, s)
    requires m.tree == t || (s.TreeMark? && OffAt(t, m.tree, s.pos.index))
    ensures var r := StoreNext(o, m, Ground, s);
            r.meta == m.(tree := t) && (!r.done ==> r.climb == At(s.pos) && !Pending(o, t, s.pos))
  {
    hide Pending, UpdateChain;
    var m0 := m.(tree := t);
    assert Apply(o, m0, s) == m0;
    StillSteps(o, m0, s);
    if s.TreeMark? {
      assert t[s.pos.index := Width(o, s.pos)] == t;
      assert m.tree[s.pos.index := Width(o, s.pos)] == t;
    }
  }

  /** One write of work that leaves the tree t as it is. */
  lemma MendingStep(o: nat, t: seq<nat>, m: Meta, w: Work, m': Meta, w': Work)
    requires Shape(o, m.tree) && WorkStep(o, m, w, m', w') && Mending(o, t, m.tree, w)
    requires w.climb.Ground? ==> StillAll(o, t, Kept(w.todo))
    ensures Mending(o, t, m'.tree, w')
    ensures if w.climb.At? then m' == m
            else if OnTree(w.todo[0]) then m' == m.(tree := t)
            else Storable(o, w.todo[0]) && m' == Apply(o, m, w.todo[0])
    ensures Rest(w') == if w.climb.At? then Rest(w) else w.todo[1..]
  {
    hide Pending, Apply, ParentStatus, UpdateChain, Still;
    if w.climb.Ground? {
      var s := w.todo[0];
      assert s in Kept(w.todo);
      if OnTree(s) {
        StillStep(o, t, m, s);
      } else {
        OffTree(o, m, s, m.tree);
      }
    }
  }

  /** A write of such work can only be torn where a mark rewrites the status of its block. */
  lemma MendingTear(o: nat, t: seq<nat>, m: Meta, w: Work, t': seq<nat>)
    requires Shape(o, m.tree) && Mending(o, t, m.tree, w) && (w.climb.Ground? ==> StillAll(o, t, Kept(w.todo)))
    requires w.todo != [] && Climbable(o, w.climb, w.todo[0]) && Torn(o, m.tree, w.climb, w.todo[0], t')
    ensures w.climb.Ground? && w.todo[0].TreeMark? && w.todo[0] in Kept(w.todo) && OffAt(t, t', w.todo[0].pos.index)
  {
    hide Pending, UpdateChain, ParentStatus;
    if w.climb.Ground? {
      var s := w.todo[0];
      assert s in Kept(w.todo);
      TornIsOnTree(o, m.tree, Ground, s, t');
      StillStep(o, t, m, s);
    }
  }

  lemma MendingEnds(o: nat, t: seq<nat>, t1: seq<nat>, w: Work)
    requires Mending(o, t, t1, w) && (w.todo == [] || w.todo[0].Halt?)
    ensures w.climb.Ground? && t1 == t
  {
  }

  lemma MendingIsOff(o: nat, t: seq<nat>, t1: seq<nat>, w: Work)
    requires Mending(o, t, t1, w)
    ensures if w.climb.At? then t1 == t else OffByMark(t, t1, Kept(w.todo))
  {
  }

  lemma RestAt(ss: seq<Store>, all: seq<Store>, i: nat)
    requires Suffix(ss, all) && i < |ss|
    ensures ss[i] == all[|all| - |ss| + i]
  {
  }

  lemma KeptOfRest(ss: seq<Store>, all: seq<Store>, s: Store)
    requires Suffix(ss, all) && (Halt in all ==> |all| - |ss| <= |Kept(all)|) && s in Kept(ss)
    ensures s in Kept(all)
  {
    hide Kept;
    KeptAll(all);
    var i :| 0 <= i < |Kept(ss)| && Kept(ss)[i] == s;
    var k, h := |all| - |ss|, |Kept(all)|;
    RestAt(ss, all, i);
    if Halt in all {
      RestAt(ss, all, h - k);
      assert h - k >= |Kept(ss)|;
    }
    assert Kept(all)[k + i] == all[k + i];
  }

  /** What is off by a store of the rest is off by one of the whole. */
  lemma OffByMore(t: seq<nat>, t1: seq<nat>, ss: seq<Store>, all: seq<Store>)
    requires OffByMark(t, t1, Kept(ss)) && Suffix(ss, all) && (Halt in all ==> |all| - |ss| <= |Kept(all)|)
    ensures OffByMark(t, t1, Kept(all))
  {
    hide OffAt;
    if t1 != t {
      var s :| s in Kept(ss) && s.TreeMark? && OffAt(t, t1, s.pos.index);
      KeptOfRest(ss, all, s);
    }
  }

  lemma StillRest(o: nat, t: seq<nat>, ss: seq<Store>, all: seq<Store>)
    requires StillAll(o, t, Kept(all)) && Suffix(ss, all) && (Halt in all ==> |all| - |ss| <= |Kept(all)|)
    ensures StillAll(o, t, Kept(ss))
  {
    hide Still, OnTree;
    forall s | s in Kept(ss) ensures s in Kept(all) {
      KeptOfRest(ss, all, s);
    }
  }
}
