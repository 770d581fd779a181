/** The metadata that the log protects, and the stores that executing an entry makes. */
module MetaStores {
  import opened BuddyPositions
  import opened BuddyStatus
  import opened RedoLog

  // Byte offsets inside an obj_allocation_records block and inside an obj_header.
  const OFF_AVAILABLE := 60
  const OFF_HEADERS := 64
  const SIZEOF_HEADER := 48
  const OFF_NEXT := 0
  const OFF_PREV := 8
  const OFF_MACHINE := 16
  const OFF_SLOT_ID := 18
  const OFF_PROG_ID := 20
  const OFF_OBJ := 32
  const OFF_LENGTH := 40

  /** Offset of header `slot` of the record block at `rec`. */
  function Header(rec: nat, slot: nat): nat {
    rec + OFF_HEADERS + SIZEOF_HEADER * slot
  }

  /**
   The protected state: the status array of the buddy tree, the memory fields by their byte
   offset in shared memory, and the set bits of the slot maps, as (record block, slot).
   */
  datatype Meta = Meta(tree: seq<nat>, words: map<nat, nat>, slots: set<(nat, nat)>)

  /** One store, a buddy operation counting as one, or the halt at a null pointer. */
  datatype Store =
    | Word(addr: nat, value: nat)
    | SlotBit(rec: nat, slot: nat, on: bool)
    | TreeMark(pos: Pos)
    | TreeRelease(pos: Pos)
    | Halt

  /** Buddy operations are on positions of the tree. */
  predicate Placed(o: nat, s: Store) {
    (s.TreeMark? || s.TreeRelease?) ==> Wf(o, s.pos)
  }

  predicate Storable(o: nat, s: Store) {
    !s.Halt? && Placed(o, s)
  }

  function Apply(o: nat, m: Meta, s: Store): (r: Meta)
    requires Shape(o, m.tree) && Storable(o, s)
    ensures Shape(o, r.tree)
  {
    match s
    case Word(addr, value) => m.(words := m.words[addr := value])
    case SlotBit(rec, slot, on) =>
      m.(slots := if on then m.slots + {(rec, slot)} else m.slots - {(rec, slot)})
    case TreeMark(p) => m.(tree := Mark(o, m.tree, p))
    case TreeRelease(p) => m.(tree := Release(o, m.tree, p))
  }

  function ApplyAll(o: nat, m: Meta, ss: seq<Store>): (r: Meta)
    requires Shape(o, m.tree) && forall s :: s in ss ==> Storable(o, s)
    ensures Shape(o, r.tree)
    decreases |ss|
  {
    if ss == [] then m else ApplyAll(o, Apply(o, m, ss[0]), ss[1..])
  }

  function Bytes(at: nat, text: seq<nat>): (r: seq<Store>)
    ensures |r| == |text|
    ensures forall i :: 0 <= i < |r| ==> r[i] == Word(at + i, text[i])
  {
    seq(|text|, i requires 0 <= i < |text| => Word(at + i, text[i]))
  }

  /** The stores `execute_log` makes for one entry, in its order. Some pointers it checks first. */
  function StoresOf(op: Op): seq<Store> {
    match op
    case BuddyAlloc(p) => [TreeMark(p)]
    case BuddyFree(p) => [TreeRelease(p)]
    case Val(off, v) => [Word(off, v)]
    case TwoVal(o1, v1, o2, v2) =>
      if o1 == 0 then [Halt] else if o2 == 0 then [Word(o1, v1), Halt] else [Word(o1, v1), Word(o2, v2)]
    case Str(off, text) => Bytes(off, text)
    case HdrAlloc(rec, obj, length, slot, available, name, machine) =>
      var h := Header(rec, slot);
      if rec == 0 then [Halt] else
      [SlotBit(rec, slot, true), Word(rec + OFF_AVAILABLE, available), Word(h + OFF_OBJ, obj),
       Word(h + OFF_LENGTH, length), Word(h + OFF_MACHINE, machine), Word(h + OFF_SLOT_ID, slot)]
      + Bytes(h + OFF_PROG_ID, name)
    case HdrFree(rec, slot, available) =>
      if rec == 0 then [Halt] else [SlotBit(rec, slot, false), Word(rec + OFF_AVAILABLE, available)]
    case Skip => []
  }

  function AllStores(ops: seq<Op>): seq<Store> {
    if ops == [] then [] else StoresOf(ops[0]) + AllStores(ops[1..])
  }

  lemma AllStoresCons(op: Op, rest: seq<Op>)
    ensures AllStores([op] + rest) == StoresOf(op) + AllStores(rest)
  {
    assert ([op] + rest)[1..] == rest;
  }

  // Running into a halt ---------------------------------------------------------------------

  ghost predicate AllPlaced(o: nat, ss: seq<Store>) {
    forall s :: s in ss ==> Placed(o, s)
  }

  /** The stores before the first halt. */
  function Kept(ss: seq<Store>): (r: seq<Store>)
    ensures |r| <= |ss|
    ensures forall k :: 0 <= k < |r| ==> r[k] == ss[k] && !ss[k].Halt?
    ensures |r| < |ss| ==> ss[|r|].Halt?
    decreases |ss|
  {
    if ss == [] || ss[0].Halt? then [] else [ss[0]] + Kept(ss[1..])
  }

  /** What running the stores leaves: the state, and whether it came to a halt. */
  datatype Outcome = Outcome(meta: Meta, halted: bool)

  function RunStores(o: nat, m: Meta, ss: seq<Store>): Outcome
    requires Shape(o, m.tree) && AllPlaced(o, ss)
  {
    Outcome(ApplyAll(o, m, Kept(ss)), |Kept(ss)| < |ss|)
  }

  lemma KeptAll(ss: seq<Store>)
    ensures |Kept(ss)| == |ss| ==> Kept(ss) == ss
    ensures |Kept(ss)| == |ss| <==> Halt !in ss
  {
    if |Kept(ss)| < |ss| {
      assert ss[|Kept(ss)|] == Halt;
    }
  }

  /** A run comes to a halt exactly when one of its stores is one; otherwise it makes all of them. */
  lemma RunStoresExact(o: nat, m: Meta, ss: seq<Store>)
    requires Shape(o, m.tree) && AllPlaced(o, ss)
    ensures RunStores(o, m, ss).halted <==> Halt in ss
    ensures Halt !in ss <==> AllStorable(o, ss)
    ensures AllStorable(o, ss) ==> RunStores(o, m, ss) == Outcome(ApplyAll(o, m, ss), false)
  {
    KeptAll(ss);
  }

  /** The entries that `execute_log` cannot execute: a pointer that it checks is null. */
  predicate HasNull(op: Op) {
    || (op.TwoVal? && (op.off1 == 0 || op.off2 == 0))
    || ((op.HdrAlloc? || op.HdrFree?) && op.rec == 0)
  }

  /** Executing a list of entries halts if and only if one of them has a null pointer. */
  lemma {:induction false} HaltsAtNull(ops: seq<Op>)
    ensures Halt in AllStores(ops) <==> exists k :: 0 <= k < |ops| && HasNull(ops[k])
    decreases |ops|
  {
    if ops != [] {
      HaltsAtNull(ops[1..]);
      assert forall k :: 0 <= k < |ops| - 1 ==> ops[1..][k] == ops[k + 1];
      assert Halt in StoresOf(ops[0]) <==> HasNull(ops[0]) by { OneHalt(ops[0]); }
      if Halt in AllStores(ops[1..]) {
        var k :| 0 <= k < |ops| - 1 && HasNull(ops[1..][k]);
        assert HasNull(ops[k + 1]);
      }
      if k :| 1 <= k < |ops| && HasNull(ops[k]) {
        assert HasNull(ops[1..][k - 1]);
      }
    }
  }

  lemma OneHalt(op: Op)
    ensures Halt in StoresOf(op) <==> HasNull(op)
  {
    if op.TwoVal? && op.off2 == 0 && op.off1 != 0 {
      assert StoresOf(op)[1] == Halt;
    } else if HasNull(op) {
      assert StoresOf(op)[0] == Halt;
    }
  }

  lemma {:induction false} KeptJoin(a: seq<Store>, b: seq<Store>)
    ensures Kept(a + b) == if Halt in a then Kept(a) else a + Kept(b)
    decreases |a|
  {
    if a == [] {
      assert a + b == b;
    } else if !a[0].Halt? {
      assert (a + b)[1..] == a[1..] + b && a == [a[0]] + a[1..];
      KeptJoin(a[1..], b);
    }
  }

  // Replay ----------------------------------------------------------------------------------

  /** Two stores to different places. The whole tree is one place. */
  predicate Apart(s: Store, t: Store) {
    match (s, t)
    case (Word(a, _), Word(b, _)) => a != b
    case (SlotBit(r, i, _), SlotBit(q, j, _)) => (r, i) != (q, j)
    case (Word(_, _), _) => true
    case (SlotBit(_, _, _), _) => true
    case (_, Word(_, _)) => true
    case (_, SlotBit(_, _, _)) => true
    case _ => false
  }

  predicate Independent(ss: seq<Store>) {
    forall i, j :: 0 <= i < j < |ss| ==> Apart(ss[i], ss[j])
  }

  lemma ApplyTwice(o: nat, m: Meta, s: Store)
    requires Shape(o, m.tree) && Storable(o, s)
    ensures Apply(o, Apply(o, m, s), s) == Apply(o, m, s)
  {
    match s {
      case TreeMark(p) => MarkIdempotent(o, m.tree, p);
      case TreeRelease(p) => ReleaseIdempotent(o, m.tree, p);
      case Word(_, _) =>
      case SlotBit(_, _, _) =>
    }
  }

  lemma ApplyCommutes(o: nat, m: Meta, s: Store, t: Store)
    requires Shape(o, m.tree) && Storable(o, s) && Storable(o, t) && Apart(s, t)
    ensures Apply(o, Apply(o, m, s), t) == Apply(o, Apply(o, m, t), s)
  {
    if s.Word? && t.Word? {
      assert m.words[s.addr := s.value][t.addr := t.value] == m.words[t.addr := t.value][s.addr := s.value];
    } else if s.SlotBit? && t.SlotBit? {
      var x, y := (s.rec, s.slot), (t.rec, t.slot);
      assert x != y;
      assert Apply(o, Apply(o, m, s), t).slots == Apply(o, Apply(o, m, t), s).slots;
    }
  }

  predicate AllStorable(o: nat, ss: seq<Store>) {
    forall s :: s in ss ==> Storable(o, s)
  }

  /** A store made early is absorbed by the full run that contains it. */
  lemma {:induction false} EarlyStoreAbsorbed(o: nat, m: Meta, ss: seq<Store>, i: nat)
    requires Shape(o, m.tree) && AllStorable(o, ss) && Independent(ss) && i < |ss|
    ensures ApplyAll(o, Apply(o, m, ss[i]), ss) == ApplyAll(o, m, ss)
    decreases |ss|
  {
    var h, rest := ss[0], ss[1..];
    if i == 0 {
      ApplyTwice(o, m, h);
    } else {
      assert rest[i - 1] == ss[i];
      ApplyCommutes(o, m, h, ss[i]);
      EarlyStoreAbsorbed(o, Apply(o, m, h), rest, i - 1);
    }
  }

  /** A late store commutes back through stores to other places. */
  lemma {:induction false} LateStoreCommutes(o: nat, m: Meta, ss: seq<Store>, s: Store)
    requires Shape(o, m.tree) && AllStorable(o, ss) && Storable(o, s)
    requires forall i :: 0 <= i < |ss| ==> Apart(s, ss[i])
    ensures Apply(o, ApplyAll(o, m, ss), s) == ApplyAll(o, Apply(o, m, s), ss)
    decreases |ss|
  {
    if ss != [] {
      ApplyCommutes(o, m, s, ss[0]);
      LateStoreCommutes(o, Apply(o, m, ss[0]), ss[1..], s);
    }
  }

  /** After a full run, each of its stores changes nothing any more. */
  lemma {:induction false} LateStoreAbsorbed(o: nat, m: Meta, ss: seq<Store>, i: nat)
    requires Shape(o, m.tree) && AllStorable(o, ss) && Independent(ss) && i < |ss|
    ensures Apply(o, ApplyAll(o, m, ss), ss[i]) == ApplyAll(o, m, ss)
    decreases |ss|
  {
    var h, rest := ss[0], ss[1..];
    if i == 0 {
      LateStoreCommutes(o, Apply(o, m, h), rest, h);
      ApplyTwice(o, m, h);
    } else {
      assert rest[i - 1] == ss[i];
      LateStoreAbsorbed(o, Apply(o, m, h), rest, i - 1);
    }
  }

  lemma {:induction false} ApplySplit(o: nat, m: Meta, a: seq<Store>, b: seq<Store>)
    requires Shape(o, m.tree) && AllStorable(o, a) && AllStorable(o, b)
    ensures AllStorable(o, a + b)
    ensures ApplyAll(o, m, a + b) == ApplyAll(o, ApplyAll(o, m, a), b)
    decreases |a|
  {
    if a == [] {
      assert a + b == b;
    } else {
      assert (a + b)[1..] == a[1..] + b;
      ApplySplit(o, Apply(o, m, a[0]), a[1..], b);
    }
  }

  /** A replay from any interrupted state ends where the uninterrupted run ends. */
  lemma {:induction false} ReplayFromCut(o: nat, m: Meta, ss: seq<Store>, k: nat)
    requires Shape(o, m.tree) && AllStorable(o, ss) && Independent(ss) && k <= |ss|
    ensures ApplyAll(o, ApplyAll(o, m, ss[..k]), ss) == ApplyAll(o, m, ss)
    decreases k
  {
    if k > 0 {
      ReplayFromCut(o, m, ss, k - 1);
      var before := ApplyAll(o, m, ss[..k - 1]);
      assert ss[..k] == ss[..k - 1] + [ss[k - 1]];
      ApplySplit(o, m, ss[..k - 1], [ss[k - 1]]);
      assert ApplyAll(o, before, [ss[k - 1]]) == Apply(o, before, ss[k - 1]);
      EarlyStoreAbsorbed(o, before, ss, k - 1);
    } else {
      assert ss[..0] == [];
    }
  }

  /** A word no store of the run goes to keeps its value. */
  lemma {:induction false} WordKept(o: nat, m: Meta, ss: seq<Store>, a: nat)
    requires Shape(o, m.tree) && AllStorable(o, ss)
    requires forall i :: 0 <= i < |ss| ==> !(ss[i].Word? && ss[i].addr == a)
    ensures var w := ApplyAll(o, m, ss).words;
            (a in w <==> a in m.words) && (a in w ==> w[a] == m.words[a])
    decreases |ss|
  {
    if ss != [] {
      WordKept(o, Apply(o, m, ss[0]), ss[1..], a);
    }
  }

  /** A word that a store of the run goes to has that store's value at the end. */
  lemma WordLands(o: nat, m: Meta, ss: seq<Store>, i: nat)
    requires Shape(o, m.tree) && AllStorable(o, ss) && Independent(ss) && i < |ss| && ss[i].Word?
    ensures var w := ApplyAll(o, m, ss).words; ss[i].addr in w && w[ss[i].addr] == ss[i].value
  {
    LateStoreAbsorbed(o, m, ss, i);
    var r := ApplyAll(o, m, ss);
    assert Apply(o, r, ss[i]).words == r.words[ss[i].addr := ss[i].value];
  }

  /** Stores to words leave the tree and the slot bits alone. */
  lemma {:induction false} WordsOnly(o: nat, m: Meta, ss: seq<Store>)
    requires Shape(o, m.tree) && AllStorable(o, ss) && forall i :: 0 <= i < |ss| ==> ss[i].Word?
    ensures ApplyAll(o, m, ss).tree == m.tree && ApplyAll(o, m, ss).slots == m.slots
    decreases |ss|
  {
    if ss != [] {
      WordsOnly(o, Apply(o, m, ss[0]), ss[1..]);
    }
  }

  function TextAt(off: nat, text: seq<nat>): map<nat, nat> {
    var k := |text| - 1;
    if text == [] then map[] else TextAt(off, text[..k])[off + k := text[k]]
  }

  /** The words that a value, a pair of values or a string asks for. */
  function Asked(op: Op): map<nat, nat>
    requires op.Val? || op.TwoVal? || op.Str?
  {
    match op
    case Val(off, v) => map[off := v]
    case TwoVal(o1, v1, o2, v2) => map[o1 := v1][o2 := v2]
    case Str(off, text) => TextAt(off, text)
  }

  /** Such an entry without a null pointer makes its words what it asks for, and changes nothing else. */
  lemma WritesAsked(o: nat, m: Meta, op: Op)
    requires Shape(o, m.tree) && (op.Val? || op.TwoVal? || op.Str?) && !HasNull(op)
    ensures AllStorable(o, StoresOf(op)) && ApplyAll(o, m, StoresOf(op)) == m.(words := m.words + Asked(op))
  {
    var ss := StoresOf(op);
    WordsOnly(o, m, ss);
    var w := ApplyAll(o, m, ss).words;
    if op.Str? {
      TextLands(o, m, op.off, op.text);
    } else if op.TwoVal? {
      ApplySplit(o, m, [ss[0]], [ss[1]]);
      assert ss == [ss[0]] + [ss[1]];
      assert w == Apply(o, Apply(o, m, ss[0]), ss[1]).words;
    } else {
      assert w == Apply(o, m, ss[0]).words;
    }
    assert w == m.words + Asked(op);
  }

  lemma {:induction false} TextLands(o: nat, m: Meta, off: nat, text: seq<nat>)
    requires Shape(o, m.tree)
    ensures ApplyAll(o, m, Bytes(off, text)).words == m.words + TextAt(off, text)
    decreases |text|
  {
    if text != [] {
      var k := |text| - 1;
      var last := Word(off + k, text[k]);
      TextLands(o, m, off, text[..k]);
      ApplySplit(o, m, Bytes(off, text[..k]), [last]);
      assert Bytes(off, text) == Bytes(off, text[..k]) + [last];
    }
  }
}
