/** The redo log: entries, how they are written store by store, and what executing one stores. */
module RedoLog {
  import opened BuddyPositions

  const REDOLOG_ENTRIES := 10
  const PROG_ID_SIZE := 12
  const NUM_OBJ_SLOTS := 340

  // Entry types.
  const INVALID := 0
  const BUDDY_ALLOC := 1
  const BUDDY_FREE := 2
  const VAL := 3
  const STR := 4
  const OBJ_HDR_ALLOC := 5
  const OBJ_HDR_FREE := 6
  const TWO_VAL_LOG := 7
  const COMMIT := 9

  // Field numbers of the payload. Those of an object header entry do not overlap.
  const FIELDS := 19
  const F_NAME := 5
  const F_MACHINE := 17
  const F_NAME_SIZE := 18
  const F_CHECKSUM := 0

  /** A log entry as it lies in memory: a type word and the payload fields. */
  datatype Raw = Raw(tp: nat, f: seq<nat>)

  type Entry = r: Raw | |r.f| == FIELDS witness Raw(INVALID, seq(FIELDS, _ => 0))

  const EMPTY: Entry := Raw(INVALID, [0, 0, 0, 0, 0, 0, 0, 0, 0, 0, 0, 0, 0, 0, 0, 0, 0, 0, 0])

  type Log = l: seq<Entry> | |l| == REDOLOG_ENTRIES witness seq(REDOLOG_ENTRIES, _ => EMPTY)

  /** What an entry asks for. Names are the stored bytes, terminator included. */
  datatype Op =
    | BuddyAlloc(pos: Pos)
    | BuddyFree(pos: Pos)
    | Val(off: nat, value: nat)
    | TwoVal(off1: nat, value1: nat, off2: nat, value2: nat)
    | Str(off: nat, text: seq<nat>)
    | HdrAlloc(rec: nat, obj: nat, length: nat, slot: nat, available: nat, name: seq<nat>, machine: nat)
    | HdrFree(rec: nat, slot: nat, available: nat)
    | Skip

  /** A NUL-terminated string that fits its field. */
  predicate CString(s: seq<nat>) {
    1 <= |s| <= PROG_ID_SIZE && s[|s| - 1] == 0 && forall i :: 0 <= i < |s| - 1 ==> s[i] != 0
  }

  predicate WfOp(op: Op) {
    && !op.Skip?
    && (op.Str? ==> CString(op.text))
    && (op.HdrAlloc? ==> CString(op.name))
  }

  function TypeOf(op: Op): nat {
    match op
    case BuddyAlloc(_) => BUDDY_ALLOC
    case BuddyFree(_) => BUDDY_FREE
    case Val(_, _) => VAL
    case TwoVal(_, _, _, _) => TWO_VAL_LOG
    case Str(_, _) => STR
    case HdrAlloc(_, _, _, _, _, _, _) => OBJ_HDR_ALLOC
    case HdrFree(_, _, _) => OBJ_HDR_FREE
    case Skip => INVALID
  }

  /** Successive fields from `k` on. */
  function Run(k: nat, s: seq<nat>): (r: seq<(nat, nat)>)
    ensures |r| == |s|
    ensures forall i :: 0 <= i < |r| ==> r[i] == (k + i, s[i])
  {
    seq(|s|, i requires 0 <= i < |s| => (k + i, s[i]))
  }

  /** The payload stores of the `set_*_log_entry` functions, in their order. */
  function FieldStores(op: Op): seq<(nat, nat)> {
    match op
    case BuddyAlloc(p) => [(0, p.index), (1, p.depth)]
    case BuddyFree(p) => [(0, p.index), (1, p.depth)]
    case Val(off, v) => [(0, off), (1, v)]
    case TwoVal(o1, v1, o2, v2) => [(0, o1), (1, v1), (2, o2), (3, v2)]
    case Str(off, s) => [(0, off)] + Run(1, s)
    case HdrAlloc(rec, obj, length, slot, available, name, machine) =>
      [(0, rec), (3, slot), (1, obj), (2, length), (4, available), (F_NAME_SIZE, |name|)]
      + Run(F_NAME, name) + [(F_MACHINE, machine)]
    case HdrFree(rec, slot, available) => [(0, rec), (1, slot), (2, available)]
    case Skip => []
  }

  /** The bytes up to and including the first zero, as `strlen` + 1 sees them. */
  function UpToNul(s: seq<nat>): seq<nat> {
    if s == [] then [] else if s[0] == 0 then [0] else [s[0]] + UpToNul(s[1..])
  }

  /** How `execute_log` reads an entry. */
  function Decode(e: Entry): Op {
    if e.tp == BUDDY_ALLOC then BuddyAlloc(Pos(e.f[0], e.f[1]))
    else if e.tp == BUDDY_FREE then BuddyFree(Pos(e.f[0], e.f[1]))
    else if e.tp == VAL then Val(e.f[0], e.f[1])
    else if e.tp == TWO_VAL_LOG then TwoVal(e.f[0], e.f[1], e.f[2], e.f[3])
    else if e.tp == STR then Str(e.f[0], UpToNul(e.f[1..1 + PROG_ID_SIZE]))
    else if e.tp == OBJ_HDR_ALLOC then
      var size := if e.f[F_NAME_SIZE] <= PROG_ID_SIZE then e.f[F_NAME_SIZE] else PROG_ID_SIZE;
      HdrAlloc(e.f[0], e.f[1], e.f[2], e.f[3], e.f[4], e.f[F_NAME..F_NAME + size], e.f[F_MACHINE])
    else if e.tp == OBJ_HDR_FREE then HdrFree(e.f[0], e.f[1], e.f[2])
    else Skip
  }

  // Writing entries -----------------------------------------------------------------------

  /** One store to the log. */
  datatype LogStore = SetType(i: nat, tp: nat) | SetField(i: nat, k: nat, v: nat) | Erase(i: nat)

  predicate InLog(s: LogStore) {
    s.i < REDOLOG_ENTRIES && (s.SetField? ==> s.k < FIELDS)
  }

  function Put(log: Log, s: LogStore): Log
    requires InLog(s)
  {
    match s
    case SetType(i, tp) => log[i := log[i].(tp := tp)]
    case SetField(i, k, v) => log[i := Raw(log[i].tp, log[i].f[k := v])]
    case Erase(i) => log[i := EMPTY]
  }

  function PutAll(log: Log, ss: seq<LogStore>): Log
    requires forall s :: s in ss ==> InLog(s)
    decreases |ss|
  {
    if ss == [] then log else PutAll(Put(log, ss[0]), ss[1..])
  }

  /** The stores of the builder for `op` at position `i`: type, payload, then the next entry is erased. */
  function EntryStores(i: nat, op: Op): (r: seq<LogStore>) {
    var fs := FieldStores(op);
    [SetType(i, TypeOf(op))]
    + seq(|fs|, j requires 0 <= j < |fs| => SetField(i, fs[j].0, fs[j].1))
    + (if i + 1 < REDOLOG_ENTRIES then [Erase(i + 1)] else [])
  }

  function PutFields(f: seq<nat>, fs: seq<(nat, nat)>): (r: seq<nat>)
    requires forall p :: p in fs ==> p.0 < |f|
    ensures |r| == |f|
    decreases |fs|
  {
    if fs == [] then f else PutFields(f[fs[0].0 := fs[0].1], fs[1..])
  }

  lemma {:induction false} FieldKept(f: seq<nat>, fs: seq<(nat, nat)>, k: nat)
    requires k < |f| && forall p :: p in fs ==> p.0 < |f| && p.0 != k
    ensures PutFields(f, fs)[k] == f[k]
    decreases |fs|
  {
    if fs != [] {
      FieldKept(f[fs[0].0 := fs[0].1], fs[1..], k);
    }
  }

  lemma {:induction false} FieldWritten(f: seq<nat>, fs: seq<(nat, nat)>, i: nat)
    requires i < |fs| && forall p :: p in fs ==> p.0 < |f|
    requires forall j :: i < j < |fs| ==> fs[j].0 != fs[i].0
    ensures PutFields(f, fs)[fs[i].0] == fs[i].1
    decreases |fs|
  {
    var f' := f[fs[0].0 := fs[0].1];
    if i == 0 {
      forall p | p in fs[1..] ensures p.0 != fs[0].0 {
        var j :| 0 <= j < |fs[1..]| && fs[1..][j] == p;
        assert fs[1 + j] == p;
      }
      FieldKept(f', fs[1..], fs[0].0);
    } else {
      forall j | i - 1 < j < |fs[1..]| ensures fs[1..][j].0 != fs[1..][i - 1].0 {
        assert fs[1..][j] == fs[1 + j];
      }
      FieldWritten(f', fs[1..], i - 1);
    }
  }

  predicate DistinctFields(fs: seq<(nat, nat)>) {
    && (forall i, j :: 0 <= i < j < |fs| ==> fs[i].0 != fs[j].0)
    && (forall i :: 0 <= i < |fs| ==> fs[i].0 < FIELDS)
  }

  lemma HeaderFieldsDistinct(op: Op)
    requires WfOp(op) && op.HdrAlloc?
    ensures DistinctFields(FieldStores(op))
  {
    var fs, n := FieldStores(op), |op.name|;
    assert fs[0].0 == 0 && fs[1].0 == 3 && fs[2].0 == 1 && fs[3].0 == 2 && fs[4].0 == 4;
    assert fs[5].0 == F_NAME_SIZE && fs[6 + n].0 == F_MACHINE;
    assert forall i :: 6 <= i < 6 + n ==> fs[i].0 == F_NAME + (i - 6);
  }

  lemma FieldStoresDistinct(op: Op)
    requires WfOp(op)
    ensures DistinctFields(FieldStores(op))
  {
    if op.HdrAlloc? {
      HeaderFieldsDistinct(op);
    } else if op.Str? {
      TextFieldsDistinct(op);
    }
  }

  lemma TextFieldsDistinct(op: Op)
    requires WfOp(op) && op.Str?
    ensures DistinctFields(FieldStores(op))
  {
    assert forall i :: 0 <= i < |FieldStores(op)| ==> FieldStores(op)[i].0 == i;
  }

  /** The payload of `e` once the builder for `op` has stored to it. */
  function BuiltFields(e: Entry, op: Op): (f: seq<nat>)
    requires WfOp(op)
    ensures |f| == FIELDS
  {
    FieldStoresDistinct(op);
    PutFields(e.f, FieldStores(op))
  }

  lemma FieldReadBack(e: Entry, op: Op, i: nat)
    requires WfOp(op) && i < |FieldStores(op)|
    ensures FieldStores(op)[i].0 < FIELDS
    ensures BuiltFields(e, op)[FieldStores(op)[i].0] == FieldStores(op)[i].1
  {
    FieldStoresDistinct(op);
    FieldWritten(e.f, FieldStores(op), i);
  }

  /** Whatever was in the entry before, after the builder's stores it decodes to `op`. */
  lemma BuiltEntryDecodes(e: Entry, op: Op)
    requires WfOp(op)
    ensures Decode(Raw(TypeOf(op), BuiltFields(e, op))) == op
  {
    match op {
      case HdrAlloc(_, _, _, _, _, _, _) =>
        BuiltHeaderDecodes(e, op);
      case Str(_, _) =>
        BuiltTextDecodes(e, op);
      case TwoVal(_, _, _, _) =>
        FieldReadBack(e, op, 0); FieldReadBack(e, op, 1); FieldReadBack(e, op, 2); FieldReadBack(e, op, 3);
      case HdrFree(_, _, _) =>
        FieldReadBack(e, op, 0); FieldReadBack(e, op, 1); FieldReadBack(e, op, 2);
      case BuddyAlloc(_) =>
        FieldReadBack(e, op, 0); FieldReadBack(e, op, 1);
      case BuddyFree(_) =>
        FieldReadBack(e, op, 0); FieldReadBack(e, op, 1);
      case Val(_, _) =>
        FieldReadBack(e, op, 0); FieldReadBack(e, op, 1);
      case Skip =>
    }
  }

  lemma BuiltHeaderDecodes(e: Entry, op: Op)
    requires WfOp(op) && op.HdrAlloc?
    ensures Decode(Raw(OBJ_HDR_ALLOC, BuiltFields(e, op))) == op
  {
    var f, n := BuiltFields(e, op), |op.name|;
    FieldReadBack(e, op, 0); FieldReadBack(e, op, 1); FieldReadBack(e, op, 2);
    FieldReadBack(e, op, 3); FieldReadBack(e, op, 4); FieldReadBack(e, op, 5);
    FieldReadBack(e, op, 6 + n);
    forall i | 0 <= i < n ensures f[F_NAME + i] == op.name[i] {
      FieldReadBack(e, op, 6 + i);
    }
    assert f[F_NAME..F_NAME + n] == op.name;
  }

  lemma BuiltTextDecodes(e: Entry, op: Op)
    requires WfOp(op) && op.Str?
    ensures Decode(Raw(STR, BuiltFields(e, op))) == op
  {
    var f := BuiltFields(e, op);
    FieldReadBack(e, op, 0);
    forall i | 0 <= i < |op.text| ensures f[1 + i] == op.text[i] {
      FieldReadBack(e, op, 1 + i);
    }
    TextReadBack(f[1..1 + PROG_ID_SIZE], op.text);
  }

  lemma {:induction false} TextReadBack(bytes: seq<nat>, s: seq<nat>)
    requires 1 <= |s| <= |bytes| && s[|s| - 1] == 0 && forall i :: 0 <= i < |s| - 1 ==> s[i] != 0
    requires forall i :: 0 <= i < |s| ==> bytes[i] == s[i]
    ensures UpToNul(bytes) == s
    decreases |s|
  {
    if |s| > 1 {
      TextReadBack(bytes[1..], s[1..]);
      assert s == [s[0]] + s[1..];
    } else {
      assert s == [0];
    }
  }
}
