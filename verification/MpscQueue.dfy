/** The bounded queue with many producers and one consumer; each atomic operation is one step. */
module MpscQueue {

  const SIZE := 32
  const EMPTY := -1

  datatype Pc = Idle | Claim | Undo | Ticket | Write

  /** A producer in `mpscq_enqueue`: the data it brings and, once it has one, its ticket. */
  datatype Producer = Producer(pc: Pc, data: int, ticket: nat)

  /**
   The queue, its producers, and whether the consumer has yet to give back its count. History: the
   value brought for each ticket, whether it is stored yet, and the values dequeued so far.
   */
  datatype State = State(buffer: seq<int>, count: int, head: nat, tail: nat, producers: seq<Producer>, owing: bool,
                         values: seq<int>, stored: seq<bool>, out: seq<int>)

  ghost predicate Init(n: nat, st: State) {
    && |st.buffer| == SIZE && (forall j :: 0 <= j < SIZE ==> st.buffer[j] == EMPTY)
    && st.count == 0 && st.head == 0 && st.tail == 0 && !st.owing
    && |st.producers| == n && (forall p :: 0 <= p < n ==> st.producers[p].pc == Idle)
    && st.values == [] && st.stored == [] && st.out == []
  }

  ghost predicate Shape(n: nat, st: State) {
    && |st.buffer| == SIZE && |st.producers| == n && st.tail < SIZE
    && |st.values| == |st.stored| == st.head && |st.out| <= st.head
    && forall p :: 0 <= p < n ==> st.producers[p].pc.Write? ==> st.producers[p].ticket < st.head
  }

  /** One step of producer p; an idle one calls `mpscq_enqueue` with `data`. */
  function Produce(n: nat, st: State, p: nat, data: int): State
    requires Shape(n, st) && p < n
  {
    var q := st.producers[p];
    match q.pc
    case Idle => st.(producers := st.producers[p := q.(pc := Claim, data := data)])
    case Claim =>
      st.(count := st.count + 1,
          producers := st.producers[p := q.(pc := if st.count >= SIZE then Undo else Ticket)])
    case Undo => st.(count := st.count - 1, producers := st.producers[p := q.(pc := Idle)])
    case Ticket =>
      st.(head := st.head + 1, producers := st.producers[p := q.(pc := Write, ticket := st.head)],
          values := st.values + [q.data], stored := st.stored + [false])
    case Write =>
      st.(buffer := st.buffer[q.ticket % SIZE := q.data], producers := st.producers[p := q.(pc := Idle)],
          stored := st.stored[q.ticket := true])
  }

  /** One step of the consumer in `mpscq_dequeue`: the exchange with its tail move, or the count. */
  function Consume(n: nat, st: State): State
    requires Shape(n, st)
  {
    if st.owing then st.(count := st.count - 1, owing := false)
    else if st.buffer[st.tail] == EMPTY then st
    else st.(buffer := st.buffer[st.tail := EMPTY], tail := if st.tail + 1 >= SIZE then 0 else st.tail + 1,
             owing := true, out := st.out + [st.buffer[st.tail]])
  }

  ghost predicate Next(n: nat, st: State, st': State) {
    && Shape(n, st)
    && (|| st' == Consume(n, st)
        || exists p: nat, data: int :: p < n && data != EMPTY && st' == Produce(n, st, p, data))
  }

  // Counting producers --------------------------------------------------------------------------------

  function Count(ps: seq<Producer>, pc: Pc): nat {
    if ps == [] then 0 else Count(ps[..|ps| - 1], pc) + if ps[|ps| - 1].pc == pc then 1 else 0
  }

  lemma {:induction false} CountUpdate(ps: seq<Producer>, i: nat, q: Producer, pc: Pc)
    requires i < |ps|
    ensures Count(ps[i := q], pc) == Count(ps, pc) - (if ps[i].pc == pc then 1 else 0) + (if q.pc == pc then 1 else 0)
    decreases |ps|
  {
    var n := |ps| - 1;
    if i < n {
      CountUpdate(ps[..n], i, q, pc);
      assert ps[i := q][..n] == ps[..n][i := q];
    } else {
      assert ps[i := q][..n] == ps[..n];
    }
  }

  lemma {:induction false} CountZero(ps: seq<Producer>, pc: Pc)
    requires forall p :: 0 <= p < |ps| ==> ps[p].pc != pc
    ensures Count(ps, pc) == 0
    decreases |ps|
  {
    if ps != [] {
      CountZero(ps[..|ps| - 1], pc);
    }
  }

  // Invariant -------------------------------------------------------------------------------------------

  function Taken(st: State): nat { |st.out| }

  function Owing(st: State): nat { if st.owing then 1 else 0 }

  /** The count is exactly the calls that hold a place: refused ones that have yet to give it back, admitted
      ones without a ticket, tickets not dequeued, and a dequeue that has yet to give it back. */
  ghost predicate Counted(st: State) {
    && st.count == Count(st.producers, Undo) + Count(st.producers, Ticket) + (st.head - Taken(st)) + Owing(st)
    && Count(st.producers, Ticket) + (st.head - Taken(st)) + Owing(st) <= SIZE
  }

  /** Slot of ticket i within the window from the next to dequeue: its value once stored, else empty. */
  ghost predicate SlotAt(n: nat, st: State, i: nat)
    requires Shape(n, st)
  {
    st.buffer[i % SIZE] == if i < st.head && st.stored[i] then st.values[i] else EMPTY
  }

  ghost predicate ProducerAt(n: nat, st: State, p: nat)
    requires Shape(n, st) && p < n
  {
    var q := st.producers[p];
    && (q.pc != Idle ==> q.data != EMPTY)
    && (q.pc.Write? ==> !st.stored[q.ticket] && st.values[q.ticket] == q.data)
  }

  ghost predicate Inv(n: nat, st: State) {
    && Shape(n, st) && Counted(st) && st.tail == Taken(st) % SIZE
    && (forall i :: 0 <= i < st.head ==> st.values[i] != EMPTY)
    && (forall i :: 0 <= i < Taken(st) ==> st.stored[i] && st.out[i] == st.values[i])
    && (forall i :: Taken(st) <= i < Taken(st) + SIZE ==> SlotAt(n, st, i))
    && (forall p :: 0 <= p < n ==> ProducerAt(n, st, p))
    && (forall p, q :: 0 <= p < q < n && st.producers[p].pc.Write? && st.producers[q].pc.Write? ==>
          st.producers[p].ticket != st.producers[q].ticket)
  }

  lemma InitInv(n: nat, st: State)
    requires Init(n, st)
    ensures Inv(n, st)
  {
    CountZero(st.producers, Undo);
    CountZero(st.producers, Ticket);
  }

  lemma ProduceCounted(n: nat, st: State, p: nat, data: int)
    requires Inv(n, st) && p < n
    ensures Counted(Produce(n, st, p, data))
  {
    var q := Produce(n, st, p, data).producers[p];
    CountUpdate(st.producers, p, q, Undo);
    CountUpdate(st.producers, p, q, Ticket);
  }

  /** A ticket is handed out only while fewer than SIZE are outstanding. */
  lemma TicketFits(n: nat, st: State, p: nat)
    requires Inv(n, st) && p < n && st.producers[p].pc.Ticket?
    ensures st.head < Taken(st) + SIZE
  {
    var q := st.producers[p].(pc := Idle);
    CountUpdate(st.producers, p, q, Ticket);
  }

  lemma TicketKeepsInv(n: nat, st: State, p: nat, data: int)
    requires Inv(n, st) && p < n && st.producers[p].pc.Ticket?
    ensures Inv(n, Produce(n, st, p, data))
  {
    var st' := Produce(n, st, p, data);
    TicketFits(n, st, p);
    ProduceCounted(n, st, p, data);
    assert ProducerAt(n, st, p);
    forall i | Taken(st) <= i < Taken(st) + SIZE ensures SlotAt(n, st', i) {
      assert SlotAt(n, st, i);
    }
    forall q | 0 <= q < n ensures ProducerAt(n, st', q) {
      assert ProducerAt(n, st, q);
    }
  }

  lemma WriteKeepsInv(n: nat, st: State, p: nat, data: int)
    requires Inv(n, st) && p < n && st.producers[p].pc.Write?
    ensures Inv(n, Produce(n, st, p, data))
  {
    var st', t := Produce(n, st, p, data), st.producers[p].ticket;
    ProduceCounted(n, st, p, data);
    assert ProducerAt(n, st, p);
    assert t >= Taken(st);
    forall i | Taken(st) <= i < Taken(st) + SIZE ensures SlotAt(n, st', i) {
      assert SlotAt(n, st, i);
    }
    forall q | 0 <= q < n ensures ProducerAt(n, st', q) {
      assert ProducerAt(n, st, q);
    }
  }

  lemma OtherKeepsInv(n: nat, st: State, p: nat, data: int)
    requires Inv(n, st) && p < n && data != EMPTY && !st.producers[p].pc.Write? && !st.producers[p].pc.Ticket?
    ensures Inv(n, Produce(n, st, p, data))
  {
    var st' := Produce(n, st, p, data);
    ProduceCounted(n, st, p, data);
    forall i | Taken(st) <= i < Taken(st) + SIZE ensures SlotAt(n, st', i) {
      assert SlotAt(n, st, i);
    }
    forall q | 0 <= q < n ensures ProducerAt(n, st', q) {
      assert ProducerAt(n, st, q);
    }
  }

  lemma TakeKeepsSlots(n: nat, st: State, i: nat)
    requires Inv(n, st) && !st.owing && st.buffer[st.tail] != EMPTY
    requires Taken(st) < i <= Taken(st) + SIZE && Shape(n, Consume(n, st))
    ensures SlotAt(n, Consume(n, st), i)
  {
    assert i < Taken(st) + SIZE ==> SlotAt(n, st, i);
  }

  lemma NextSlot(d: nat)
    ensures (d + 1) % SIZE == if d % SIZE + 1 >= SIZE then 0 else d % SIZE + 1
  {
  }

  lemma TakeKeepsInv(n: nat, st: State)
    requires Inv(n, st) && !st.owing && st.buffer[st.tail] != EMPTY
    ensures Inv(n, Consume(n, st))
  {
    var st', d := Consume(n, st), Taken(st);
    assert SlotAt(n, st, d);
    NextSlot(d);
    forall i | d + 1 <= i < d + 1 + SIZE ensures SlotAt(n, st', i) {
      TakeKeepsSlots(n, st, i);
    }
    forall q | 0 <= q < n ensures ProducerAt(n, st', q) {
      assert ProducerAt(n, st, q);
    }
  }

  lemma ConsumeKeepsInv(n: nat, st: State)
    requires Inv(n, st)
    ensures Inv(n, Consume(n, st))
  {
    var st' := Consume(n, st);
    if !st.owing && st.buffer[st.tail] != EMPTY {
      TakeKeepsInv(n, st);
    } else {
      forall i | Taken(st) <= i < Taken(st) + SIZE ensures SlotAt(n, st', i) {
        assert SlotAt(n, st, i);
      }
      forall q | 0 <= q < n ensures ProducerAt(n, st', q) {
        assert ProducerAt(n, st, q);
      }
    }
  }

  // Runs ----------------------------------------------------------------------------------------------------

  ghost predicate IsRun(n: nat, run: seq<State>) {
    |run| > 0 && Init(n, run[0]) && forall i :: 0 <= i < |run| - 1 ==> Next(n, run[i], run[i + 1])
  }

  lemma {:induction false} RunInv(n: nat, run: seq<State>, i: nat)
    requires IsRun(n, run) && i < |run|
    ensures Inv(n, run[i])
    decreases i
  {
    if i == 0 {
      InitInv(n, run[0]);
    } else {
      RunInv(n, run, i - 1);
      var st := run[i - 1];
      assert Next(n, st, run[i - 1 + 1]);
      if run[i] == Consume(n, st) {
        ConsumeKeepsInv(n, st);
      } else {
        var p: nat, data: int :| p < n && data != EMPTY && run[i] == Produce(n, st, p, data);
        if st.producers[p].pc.Ticket? {
          TicketKeepsInv(n, st, p, data);
        } else if st.producers[p].pc.Write? {
          WriteKeepsInv(n, st, p, data);
        } else {
          OtherKeepsInv(n, st, p, data);
        }
      }
    }
  }

  /** Nothing is overwritten: the slot of a ticket is empty when its producer stores to it. */
  lemma NoOverwrite(n: nat, run: seq<State>, i: nat, p: nat)
    requires IsRun(n, run) && i < |run| && p < n
    ensures Shape(n, run[i])
    ensures run[i].producers[p].pc.Write? ==> run[i].buffer[run[i].producers[p].ticket % SIZE] == EMPTY
  {
    RunInv(n, run, i);
    var st := run[i];
    if st.producers[p].pc.Write? {
      assert ProducerAt(n, st, p);
      assert SlotAt(n, st, st.producers[p].ticket);
    }
  }

  /** What was dequeued is exactly the values of the first tickets, in ticket order: none lost, none twice. */
  lemma DequeuedInTicketOrder(n: nat, run: seq<State>, i: nat)
    requires IsRun(n, run) && i < |run|
    ensures run[i].out <= run[i].values
  {
    RunInv(n, run, i);
    var st := run[i];
    assert st.out == st.values[..|st.out|];
  }

  /** A stored value that was not dequeued yet still lies in its slot, and the next one is what a dequeue returns. */
  lemma StoredIsThere(n: nat, run: seq<State>, i: nat, t: nat)
    requires IsRun(n, run) && i < |run| && |run[i].out| <= t < run[i].head
    ensures Shape(n, run[i]) && |run[i].buffer| == SIZE
    ensures run[i].stored[t] ==> run[i].buffer[t % SIZE] == run[i].values[t]
    ensures t == |run[i].out| && run[i].stored[t] && !run[i].owing ==>
              Consume(n, run[i]).out == run[i].out + [run[i].values[t]]
  {
    RunInv(n, run, i);
    assert SlotAt(n, run[i], t);
  }

  /** The count never understates what the queue holds, and at most SIZE tickets are outstanding. */
  lemma CountIsExact(n: nat, run: seq<State>, i: nat)
    requires IsRun(n, run) && i < |run|
    ensures Counted(run[i])
  {
    RunInv(n, run, i);
  }

  /** Places held: by calls that are refused or admitted, by tickets not dequeued, and by a dequeue not yet counted. */
  function Held(st: State): int {
    Count(st.producers, Undo) + Count(st.producers, Ticket) + st.head - |st.out| + Owing(st)
  }

  /** An enqueue is refused if and only if all places were held when it claimed one; otherwise it gets its ticket. */
  lemma RefusedIfFull(n: nat, run: seq<State>, i: nat, p: nat, data: int)
    requires IsRun(n, run) && i < |run| && p < n && Shape(n, run[i]) && run[i].producers[p].pc == Claim
    ensures Produce(n, run[i], p, data).producers[p].pc == if Held(run[i]) >= SIZE then Undo else Ticket
  {
    RunInv(n, run, i);
  }

  /** A refused call changes nothing but its own claim: after it has given it back, the queue is as before. */
  lemma RefusalLeavesQueue(n: nat, st: State, p: nat, data: int)
    requires Shape(n, st) && p < n && st.producers[p].pc == Claim && st.count >= SIZE
    ensures var st1 := Produce(n, st, p, data);
            && Shape(n, st1)
            && var st2 := Produce(n, st1, p, data);
               st2 == st.(producers := st2.producers) && st2.producers == st.producers[p := st.producers[p].(pc := Idle)]
  {
    var st1 := Produce(n, st, p, data);
    assert Shape(n, st1);
  }

  /**
   An enqueue that finds a free place, and an empty queue behind it, is out with the next dequeue: its
   four steps alone store the value, and the consumer's next step takes it.
   */
  lemma EnqueueThenDequeue(n: nat, run: seq<State>, i: nat, p: nat, data: int)
    requires IsRun(n, run) && i < |run| && p < n && Shape(n, run[i]) && data != EMPTY
    requires run[i].producers[p].pc == Idle && run[i].head == |run[i].out| && Held(run[i]) < SIZE && !run[i].owing
    ensures var st := Enqueued(n, run[i], p, data);
            && Shape(n, st) && st.producers[p].pc == Idle && st.values == run[i].values + [data]
            && Consume(n, st).out == run[i].out + [data]
  {
    RunInv(n, run, i);
    var st := run[i];
    assert SlotAt(n, st, st.head);
    var st4 := Enqueued(n, st, p, data);
  }

  /** A whole enqueue of p alone. */
  function Enqueued(n: nat, st: State, p: nat, data: int): (r: State)
    requires Shape(n, st) && p < n && st.producers[p].pc == Idle
    ensures Shape(n, r)
  {
    var st1 := Produce(n, st, p, data);
    assert Shape(n, st1);
    var st2 := Produce(n, st1, p, data);
    assert Shape(n, st2);
    var st3 := Produce(n, st2, p, data);
    assert Shape(n, st3);
    if st2.producers[p].pc == Undo then st3 else Produce(n, st3, p, data)
  }
}
