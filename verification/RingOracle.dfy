/**
  The schedule the test program expects, computed on a ring of slots, and the schedule of the
  list, in which the head runs, goes to the tail, and a place that falls free is refilled in
  creation order.  They are the same schedule.
 */
module RingOracle {
  import opened Sequences

  /** A worker with its remaining quanta. */
  datatype Entry = Entry(worker: nat, remaining: int)

  datatype Slot = Empty | Held(entry: Entry)

  // ----- The list's schedule

  /** Quanta still to be given: those in the queue and those of workers not yet admitted. */
  function QueueSum(queue: seq<Entry>): int {
    if queue == [] then 0 else queue[0].remaining + QueueSum(queue[1..])
  }

  function RestSum(quanta: seq<int>, next: nat): int
    requires next <= |quanta|
    decreases |quanta| - next
  {
    if next == |quanta| then 0 else quanta[next] + RestSum(quanta, next + 1)
  }

  ghost predicate QueuePositive(queue: seq<Entry>) {
    forall i :: 0 <= i < |queue| ==> queue[i].remaining >= 1
  }

  lemma {:induction false} QueueSumSplit(a: seq<Entry>, b: seq<Entry>)
    ensures QueueSum(a + b) == QueueSum(a) + QueueSum(b)
    decreases |a|
  {
    if a == [] {
      assert a + b == b;
    } else {
      assert (a + b)[1..] == a[1..] + b;
      QueueSumSplit(a[1..], b);
    }
  }

  lemma {:induction false} QueueSumPositive(queue: seq<Entry>)
    requires QueuePositive(queue)
    ensures QueueSum(queue) >= |queue|
    decreases |queue|
  {
    if queue != [] {
      QueueSumPositive(queue[1..]);
    }
  }

  lemma {:induction false} RestSumPositive(quanta: seq<int>, next: nat)
    requires next <= |quanta| && Positive(quanta)
    ensures RestSum(quanta, next) >= 0
    decreases |quanta| - next
  {
    if next < |quanta| {
      RestSumPositive(quanta, next + 1);
    }
  }

  /** What takes the head's place at the tail: itself, the next worker, or nothing. */
  function Successor(quanta: seq<int>, head: Entry, next: nat): seq<Entry> {
    if head.remaining != 1 then [Entry(head.worker, head.remaining - 1)]
    else if next < |quanta| then [Entry(next, quanta[next])]
    else []
  }

  function NextAfter(quanta: seq<int>, head: Entry, next: nat): nat {
    if head.remaining == 1 && next < |quanta| then next + 1 else next
  }

  lemma TurnSpendsOne(quanta: seq<int>, queue: seq<Entry>, next: nat)
    requires next <= |quanta| && queue != []
    ensures var n' := NextAfter(quanta, queue[0], next);
            QueueSum(queue[1..] + Successor(quanta, queue[0], next)) + RestSum(quanta, n')
            == QueueSum(queue) + RestSum(quanta, next) - 1
  {
    var tail := Successor(quanta, queue[0], next);
    QueueSumSplit(queue[1..], tail);
    assert tail != [] ==> tail[1..] == [];
  }

  /** The turns of the list schedule, each with the quanta its worker has left. */
  function ListTurns(quanta: seq<int>, queue: seq<Entry>, next: nat): seq<Entry>
    requires next <= |quanta| && Positive(quanta) && QueuePositive(queue)
    decreases QueueSum(queue) + RestSum(quanta, next)
  {
    if queue == [] then []
    else
      TurnSpendsOne(quanta, queue, next);
      QueueSumPositive(queue);
      RestSumPositive(quanta, next);
      [queue[0]] + ListTurns(quanta, queue[1..] + Successor(quanta, queue[0], next), NextAfter(quanta, queue[0], next))
  }

  function FirstWorkers(quanta: seq<int>, n: nat): (r: seq<Entry>)
    requires n <= |quanta|
    ensures |r| == n && forall i :: 0 <= i < n ==> r[i] == Entry(i, quanta[i])
  {
    if n == 0 then [] else FirstWorkers(quanta, n - 1) + [Entry(n - 1, quanta[n - 1])]
  }

  // ----- The ring

  function Compact(slots: seq<Slot>): seq<Entry> {
    if slots == [] then []
    else (if slots[0].Held? then [slots[0].entry] else []) + Compact(slots[1..])
  }

  /** The ring read once round from `index`. */
  function Around(slots: seq<Slot>, index: nat): seq<Slot>
    requires index <= |slots|
  {
    slots[index..] + slots[..index]
  }

  lemma {:induction false} CompactSplit(a: seq<Slot>, b: seq<Slot>)
    ensures Compact(a + b) == Compact(a) + Compact(b)
    decreases |a|
  {
    if a == [] {
      assert a + b == b;
    } else {
      assert (a + b)[0] == a[0] && (a + b)[1..] == a[1..] + b;
      CompactSplit(a[1..], b);
    }
  }

  function NextIndex(size: nat, index: nat): nat
    requires size >= 1
  {
    (index + 1) % size
  }

  lemma NextIndexIs(size: nat, index: nat)
    requires index < size
    ensures NextIndex(size, index) == if index + 1 < size then index + 1 else 0
  {
    if index + 1 == size {
      assert size % size == 0;
    } else {
      assert (index + 1) % size == index + 1;
    }
  }

  /** Moving on by one slot moves the first slot of the reading to its end. */
  lemma AroundNext(slots: seq<Slot>, index: nat)
    requires index < |slots|
    ensures var i := NextIndex(|slots|, index);
            i < |slots| && Around(slots, i) == Around(slots, index)[1..] + [slots[index]]
  {
    NextIndexIs(|slots|, index);
    assert slots[index..] == [slots[index]] + slots[index + 1..];
  }

  lemma AroundUpdate(slots: seq<Slot>, index: nat, x: Slot)
    requires index < |slots|
    ensures Around(slots, index)[0] == slots[index]
    ensures Around(slots[index := x], index) == [x] + Around(slots, index)[1..]
  {
  }

  function ToSlot(s: seq<Entry>): Slot
    requires |s| <= 1
  {
    if s == [] then Empty else Held(s[0])
  }

  /** Skipping an empty slot does not change what is read; running a held one is a turn of the list. */
  lemma RingSkips(slots: seq<Slot>, index: nat)
    requires index < |slots| && slots[index] == Empty
    ensures Compact(Around(slots, NextIndex(|slots|, index))) == Compact(Around(slots, index))
  {
    AroundNext(slots, index);
    var a := Around(slots, index);
    assert a == [slots[index]] + a[1..];
    CompactSplit(a[1..], [slots[index]]);
    CompactSplit([slots[index]], a[1..]);
    assert Compact([slots[index]]) == [];
  }

  lemma RingTurns(quanta: seq<int>, slots: seq<Slot>, index: nat, next: nat)
    requires index < |slots| && slots[index].Held?
    ensures var queue := Compact(Around(slots, index));
            var succ := Successor(quanta, slots[index].entry, next);
            && queue != [] && queue[0] == slots[index].entry
            && Compact(Around(slots[index := ToSlot(succ)], NextIndex(|slots|, index))) == queue[1..] + succ
  {
    var a := Around(slots, index);
    var succ := Successor(quanta, slots[index].entry, next);
    var x := ToSlot(succ);
    var slots' := slots[index := x];
    AroundUpdate(slots, index, x);
    AroundNext(slots', index);
    assert Around(slots', index)[1..] == a[1..];
    assert a == [slots[index]] + a[1..];
    CompactSplit([slots[index]], a[1..]);
    CompactSplit(a[1..], [x]);
    assert Compact([x]) == succ;
    assert Compact([slots[index]]) == [slots[index].entry];
  }

  function LeadingEmpty(slots: seq<Slot>): nat {
    if slots == [] || slots[0].Held? then 0 else 1 + LeadingEmpty(slots[1..])
  }

  lemma {:induction false} LeadingEmptyAppend(a: seq<Slot>, b: seq<Slot>)
    requires Compact(a) != []
    ensures LeadingEmpty(a + b) == LeadingEmpty(a)
    decreases |a|
  {
    assert (a + b)[1..] == a[1..] + b;
    if !a[0].Held? {
      LeadingEmptyAppend(a[1..], b);
    }
  }

  lemma SkipApproaches(slots: seq<Slot>, index: nat)
    requires index < |slots| && slots[index] == Empty && Compact(Around(slots, index)) != []
    ensures LeadingEmpty(Around(slots, NextIndex(|slots|, index))) < LeadingEmpty(Around(slots, index))
  {
    AroundNext(slots, index);
    var a := Around(slots, index);
    assert a[0] == slots[index];
    LeadingEmptyAppend(a[1..], [slots[index]]);
  }

  /** The state of the check: the slots, the index it looks at, the next worker to be admitted. */
  datatype Ring = Ring(slots: seq<Slot>, index: nat, next: nat)

  /** The ring read once round from its index, skipping empty slots. */
  function Reading(r: Ring): seq<Entry>
    requires r.index <= |r.slots|
  {
    Compact(Around(r.slots, r.index))
  }

  /** The next held slot from `index` on. */
  function HeldFrom(slots: seq<Slot>, index: nat): (i: nat)
    requires index < |slots| && Compact(Around(slots, index)) != []
    ensures i < |slots| && slots[i].Held?
    ensures Compact(Around(slots, i)) == Compact(Around(slots, index))
    decreases LeadingEmpty(Around(slots, index))
  {
    if slots[index].Held? then index
    else
      RingSkips(slots, index);
      SkipApproaches(slots, index);
      HeldFrom(slots, NextIndex(|slots|, index))
  }

  function RingTurn(quanta: seq<int>, r: Ring): Ring
    requires r.index < |r.slots| && Reading(r) != []
  {
    var i := HeldFrom(r.slots, r.index);
    var head := r.slots[i].entry;
    Ring(r.slots[i := ToSlot(Successor(quanta, head, r.next))],
         NextIndex(|r.slots|, i), NextAfter(quanta, head, r.next))
  }

  function AsSlots(queue: seq<Entry>, size: nat): (r: seq<Slot>)
    requires |queue| <= size
    ensures |r| == size
    ensures forall i :: 0 <= i < size ==> r[i] == if i < |queue| then Held(queue[i]) else Empty
  {
    seq(size, i requires 0 <= i => if i < |queue| then Held(queue[i]) else Empty)
  }

  lemma {:induction false} CompactAsSlots(queue: seq<Entry>, size: nat)
    requires |queue| <= size
    ensures Compact(AsSlots(queue, size)) == queue
    decreases size
  {
    var r := AsSlots(queue, size);
    if size > 0 {
      if queue == [] {
        assert r[1..] == AsSlots([], size - 1);
        CompactAsSlots([], size - 1);
      } else {
        assert r[1..] == AsSlots(queue[1..], size - 1);
        CompactAsSlots(queue[1..], size - 1);
      }
    }
  }

  // ----- Both after `n` turns

  /** The list and the next worker to be admitted. */
  datatype ListState = ListState(queue: seq<Entry>, next: nat)

  function ListTurn(quanta: seq<int>, l: ListState): ListState {
    if l.queue == [] then l
    else ListState(l.queue[1..] + Successor(quanta, l.queue[0], l.next), NextAfter(quanta, l.queue[0], l.next))
  }

  function ListStart(quanta: seq<int>, size: nat): ListState {
    ListState(FirstWorkers(quanta, Min(size, |quanta|)), Min(size, |quanta|))
  }

  function ListAfter(quanta: seq<int>, size: nat, n: nat): ListState {
    if n == 0 then ListStart(quanta, size) else ListTurn(quanta, ListAfter(quanta, size, n - 1))
  }

  function RingAfter(quanta: seq<int>, size: nat, n: nat): (r: Ring)
    requires size >= 1
    ensures r.index < |r.slots| == size
  {
    if n == 0 then RingStart(quanta, size)
    else
      var r := RingAfter(quanta, size, n - 1);
      if Reading(r) == [] then r else RingTurn(quanta, r)
  }

  function RingStart(quanta: seq<int>, size: nat): Ring {
    Ring(AsSlots(FirstWorkers(quanta, Min(size, |quanta|)), size), 0, Min(size, |quanta|))
  }

  /** The ring, read from its index, is the list. */
  ghost predicate Reads(r: Ring, l: ListState) {
    r.index < |r.slots| && Reading(r) == l.queue && r.next == l.next
  }

  lemma StartReadsList(quanta: seq<int>, size: nat)
    requires size >= 1
    ensures Reads(RingStart(quanta, size), ListStart(quanta, size))
  {
    var r := RingStart(quanta, size);
    CompactAsSlots(FirstWorkers(quanta, Min(size, |quanta|)), size);
    assert Around(r.slots, 0) == r.slots;
  }

  /** One turn of the ring is one turn of the list it reads. */
  lemma TurnReadsList(quanta: seq<int>, r: Ring, l: ListState)
    requires Reads(r, l) && l.queue != []
    ensures Reads(RingTurn(quanta, r), ListTurn(quanta, l))
    ensures r.slots[HeldFrom(r.slots, r.index)].entry == l.queue[0]
  {
    var i := HeldFrom(r.slots, r.index);
    RingTurns(quanta, r.slots, i, r.next);
    NextIndexIs(|r.slots|, i);
  }

  /** After any number of turns the ring, read from its index, is the list. */
  lemma {:induction false} RingReadsList(quanta: seq<int>, size: nat, n: nat)
    requires size >= 1
    ensures Reads(RingAfter(quanta, size, n), ListAfter(quanta, size, n))
  {
    if n == 0 {
      StartReadsList(quanta, size);
    } else {
      RingReadsList(quanta, size, n - 1);
      var r, l := RingAfter(quanta, size, n - 1), ListAfter(quanta, size, n - 1);
      if l.queue != [] {
        TurnReadsList(quanta, r, l);
      }
    }
  }

  lemma ListTurnsNext(quanta: seq<int>, queue: seq<Entry>, next: nat)
    requires next <= |quanta| && Positive(quanta) && QueuePositive(queue) && queue != []
    ensures var queue', next' := queue[1..] + Successor(quanta, queue[0], next), NextAfter(quanta, queue[0], next);
            && QueuePositive(queue') && next' <= |quanta|
            && ListTurns(quanta, queue, next) == [queue[0]] + ListTurns(quanta, queue', next')
            && 0 <= QueueSum(queue') + RestSum(quanta, next') < QueueSum(queue) + RestSum(quanta, next)
  {
    TurnSpendsOne(quanta, queue, next);
    QueueSumPositive(queue);
    RestSumPositive(quanta, next);
  }

  // ----- The program's loops

  /** The initial filling of the ring. */
  method FillRing(quanta: seq<int>, size: nat) returns (slots: array<Slot>, next: nat)
    ensures fresh(slots) && slots.Length == size && next == Min(size, |quanta|)
    ensures slots[..] == AsSlots(FirstWorkers(quanta, next), size)
  {
    slots := new Slot[size](_ => Empty);
    next := 0;
    while next < size && next < |quanta|
      invariant next <= size && next <= |quanta|
      invariant forall i :: 0 <= i < size ==> slots[i] == if i < next then Held(Entry(i, quanta[i])) else Empty
    {
      slots[next] := Held(Entry(next, quanta[next]));
      next := next + 1;
    }
  }

  /** The next held slot from `index` on. */
  method SkipEmpty(slots: array<Slot>, index: nat) returns (i: nat)
    requires index < slots.Length && Compact(Around(slots[..], index)) != []
    ensures i == HeldFrom(slots[..], index)
  {
    i := index;
    while slots[i] == Empty
      invariant i < slots.Length && Compact(Around(slots[..], i)) != []
      invariant HeldFrom(slots[..], i) == HeldFrom(slots[..], index)
      decreases LeadingEmpty(Around(slots[..], i))
    {
      RingSkips(slots[..], i);
      SkipApproaches(slots[..], i);
      i := (i + 1) % slots.Length;
    }
  }

  /** One turn: the slot at `i` loses a quantum, and is refilled or cleared when it has none left. */
  method TakeTurn(quanta: seq<int>, slots: array<Slot>, i: nat, next: nat)
    returns (turn: Entry, i': nat, next': nat, cleared: bool)
    requires i < slots.Length && slots[i].Held? && next <= |quanta|
    modifies slots
    ensures turn == old(slots[i]).entry
    ensures slots[..] == old(slots[..])[i := ToSlot(Successor(quanta, turn, next))]
    ensures i' == NextIndex(slots.Length, i) && next' == NextAfter(quanta, turn, next)
    ensures cleared <==> Successor(quanta, turn, next) == []
  {
    turn := slots[i].entry;
    next', cleared := next, false;
    if turn.remaining - 1 == 0 {
      if next < |quanta| {
        slots[i] := Held(Entry(next, quanta[next]));
        next' := next + 1;
      } else {
        slots[i] := Empty;
        cleared := true;
      }
    } else {
      slots[i] := Held(Entry(turn.worker, turn.remaining - 1));
    }
    i' := (i + 1) % slots.Length;
  }

  /** Skipping to the next held slot and running it is one turn of the ring. */
  method NextTurn(quanta: seq<int>, slots: array<Slot>, index: nat, next: nat)
    returns (turn: Entry, index': nat, next': nat, cleared: bool)
    requires index < slots.Length && next <= |quanta|
    requires Reading(Ring(slots[..], index, next)) != []
    modifies slots
    ensures Ring(slots[..], index', next') == RingTurn(quanta, old(Ring(slots[..], index, next)))
    ensures turn == old(Reading(Ring(slots[..], index, next)))[0]
    ensures cleared <==> Successor(quanta, turn, next) == []
  {
    ghost var r := Ring(slots[..], index, next);
    TurnReadsList(quanta, r, ListState(Reading(r), next));
    var i := SkipEmpty(slots, index);
    turn, index', next', cleared := TakeTurn(quanta, slots, i, next);
  }

  /** The list after the turns so far: how many are in it, and what it will still give. */
  ghost predicate Ahead(quanta: seq<int>, size: nat, l: ListState, inQueue: nat, turns: seq<Entry>)
    requires Positive(quanta)
  {
    && l == ListAfter(quanta, size, |turns|)
    && l.next <= |quanta| && |l.queue| == inQueue && QueuePositive(l.queue)
    && (l.next < |quanta| ==> inQueue == size)
    && (var start := ListStart(quanta, size);
        ListTurns(quanta, start.queue, start.next) == turns + ListTurns(quanta, l.queue, l.next))
  }

  function Remaining(quanta: seq<int>, l: ListState): int
    requires l.next <= |quanta|
  {
    QueueSum(l.queue) + RestSum(quanta, l.next)
  }

  lemma AheadNext(quanta: seq<int>, size: nat, l: ListState, inQueue: nat, turns: seq<Entry>)
    requires Positive(quanta) && Ahead(quanta, size, l, inQueue, turns) && l.queue != []
    ensures var succ := Successor(quanta, l.queue[0], l.next);
            && (succ == [] ==> inQueue > 0)
            && Ahead(quanta, size, ListTurn(quanta, l), if succ == [] then inQueue - 1 else inQueue,
                     turns + [l.queue[0]])
            && 0 <= Remaining(quanta, ListTurn(quanta, l)) < Remaining(quanta, l)
  {
    ListTurnsNext(quanta, l.queue, l.next);
    var l' := ListTurn(quanta, l);
    assert turns + ListTurns(quanta, l.queue, l.next)
        == (turns + [l.queue[0]]) + ListTurns(quanta, l'.queue, l'.next);
  }

  lemma RingAfterNext(quanta: seq<int>, size: nat, n: nat)
    requires size >= 1 && Reading(RingAfter(quanta, size, n)) != []
    ensures RingAfter(quanta, size, n + 1) == RingTurn(quanta, RingAfter(quanta, size, n))
  {
  }

  /** The ring after the turns so far, and the list it reads. */
  ghost predicate OnTheWay(quanta: seq<int>, size: nat, r: Ring, l: ListState, inQueue: nat, turns: seq<Entry>)
    requires Positive(quanta) && size >= 1
  {
    r == RingAfter(quanta, size, |turns|) && Reads(r, l) && Ahead(quanta, size, l, inQueue, turns)
  }

  lemma TurnOnTheWay(quanta: seq<int>, size: nat, r: Ring, l: ListState, inQueue: nat, turns: seq<Entry>)
    requires Positive(quanta) && size >= 1 && OnTheWay(quanta, size, r, l, inQueue, turns) && l.queue != []
    ensures var succ := Successor(quanta, l.queue[0], l.next);
            && (succ == [] ==> inQueue > 0)
            && OnTheWay(quanta, size, RingTurn(quanta, r), ListTurn(quanta, l),
                        if succ == [] then inQueue - 1 else inQueue, turns + [l.queue[0]])
            && 0 <= Remaining(quanta, ListTurn(quanta, l)) < Remaining(quanta, l)
  {
    RingAfterNext(quanta, size, |turns|);
    TurnReadsList(quanta, r, l);
    AheadNext(quanta, size, l, inQueue, turns);
  }

  /** The body of the main loop. */
  method ExpectedTurn(quanta: seq<int>, slots: array<Slot>, index: nat, next: nat, inQueue: nat,
                      ghost l: ListState, ghost turns: seq<Entry>)
    returns (turn: Entry, index': nat, next': nat, inQueue': nat)
    requires Positive(quanta) && slots.Length >= 1 && (next < |quanta| || inQueue > 0)
    requires OnTheWay(quanta, slots.Length, Ring(slots[..], index, next), l, inQueue, turns)
    modifies slots
    ensures l.queue != [] && turn == l.queue[0]
    ensures Ring(slots[..], index', next') == RingTurn(quanta, old(Ring(slots[..], index, next)))
    ensures OnTheWay(quanta, slots.Length, Ring(slots[..], index', next'), ListTurn(quanta, l), inQueue',
                     turns + [turn])
    ensures 0 <= Remaining(quanta, ListTurn(quanta, l)) < Remaining(quanta, l)
  {
    TurnOnTheWay(quanta, slots.Length, Ring(slots[..], index, next), l, inQueue, turns);
    var cleared;
    turn, index', next', cleared := NextTurn(quanta, slots, index, next);
    inQueue' := if cleared then inQueue - 1 else inQueue;
  }

  /** The main loop of the test program's check: the ring gives the list's schedule, turn by turn. */
  method ExpectedTurns(quanta: seq<int>, size: nat) returns (turns: seq<Entry>, ghost last: Ring)
    requires Positive(quanta) && size >= 1
    ensures var n := Min(size, |quanta|);
            turns == ListTurns(quanta, FirstWorkers(quanta, n), n)
    ensures last == RingAfter(quanta, size, |turns|) && Reading(last) == []
  {
    var slots: array<Slot>, next: nat := FillRing(quanta, size);
    var inQueue, index: nat := next, 0;
    ghost var l := ListStart(quanta, size);
    StartReadsList(quanta, size);
    turns := [];
    while next < |quanta| || inQueue > 0
      invariant fresh(slots) && slots.Length == size
      invariant OnTheWay(quanta, size, Ring(slots[..], index, next), l, inQueue, turns)
      decreases Remaining(quanta, l)
    {
      var turn;
      turn, index, next, inQueue := ExpectedTurn(quanta, slots, index, next, inQueue, l, turns);
      l := ListTurn(quanta, l);
      turns := turns + [turn];
    }
    last := Ring(slots[..], index, next);
  }
}
