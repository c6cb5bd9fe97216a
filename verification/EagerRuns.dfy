/**
  Every run of the scheduler in which each tick finds the queue refilled in creation order
  gives its turns exactly as the ring of slots does.
 */
module EagerRuns {
  import opened Sequences
  import opened Scheduler
  import opened EagerAdmission
  import Ring = RingOracle

  // ----- Between two ticks

  /** What admissions, exits and the resumption may do to the state a tick leaves. */
  ghost predicate Drifted(t: State, m: State) {
    && m.left == t.left && m.turns == t.turns && |m.at| == |t.at| && m.ticks == t.ticks && m.quit == t.quit
    && t.queue <= m.queue
    && (forall w :: 0 <= w < |t.at| ==> t.at[w] in {Queued, Cancelled, Gone} ==> m.at[w] !in {Outside, Entering})
    && (forall i :: |t.queue| <= i < |m.queue| ==>
          m.queue[i] < |t.at| && t.at[m.queue[i]] in {Outside, Entering})
  }

  lemma DriftStep(t: State, m: State, e: Event, m': State)
    requires Drifted(t, m) && Step(m, e, m') && e != Tick
    ensures Drifted(t, m')
  {
    forall i | |t.queue| <= i < |m'.queue|
      ensures m'.queue[i] < |t.at| && t.at[m'.queue[i]] in {Outside, Entering}
    {
      if i < |m.queue| {
        assert m'.queue[i] == m.queue[i];
      } else {
        match t.at[e.w] {
          case Outside | Entering =>
          case Queued | Cancelled | Gone => assert false;
        }
      }
    }
  }

  lemma {:induction false} NoTickDrifts(
    quanta: seq<int>, size: nat, states: seq<State>, events: seq<Event>, j: nat, k: nat)
    requires IsRun(quanta, size, states, events) && j <= k < |states|
    requires forall i :: j <= i < k ==> events[i] != Tick
    ensures Drifted(states[j], states[k])
  {
    if j < k {
      NoTickDrifts(quanta, size, states, events, j, k - 1);
      DriftStep(states[j], states[k - 1], events[k - 1], states[k]);
    }
  }

  lemma RangeCount(s: seq<nat>, lo: nat, hi: nat)
    requires lo <= hi && Distinct(s)
    requires forall q :: q in s ==> lo <= q < hi
    requires forall w :: lo <= w < hi ==> w in s
    ensures |s| == hi - lo
  {
    var range := seq(hi - lo, i requires 0 <= i => lo + i);
    forall q | q in s
      ensures q in range
    {
      assert range[q - lo] == q;
    }
    DistinctFits(s, range);
    DistinctFits(range, s);
  }

  lemma NewcomersInRange(quanta: seq<int>, t: State, m: State, next: nat, next2: nat, i: nat)
    requires Drifted(t, m) && QueueOk(m.queue, m.at) && |t.at| == |quanta|
    requires Admitted(quanta, m.left, m.at, next2) && next <= |quanta|
    requires forall w :: 0 <= w < next ==> t.at[w] in {Queued, Cancelled, Gone}
    requires |t.queue| <= i < |m.queue|
    ensures next <= m.queue[i] < next2
  {
    assert m.queue[i] in m.queue;
  }

  lemma RangeAreNewcomers(quanta: seq<int>, t: State, m: State, next: nat, next2: nat, w: nat)
    requires Drifted(t, m) && QueueOk(t.queue, t.at) && QueueOk(m.queue, m.at) && |t.at| == |quanta|
    requires Admitted(quanta, m.left, m.at, next2) && next <= w < next2
    requires t.at[w] == Outside && m.at[w] !in {Cancelled, Gone}
    ensures w in m.queue[|t.queue|..]
  {
    assert w in m.queue && w !in t.queue;
    var i :| 0 <= i < |m.queue| && m.queue[i] == w;
    assert forall n :: 0 <= n < |t.queue| ==> m.queue[n] in t.queue;
    assert m.queue[|t.queue|..][i - |t.queue|] == w;
  }

  /** The workers admitted between a tick and the next settled state are the next ones, each once. */
  lemma NewcomersAreNext(quanta: seq<int>, t: State, m: State, next: nat, next2: nat)
    requires Drifted(t, m) && QueueOk(t.queue, t.at) && QueueOk(m.queue, m.at) && |t.at| == |quanta|
    requires next <= |quanta| && Admitted(quanta, m.left, m.at, next2)
    requires forall w :: 0 <= w < next ==> t.at[w] in {Queued, Cancelled, Gone}
    requires forall w :: next <= w < |quanta| ==> t.at[w] == Outside
    requires forall w :: next <= w < next2 ==> m.at[w] !in {Cancelled, Gone}
    ensures next <= next2 && |m.queue| - |t.queue| == next2 - next
    ensures forall i :: |t.queue| <= i < |m.queue| ==> next <= m.queue[i] < next2
  {
    assert forall w :: 0 <= w < next ==> m.at[w] !in {Outside, Entering};
    var first := if next2 < |m.at| then m.at[next2] else Outside;
    forall i | |t.queue| <= i < |m.queue|
      ensures next <= m.queue[i] < next2
    {
      NewcomersInRange(quanta, t, m, next, next2, i);
    }
    forall w | next <= w < next2
      ensures w in m.queue[|t.queue|..]
    {
      RangeAreNewcomers(quanta, t, m, next, next2, w);
    }
    RangeCount(m.queue[|t.queue|..], next, next2);
  }

  /** With at most one place free after the tick, exactly the next worker (if any) fills it. */
  lemma SettlesAgain(quanta: seq<int>, size: nat, t: State, m: State, next: nat, next2: nat)
    requires Drifted(t, m) && QueueOk(t.queue, t.at) && QueueOk(m.queue, m.at) && |t.at| == |quanta|
    requires ChargesOk(quanta, m.left, m.at, m.turns) && Positive(quanta)
    requires next <= |quanta| && Settled(quanta, size, m, next2) && |m.queue| <= size
    requires forall w :: 0 <= w < next ==> t.at[w] in {Queued, Cancelled, Gone}
    requires forall w :: next <= w < |quanta| ==> t.at[w] == Outside && t.left[w] == quanta[w]
    requires next < |quanta| ==> |t.queue| + 1 >= size
    ensures next2 == if next < |quanta| && |t.queue| < size then next + 1 else next
    ensures m.queue == t.queue + if next2 > next then [next] else []
  {
    assert forall w :: next <= w < next2 ==> m.left[w] == quanta[w] >= 1 && m.at[w] !in {Cancelled, Gone};
    NewcomersAreNext(quanta, t, m, next, next2);
    OneNewcomer(t.queue, m.queue, next, next2);
  }

  lemma OneNewcomer(q: seq<nat>, q': seq<nat>, next: nat, next2: nat)
    requires q <= q' && next <= next2 && |q'| - |q| == next2 - next
    requires forall i :: |q| <= i < |q'| ==> next <= q'[i] < next2
    ensures next2 == next ==> q' == q
    ensures next2 == next + 1 ==> q' == q + [next]
  {
    assert q' == q + q'[|q|..];
  }

  /** The list as the scheduler holds it when a tick comes. */
  ghost predicate AtTick(quanta: seq<int>, size: nat, s: State, queue: seq<Entry>, next: nat) {
    EntriesMatch(s.queue, s.left, queue) && Settled(quanta, size, s, next)
  }

  /** The list one tick later; the first tick only lets the head run. */
  function NextQueue(quanta: seq<int>, ticks: nat, queue: seq<Entry>, next: nat): seq<Entry>
    requires queue != []
  {
    if ticks == 0 then queue else queue[1..] + Ring.Successor(quanta, queue[0], next)
  }

  function NextNext(quanta: seq<int>, ticks: nat, queue: seq<Entry>, next: nat): nat
    requires queue != []
  {
    if ticks == 0 then next else Ring.NextAfter(quanta, queue[0], next)
  }

  lemma FromFirstTick(quanta: seq<int>, size: nat, s: State, m: State, queue: seq<Entry>, next: nat, next2: nat)
    requires Positive(quanta) && Invariant(quanta, size, s) && Enabled(s, Tick) && !s.quit && s.ticks == 0
    requires AtTick(quanta, size, s, queue, next) && Invariant(quanta, size, m) && Drifted(TickStep(s), m)
    requires Settled(quanta, size, m, next2)
    ensures queue != [] && next2 == next && EntriesMatch(m.queue, m.left, queue) && m.turns == s.turns
  {
    SettlesAgain(quanta, size, TickStep(s), m, next, next2);
    assert m.queue == s.queue;
  }

  lemma FromRequeue(quanta: seq<int>, size: nat, s: State, m: State, queue: seq<Entry>, next: nat, next2: nat)
    requires Positive(quanta) && Invariant(quanta, size, s) && Enabled(s, Tick) && !s.quit && s.ticks > 0
    requires AtTick(quanta, size, s, queue, next) && Invariant(quanta, size, m) && Drifted(TickStep(s), m)
    requires Settled(quanta, size, m, next2) && queue != [] && queue[0].remaining != 1
    ensures next2 == next && m.turns == s.turns + [queue[0].worker]
    ensures m.queue == s.queue[1..] + [s.queue[0]]
    ensures m.left == Charged(s.left, s.queue[0])
  {
    AfterRequeueTick(quanta, size, s, next);
    SettlesAgain(quanta, size, TickStep(s), m, next, next2);
  }

  lemma AfterCancelTick(quanta: seq<int>, size: nat, s: State, next: nat)
    requires Invariant(quanta, size, s) && Enabled(s, Tick) && !s.quit && s.ticks > 0
    requires Admitted(quanta, s.left, s.at, next) && s.left[s.queue[0]] == 1
    requires s.queue[0] < |s.left|
    ensures var t := TickStep(s);
            && t.queue == s.queue[1..] && t.left == Charged(s.left, s.queue[0]) && t.turns == s.turns + [s.queue[0]]
            && |t.at| == |quanta| && QueueOk(t.queue, t.at)
            && (forall w :: 0 <= w < next ==> t.at[w] in {Queued, Cancelled, Gone})
            && (forall w :: next <= w < |quanta| ==> t.at[w] == Outside && t.left[w] == quanta[w])
  {
    LaterTick(quanta, size, s);
    DequeueKeeps(s.queue, s.at);
  }

  lemma FromCancel(quanta: seq<int>, size: nat, s: State, m: State, queue: seq<Entry>, next: nat, next2: nat)
    requires Positive(quanta) && Invariant(quanta, size, s) && Enabled(s, Tick) && !s.quit && s.ticks > 0
    requires AtTick(quanta, size, s, queue, next) && Invariant(quanta, size, m) && Drifted(TickStep(s), m)
    requires Settled(quanta, size, m, next2) && queue != [] && queue[0].remaining == 1
    ensures next2 == Ring.NextAfter(quanta, queue[0], next) && m.turns == s.turns + [queue[0].worker]
    ensures m.queue == s.queue[1..] + (if next2 > next then [next] else [])
    ensures m.left == Charged(s.left, s.queue[0])
  {
    AfterCancelTick(quanta, size, s, next);
    SettlesAgain(quanta, size, TickStep(s), m, next, next2);
  }

  lemma CancelledEntries(quanta: seq<int>, q: seq<nat>, left: seq<int>, queue: seq<Entry>, next: nat)
    requires EntriesMatch(q, left, queue) && q != [] && Distinct(q) && queue[0].remaining == 1
    requires next < |quanta| ==> next < |left| && left[next] == quanta[next] && next != q[0]
    ensures EntriesMatch(q[1..] + (if next < |quanta| then [next] else []), Charged(left, q[0]),
                         queue[1..] + Ring.Successor(quanta, queue[0], next))
  {
    HeadCharged(q, left, queue);
    if next < |quanta| {
      Appended(q[1..], Charged(left, q[0]), queue[1..], next);
    } else {
      assert q[1..] + [] == q[1..] && queue[1..] + [] == queue[1..];
    }
  }

  /** From one tick to the next, the list takes one turn. */
  lemma TickToTick(quanta: seq<int>, size: nat, s: State, m: State, queue: seq<Entry>, next: nat, next2: nat)
    requires Positive(quanta) && Invariant(quanta, size, s) && Enabled(s, Tick) && !s.quit
    requires AtTick(quanta, size, s, queue, next) && Invariant(quanta, size, m) && Drifted(TickStep(s), m)
    requires Settled(quanta, size, m, next2)
    ensures queue != [] && next2 == NextNext(quanta, s.ticks, queue, next)
    ensures EntriesMatch(m.queue, m.left, NextQueue(quanta, s.ticks, queue, next))
    ensures m.turns == s.turns + if s.ticks == 0 then [] else [queue[0].worker]
  {
    if s.ticks == 0 {
      FromFirstTick(quanta, size, s, m, queue, next, next2);
    } else if queue[0].remaining != 1 {
      FromRequeue(quanta, size, s, m, queue, next, next2);
      RequeuedEntries(quanta, s.queue, s.left, queue, next);
    } else {
      FromCancel(quanta, size, s, m, queue, next, next2);
      assert s.queue[0] in s.queue;
      CancelledEntries(quanta, s.queue, s.left, queue, next);
    }
  }

  // ----- The whole run

  /** The last tick before event `k`, if there is one. */
  function LastTick(events: seq<Event>, k: nat): (i: int)
    requires k <= |events|
    ensures -1 <= i < k
    ensures i >= 0 ==> events[i] == Tick
    ensures forall j :: i < j < k ==> events[j] != Tick
  {
    if k == 0 then -1 else if events[k - 1] == Tick then k - 1 else LastTick(events, k - 1)
  }

  /** All turns of the ring, in order. */
  function RingSchedule(quanta: seq<int>, size: nat): seq<Entry>
    requires Positive(quanta)
  {
    Ring.ListTurns(quanta, Ring.FirstWorkers(quanta, Min(size, |quanta|)), Min(size, |quanta|))
  }

  function RingWorkers(quanta: seq<int>, size: nat): seq<nat>
    requires Positive(quanta)
  {
    Workers(RingSchedule(quanta, size))
  }

  /** After its first `n` turns the schedule is `rest`. */
  ghost predicate Remains(schedule: seq<Entry>, n: nat, rest: seq<Entry>) {
    n <= |schedule| && schedule[n..] == rest
  }

  lemma RemainsNext(schedule: seq<Entry>, n: nat, rest: seq<Entry>, turn: Entry, rest': seq<Entry>)
    requires Remains(schedule, n, rest) && rest == [turn] + rest'
    ensures Remains(schedule, n + 1, rest') && schedule[n] == turn
  {
    assert schedule[n] == rest[0];
    assert schedule[n + 1..] == rest[1..] == rest';
  }

  /** Nobody has run before the first tick, and the queue then holds the first workers. */
  lemma FirstTickMatches(quanta: seq<int>, size: nat, s: State, next: nat)
    requires Positive(quanta) && Invariant(quanta, size, s) && s.ticks == 0 && Settled(quanta, size, s, next)
    ensures next == Min(size, |quanta|)
    ensures EntriesMatch(s.queue, s.left, Ring.FirstWorkers(quanta, next)) && s.turns == []
  {
    assert forall w :: 0 <= w < |s.at| ==> multiset(s.turns)[w] == 0;
    var range := seq(next, i requires 0 <= i => i);
    forall w | w in range
      ensures w in s.queue
    {
      assert 0 <= w < next && s.at[w] == Queued;
    }
    DistinctFits(range, s.queue);
    forall w | w in s.queue
      ensures w in range
    {
      assert range[w] == w;
    }
    DistinctFits(s.queue, range);
  }

  /** The turns given so far and those the list will still give make up the ring's schedule. */
  ghost predicate OnSchedule(quanta: seq<int>, size: nat, turns: seq<nat>, queue: seq<Entry>, next: nat)
    requires Positive(quanta)
  {
    && next <= |quanta| && Ring.QueuePositive(queue)
    && Ring.ListState(queue, next) == Ring.ListAfter(quanta, size, |turns|)
    && RingWorkers(quanta, size) == turns + Workers(Ring.ListTurns(quanta, queue, next))
    && Remains(RingSchedule(quanta, size), |turns|, Ring.ListTurns(quanta, queue, next))
  }

  lemma TurnOnSchedule(quanta: seq<int>, size: nat, turns: seq<nat>, queue: seq<Entry>, next: nat)
    requires Positive(quanta) && OnSchedule(quanta, size, turns, queue, next) && queue != []
    ensures OnSchedule(quanta, size, turns + [queue[0].worker],
                       queue[1..] + Ring.Successor(quanta, queue[0], next), Ring.NextAfter(quanta, queue[0], next))
    ensures |turns| < |RingSchedule(quanta, size)| && RingSchedule(quanta, size)[|turns|] == queue[0]
  {
    WorkersOfTurn(quanta, queue, next, turns);
    Ring.ListTurnsNext(quanta, queue, next);
    RemainsNext(RingSchedule(quanta, size), |turns|, Ring.ListTurns(quanta, queue, next), queue[0],
                Ring.ListTurns(quanta, queue[1..] + Ring.Successor(quanta, queue[0], next),
                               Ring.NextAfter(quanta, queue[0], next)));
  }

  lemma ScheduleNext(quanta: seq<int>, size: nat, s: State, m: State, queue: seq<Entry>, next: nat, next2: nat)
    requires Positive(quanta) && Invariant(quanta, size, s) && Enabled(s, Tick) && !s.quit
    requires AtTick(quanta, size, s, queue, next) && Invariant(quanta, size, m) && Drifted(TickStep(s), m)
    requires Settled(quanta, size, m, next2)
    requires OnSchedule(quanta, size, s.turns, queue, next)
    ensures queue != []
    ensures var queue2 := NextQueue(quanta, s.ticks, queue, next);
            AtTick(quanta, size, m, queue2, next2) && OnSchedule(quanta, size, m.turns, queue2, next2)
  {
    TickToTick(quanta, size, s, m, queue, next, next2);
    if s.ticks > 0 {
      TurnOnSchedule(quanta, size, s.turns, queue, next);
    }
  }

  lemma ScheduleAtFirstTick(
    quanta: seq<int>, size: nat, states: seq<State>, events: seq<Event>, k: nat, next: nat)
    requires Positive(quanta) && IsRun(quanta, size, states, events)
    requires k < |states| && Settled(quanta, size, states[k], next)
    requires forall i :: 0 <= i < k ==> events[i] != Tick
    ensures next == Min(size, |quanta|) && Ring.QueuePositive(Ring.FirstWorkers(quanta, next))
    ensures EntriesMatch(states[k].queue, states[k].left, Ring.FirstWorkers(quanta, next))
    ensures states[k].turns == []
  {
    RunKeeps(quanta, size, states, events, k);
    NoTickDrifts(quanta, size, states, events, 0, k);
    FirstTickMatches(quanta, size, states[k], next);
  }

  lemma FromTickToTick(quanta: seq<int>, size: nat, states: seq<State>, events: seq<Event>, i: nat, k: nat)
    requires Positive(quanta) && IsRun(quanta, size, states, events) && i < k < |states| && events[i] == Tick
    requires forall j :: i < j < k ==> events[j] != Tick
    requires !states[k].quit
    ensures Enabled(states[i], Tick) && !states[i].quit && Shaped(states[i])
    ensures Drifted(TickStep(states[i]), states[k])
  {
    assert Step(states[i], events[i], states[i + 1]);
    NoTickDrifts(quanta, size, states, events, i + 1, k);
    if states[i].quit {
      QuitOnlyWhenDone(quanta, size, states, events, i);
    }
  }

  /** At every tick, the turns given so far and the ring's turns from the present list make up the ring's schedule. */
  lemma {:induction false} ScheduleAtTick(
    quanta: seq<int>, size: nat, states: seq<State>, events: seq<Event>, k: nat)
    returns (queue: seq<Entry>, next: nat)
    requires Positive(quanta) && IsRun(quanta, size, states, events)
    requires RefilledAtTicks(quanta, size, states, events)
    requires k < |events| && events[k] == Tick && !states[k].quit
    ensures AtTick(quanta, size, states[k], queue, next)
    ensures OnSchedule(quanta, size, states[k].turns, queue, next)
  {
    next :| Settled(quanta, size, states[k], next);
    var i := LastTick(events, k);
    if i < 0 {
      ScheduleAtFirstTick(quanta, size, states, events, k, next);
      queue := Ring.FirstWorkers(quanta, next);
    } else {
      RunKeeps(quanta, size, states, events, i);
      RunKeeps(quanta, size, states, events, k);
      FromTickToTick(quanta, size, states, events, i, k);
      var queue0, next0 := ScheduleAtTick(quanta, size, states, events, i);
      ScheduleNext(quanta, size, states[i], states[k], queue0, next0, next);
      queue := NextQueue(quanta, states[i].ticks, queue0, next0);
    }
  }

  /** At every tick, the queue is the ring read from its index, skipping empty slots, after as many turns. */
  lemma QueueIsRing(quanta: seq<int>, size: nat, states: seq<State>, events: seq<Event>, k: nat)
    requires Positive(quanta) && size >= 1 && IsRun(quanta, size, states, events)
    requires RefilledAtTicks(quanta, size, states, events)
    requires k < |events| && events[k] == Tick && !states[k].quit
    ensures var r := Ring.RingAfter(quanta, size, |states[k].turns|);
            && EntriesMatch(states[k].queue, states[k].left, Ring.Reading(r))
            && Admitted(quanta, states[k].left, states[k].at, r.next)
  {
    var queue, next := ScheduleAtTick(quanta, size, states, events, k);
    Ring.RingReadsList(quanta, size, |states[k].turns|);
  }

  /** A tick charges at most the head of the list, and quits only when the list has come to its end. */
  lemma TickChargesHead(quanta: seq<int>, size: nat, s: State, queue: seq<Entry>, next: nat)
    requires Positive(quanta) && Invariant(quanta, size, s) && Enabled(s, Tick) && !s.quit
    requires AtTick(quanta, size, s, queue, next)
    ensures queue != []
    ensures TickStep(s).turns == s.turns + if s.ticks == 0 then [] else [queue[0].worker]
    ensures TickStep(s).quit ==> s.ticks > 0 && NextQueue(quanta, s.ticks, queue, next) == []
  {
    if s.ticks == 0 {
      assert s.queue[0] in s.queue;
      NotAllCancelled(s.cancels, s.at, s.queue[0]);
    } else {
      LaterTick(quanta, size, s);
      if TickStep(s).quit {
        QuitEmptiesList(quanta, size, s, queue, next);
      }
    }
  }

  /** The tick that quits takes the last worker out of the queue. */
  lemma QuittingTick(quanta: seq<int>, size: nat, s: State)
    requires Invariant(quanta, size, s) && Enabled(s, Tick) && !s.quit && s.ticks > 0 && TickStep(s).quit
    ensures s.queue != [] && s.queue[0] < |s.at| == |s.left| && s.left[s.queue[0]] == 1
    ensures s.at[s.queue[0]] == Queued && TickStep(s).at == s.at[s.queue[0] := Cancelled]
    ensures s.queue[1..] == []
    ensures CancelsOk(TickStep(s).cancels, TickStep(s).at) && |TickStep(s).cancels| >= |TickStep(s).at|
  {
    LaterTick(quanta, size, s);
    TickKeeps(quanta, size, s);
    NobodyQueued(TickStep(s));
  }

  lemma QuitEmptiesList(quanta: seq<int>, size: nat, s: State, queue: seq<Entry>, next: nat)
    requires Invariant(quanta, size, s) && Enabled(s, Tick) && !s.quit && s.ticks > 0
    requires AtTick(quanta, size, s, queue, next) && TickStep(s).quit
    ensures queue != [] && queue[1..] + Ring.Successor(quanta, queue[0], next) == []
  {
    QuittingTick(quanta, size, s);
    if next < |quanta| {
      NotAllCancelled(TickStep(s).cancels, TickStep(s).at, next);
    }
  }

  lemma NobodyQueued(t: State)
    requires CancelsOk(t.cancels, t.at) && QueueOk(t.queue, t.at) && |t.cancels| >= |t.at|
    ensures t.queue == []
  {
    if t.queue != [] {
      assert t.queue[0] in t.queue;
      NotAllCancelled(t.cancels, t.at, t.queue[0]);
    }
  }

  /** Refilled in creation order before every tick, any run gives the turns of the ring, all of them if it quits. */
  lemma {:induction false} EveryEagerRunFollowsRing(
    quanta: seq<int>, size: nat, states: seq<State>, events: seq<Event>, m: nat)
    requires Positive(quanta) && IsRun(quanta, size, states, events)
    requires RefilledAtTicks(quanta, size, states, events) && m < |states|
    ensures states[m].turns <= RingWorkers(quanta, size)
    ensures states[m].quit ==> states[m].turns == RingWorkers(quanta, size)
  {
    var i := LastTick(events, m);
    if i < 0 {
      NoTickDrifts(quanta, size, states, events, 0, m);
    } else {
      assert Step(states[i], events[i], states[i + 1]);
      NoTickDrifts(quanta, size, states, events, i + 1, m);
      if states[i].quit {
        QuitOnlyWhenDone(quanta, size, states, events, i);
        EveryEagerRunFollowsRing(quanta, size, states, events, i);
      } else {
        RunKeeps(quanta, size, states, events, i);
        var queue, next := ScheduleAtTick(quanta, size, states, events, i);
        TickChargesHead(quanta, size, states[i], queue, next);
        if states[i].ticks > 0 {
          WorkersOfTurn(quanta, queue, next, states[i].turns);
        }
      }
    }
  }

  /** The turn a tick ends is the ring's next one, by the same worker with the same quanta left. */
  lemma TurnIsRingTurn(quanta: seq<int>, size: nat, states: seq<State>, events: seq<Event>, k: nat)
    requires Positive(quanta) && IsRun(quanta, size, states, events)
    requires RefilledAtTicks(quanta, size, states, events)
    requires k < |events| && events[k] == Tick && states[k].current.Some?
    ensures var s, w, schedule := states[k], states[k].current.value, RingSchedule(quanta, size);
            && |s.turns| < |schedule| && w < |s.left|
            && schedule[|s.turns|] == Ring.Entry(w, s.left[w])
            && states[k + 1].turns == s.turns + [w]
  {
    assert Step(states[k], events[k], states[k + 1]);
    RunKeeps(quanta, size, states, events, k);
    var queue, next := ScheduleAtTick(quanta, size, states, events, k);
    LaterTick(quanta, size, states[k]);
    TurnOnSchedule(quanta, size, states[k].turns, queue, next);
  }
}
