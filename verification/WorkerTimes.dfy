/**
  The times of one worker over a whole run of the scheduler: its clock is stamped at the ticks
  that suspend it and at the resumptions that let it run, so it has taken exactly its turns.
 */
module WorkerTimes {
  import opened Sequences
  import opened Scheduler
  import opened TimeAccounting

  /** What an event at time `now` does to the clock of worker `w`. */
  function ClockStep(s: State, e: Event, w: nat, now: Timespec, c: Clock): Clock {
    match e
    case Tick => if s.queue != [] && s.current == Some(w) then Suspended(c, now) else c
    case Resume => if s.queue != [] && s.queue[0] == w then Resumed(c, now) else c
    case _ => c
  }

  /** The clock of `w` after `k` events, each at its own time. */
  function ClockAfter(
    created: Timespec, states: seq<State>, events: seq<Event>, times: seq<Timespec>, w: nat, k: nat): Clock
    requires k <= |events| == |times| && |states| == |events| + 1
  {
    if k == 0 then Created(created)
    else
      ClockStep(states[k - 1], events[k - 1], w, times[k - 1],
                ClockAfter(created, states, events, times, w, k - 1))
  }

  /** Worker `w` has been resumed and not been suspended since. */
  predicate Runs(s: State, w: nat) {
    s.ticks > 0 && !s.waiting && s.current == Some(w)
  }

  function Charges(s: State, w: nat): nat {
    multiset(s.turns)[w]
  }

  /** A clock after these turns, and a resumption if the worker runs. */
  ghost predicate Shows(c: Clock, created: Timespec, turns: seq<Turn>, resumed: Timespec, running: bool) {
    c == if running then Resumed(AfterTurns(created, turns), resumed) else AfterTurns(created, turns)
  }

  lemma TurnEnds(created: Timespec, turns: seq<Turn>, resumed: Timespec, now: Timespec)
    ensures AfterTurns(created, turns + [Turn(resumed, now)])
         == Suspended(Resumed(AfterTurns(created, turns), resumed), now)
  {
    assert (turns + [Turn(resumed, now)])[..|turns|] == turns;
  }

  /** Who runs, and who has been charged, after an event. */
  lemma RunsNext(quanta: seq<int>, size: nat, s: State, e: Event, s': State, w: nat)
    requires Invariant(quanta, size, s) && Step(s, e, s') && w < |quanta|
    ensures e == Tick ==> !Runs(s', w) && Charges(s', w) == Charges(s, w) + (if Runs(s, w) then 1 else 0)
    ensures e == Tick ==> (Runs(s, w) <==> s.queue != [] && s.current == Some(w))
    ensures e == Resume ==> !Runs(s, w) && (Runs(s', w) <==> s.queue[0] == w)
    ensures e != Tick ==> Charges(s', w) == Charges(s, w)
    ensures e != Tick && e != Resume ==> (Runs(s', w) <==> Runs(s, w))
  {
    if e == Tick {
      TickStops(quanta, size, s, w);
    }
  }

  lemma TickStops(quanta: seq<int>, size: nat, s: State, w: nat)
    requires Invariant(quanta, size, s) && Enabled(s, Tick) && w < |quanta|
    ensures var s' := TickStep(s);
            !Runs(s', w) && Charges(s', w) == Charges(s, w) + (if Runs(s, w) then 1 else 0)
  {
    if s.queue != [] && s.current.Some? {
      LaterTick(quanta, size, s);
    }
  }

  /** In every run the clock of every worker has been through as many turns as the worker was charged. */
  lemma {:induction false} ClockTakesTurns(
    quanta: seq<int>, size: nat, states: seq<State>, events: seq<Event>, times: seq<Timespec>,
    created: Timespec, w: nat, k: nat)
    returns (turns: seq<Turn>, resumed: Timespec)
    requires Positive(quanta) && IsRun(quanta, size, states, events) && |times| == |events|
    requires k <= |events| && w < |quanta|
    ensures |turns| == Charges(states[k], w)
    ensures Shows(ClockAfter(created, states, events, times, w, k), created, turns, resumed, Runs(states[k], w))
  {
    if k == 0 {
      turns, resumed := [], created;
    } else {
      var s, e, now := states[k - 1], events[k - 1], times[k - 1];
      turns, resumed := ClockTakesTurns(quanta, size, states, events, times, created, w, k - 1);
      RunKeeps(quanta, size, states, events, k - 1);
      RunsNext(quanta, size, s, e, states[k], w);
      if e == Tick && Runs(s, w) {
        TurnEnds(created, turns, resumed, now);
        turns := turns + [Turn(resumed, now)];
      } else if e == Resume {
        resumed := now;
      }
    }
  }

  // ----- Against the time that passes

  /** Time from the event before event `i`, or from the worker's creation, to event `i`. */
  function Elapsed(created: Timespec, times: seq<Timespec>, i: nat): int
    requires i < |times|
  {
    Nanos(times[i]) - Nanos(Now(created, times, i))
  }

  function Now(created: Timespec, times: seq<Timespec>, k: nat): Timespec
    requires k <= |times|
  {
    if k == 0 then created else times[k - 1]
  }

  /** Of the time up to event `k`, what passed in states in which `w` ran, or in the others. */
  function NanosIn(
    running: bool, created: Timespec, states: seq<State>, times: seq<Timespec>, w: nat, k: nat): int
    requires k <= |times| < |states|
  {
    if k == 0 then 0
    else
      NanosIn(running, created, states, times, w, k - 1)
      + if Runs(states[k - 1], w) == running then Elapsed(created, times, k - 1) else 0
  }

  lemma OneMore(n: nat, micros: int, nanos: int, t1: Timespec, t2: Timespec)
    requires Within(n, micros, nanos)
    ensures Within(n + 1, micros + TimeDifference(t1, t2), nanos + Nanos(t1) - Nanos(t2))
  {
    DifferenceError(t1, t2);
  }

  /** What the clock has on record: all but the stretch that is still open. */
  ghost predicate Records(c: Clock, m: nat, running: bool, ran: int, waited: int, now: Timespec) {
    && Within(m, c.run, ran - if running then Nanos(now) - Nanos(c.resumed) else 0)
    && Within(if running then m + 1 else m, c.wait, waited - if running then 0 else Nanos(now) - Nanos(c.suspended))
  }

  lemma RecordsNext(c: Clock, m: nat, running: bool, ran: int, waited: int, now: Timespec, later: Timespec)
    requires Records(c, m, running, ran, waited, now)
    ensures var d := Nanos(later) - Nanos(now);
            var ran', waited' := if running then ran + d else ran, if running then waited else waited + d;
            && Records(c, m, running, ran', waited', later)
            && (running ==> Records(Suspended(c, later), m + 1, false, ran', waited', later))
            && (!running ==> Records(Resumed(c, later), m, true, ran', waited', later))
  {
    if running {
      OneMore(m, c.run, ran - (Nanos(now) - Nanos(c.resumed)), later, c.resumed);
    } else {
      OneMore(m, c.wait, waited - (Nanos(now) - Nanos(c.suspended)), later, c.suspended);
    }
  }

  lemma RecordsStep(
    quanta: seq<int>, size: nat, states: seq<State>, events: seq<Event>, k: nat, w: nat,
    c: Clock, ran: int, waited: int, now: Timespec, later: Timespec)
    requires Positive(quanta) && IsRun(quanta, size, states, events) && k < |events| && w < |quanta|
    requires Records(c, Charges(states[k], w), Runs(states[k], w), ran, waited, now)
    ensures var s, s', d := states[k], states[k + 1], Nanos(later) - Nanos(now);
            Records(ClockStep(s, events[k], w, later, c), Charges(s', w), Runs(s', w),
                    if Runs(s, w) then ran + d else ran, if Runs(s, w) then waited else waited + d, later)
  {
    RunKeeps(quanta, size, states, events, k);
    RunsNext(quanta, size, states[k], events[k], states[k + 1], w);
    RecordsNext(c, Charges(states[k], w), Runs(states[k], w), ran, waited, now, later);
  }

  /** The clock of `w` has on record what passed up to event `k`. */
  ghost predicate Recorded(
    created: Timespec, states: seq<State>, events: seq<Event>, times: seq<Timespec>, w: nat, k: nat)
    requires k <= |events| == |times| && |states| == |events| + 1
  {
    Records(ClockAfter(created, states, events, times, w, k), Charges(states[k], w), Runs(states[k], w),
            NanosIn(true, created, states, times, w, k), NanosIn(false, created, states, times, w, k),
            Now(created, times, k))
  }

  lemma RecordedNext(
    quanta: seq<int>, size: nat, states: seq<State>, events: seq<Event>, times: seq<Timespec>,
    created: Timespec, w: nat, k: nat)
    requires Positive(quanta) && IsRun(quanta, size, states, events) && |times| == |events|
    requires k < |events| && w < |quanta| && Recorded(created, states, events, times, w, k)
    ensures Recorded(created, states, events, times, w, k + 1)
  {
    var c := ClockAfter(created, states, events, times, w, k);
    var ran := NanosIn(true, created, states, times, w, k);
    var waited := NanosIn(false, created, states, times, w, k);
    var d := Nanos(times[k]) - Nanos(Now(created, times, k));
    RecordsStep(quanta, size, states, events, k, w, c, ran, waited, Now(created, times, k), times[k]);
    assert NanosIn(true, created, states, times, w, k + 1) == if Runs(states[k], w) then ran + d else ran;
    assert NanosIn(false, created, states, times, w, k + 1) == if Runs(states[k], w) then waited else waited + d;
    assert ClockAfter(created, states, events, times, w, k + 1) == ClockStep(states[k], events[k], w, times[k], c);
  }

  /**
    In every run, for every worker: its run time is the time that passed while it ran and its wait
    time the time that passed while it did not, each within a microsecond per turn, up to the
    suspension or resumption it was stamped at last.
   */
  lemma {:induction false} ClockRecords(
    quanta: seq<int>, size: nat, states: seq<State>, events: seq<Event>, times: seq<Timespec>,
    created: Timespec, w: nat, k: nat)
    requires Positive(quanta) && IsRun(quanta, size, states, events) && |times| == |events|
    requires k <= |events| && w < |quanta|
    ensures Recorded(created, states, events, times, w, k)
  {
    if k > 0 {
      ClockRecords(quanta, size, states, events, times, created, w, k - 1);
      RecordedNext(quanta, size, states, events, times, created, w, k - 1);
    }
  }

  /**
    Whenever a worker is not running: its run time is the time it ran, its wait time the time it
    did not up to its last suspension, and both together the time from its creation to then, within
    one microsecond (two for both) for each quantum it was charged.
   */
  lemma WorkerTimesTelescope(
    quanta: seq<int>, size: nat, states: seq<State>, events: seq<Event>, times: seq<Timespec>,
    created: Timespec, w: nat, k: nat)
    requires Positive(quanta) && IsRun(quanta, size, states, events) && |times| == |events|
    requires k <= |events| && w < |quanta| && !Runs(states[k], w)
    ensures var c, m := ClockAfter(created, states, events, times, w, k), Charges(states[k], w);
            && Within(m, c.run, NanosIn(true, created, states, times, w, k))
            && Within(m, c.wait, NanosIn(false, created, states, times, w, k)
                                 - (Nanos(Now(created, times, k)) - Nanos(c.suspended)))
            && Within(2 * m, c.run + c.wait, Nanos(c.suspended) - Nanos(created))
            && m <= quanta[w] && (states[k].quit ==> m == quanta[w])
  {
    ClockRecords(quanta, size, states, events, times, created, w, k);
    var turns, resumed := ClockTakesTurns(quanta, size, states, events, times, created, w, k);
    TimesTelescope(created, turns);
    RunKeeps(quanta, size, states, events, k);
    if states[k].quit {
      QuitOnlyWhenDone(quanta, size, states, events, k);
    }
  }

  // ----- The totals

  /** `wait_times` and `run_times`: a worker's times are added when it is cancelled. */
  datatype Totals = Totals(wait: int, run: int)

  function TotalsAfter(
    created: seq<Timespec>, states: seq<State>, events: seq<Event>, times: seq<Timespec>, k: nat): Totals
    requires k <= |events| == |times| && |states| == |events| + 1
  {
    if k == 0 then Totals(0, 0)
    else
      var before := TotalsAfter(created, states, events, times, k - 1);
      var cancels := states[k].cancels;
      if cancels != states[k - 1].cancels && cancels != [] && cancels[|cancels| - 1] < |created| then
        var w := cancels[|cancels| - 1];
        var c := ClockAfter(created[w], states, events, times, w, k);
        Totals(before.wait + c.wait, before.run + c.run)
      else
        before
  }

  /** The clocks, after `k` events, of the workers in `cancels`. */
  function ClocksOf(
    created: seq<Timespec>, states: seq<State>, events: seq<Event>, times: seq<Timespec>, k: nat,
    cancels: seq<nat>): (r: seq<Clock>)
    requires k <= |events| == |times| && |states| == |events| + 1
    requires forall i :: 0 <= i < |cancels| ==> cancels[i] < |created|
    ensures |r| == |cancels|
    ensures forall i :: 0 <= i < |r| ==>
              r[i] == ClockAfter(created[cancels[i]], states, events, times, cancels[i], k)
  {
    seq(|cancels|, i requires 0 <= i < |cancels| =>
        ClockAfter(created[cancels[i]], states, events, times, cancels[i], k))
  }

  function SumOf(clocks: seq<Clock>): Totals {
    if clocks == [] then Totals(0, 0)
    else
      var c, before := clocks[|clocks| - 1], SumOf(clocks[..|clocks| - 1]);
      Totals(before.wait + c.wait, before.run + c.run)
  }

  /** Once a worker is cancelled its clock stands still. */
  lemma CancelledClockStands(
    quanta: seq<int>, size: nat, s: State, e: Event, s': State, w: nat, now: Timespec, c: Clock)
    requires Invariant(quanta, size, s) && Step(s, e, s') && w in s.cancels
    ensures ClockStep(s, e, w, now, c) == c
  {
    if s.queue != [] {
      assert s.queue[0] in s.queue;
      if e == Tick && s.current.Some? {
        LaterTick(quanta, size, s);
      }
    }
  }

  predicate Grows(before: seq<nat>, cancels: seq<nat>) {
    cancels == before || (cancels != [] && cancels[..|cancels| - 1] == before)
  }

  lemma CancelsGrow(quanta: seq<int>, size: nat, s: State, e: Event, s': State)
    requires Invariant(quanta, size, s) && Step(s, e, s')
    ensures Grows(s.cancels, s'.cancels)
  {
    if e == Tick && s.queue != [] && s.current.Some? {
      LaterTick(quanta, size, s);
    }
  }

  lemma ClocksStand(
    quanta: seq<int>, size: nat, states: seq<State>, events: seq<Event>, times: seq<Timespec>,
    created: seq<Timespec>, k: nat, cancels: seq<nat>)
    requires Positive(quanta) && IsRun(quanta, size, states, events) && |times| == |events|
    requires 0 < k <= |events| && |created| == |quanta| && cancels == states[k - 1].cancels
    requires forall i :: 0 <= i < |cancels| ==> cancels[i] < |created|
    ensures ClocksOf(created, states, events, times, k, cancels)
         == ClocksOf(created, states, events, times, k - 1, cancels)
  {
    RunKeeps(quanta, size, states, events, k - 1);
    forall i | 0 <= i < |cancels|
      ensures ClockAfter(created[cancels[i]], states, events, times, cancels[i], k)
           == ClockAfter(created[cancels[i]], states, events, times, cancels[i], k - 1)
    {
      CancelledClockStands(quanta, size, states[k - 1], events[k - 1], states[k], cancels[i], times[k - 1],
                           ClockAfter(created[cancels[i]], states, events, times, cancels[i], k - 1));
    }
  }

  lemma CancelsKnown(quanta: seq<int>, size: nat, states: seq<State>, events: seq<Event>, k: nat)
    requires Positive(quanta) && IsRun(quanta, size, states, events) && k < |states|
    ensures Distinct(states[k].cancels)
    ensures forall i :: 0 <= i < |states[k].cancels| ==> states[k].cancels[i] < |quanta|
  {
    RunKeeps(quanta, size, states, events, k);
    assert forall i :: 0 <= i < |states[k].cancels| ==> states[k].cancels[i] in states[k].cancels;
  }

  lemma SumGrows(clocks: seq<Clock>, c: Clock)
    ensures SumOf(clocks + [c]) == Totals(SumOf(clocks).wait + c.wait, SumOf(clocks).run + c.run)
  {
    assert (clocks + [c])[..|clocks|] == clocks;
  }

  lemma ClocksGrow(
    created: seq<Timespec>, states: seq<State>, events: seq<Event>, times: seq<Timespec>, k: nat,
    cancels: seq<nat>)
    requires k <= |events| == |times| && |states| == |events| + 1 && cancels != []
    requires forall i :: 0 <= i < |cancels| ==> cancels[i] < |created|
    ensures var w := cancels[|cancels| - 1];
            ClocksOf(created, states, events, times, k, cancels)
            == ClocksOf(created, states, events, times, k, cancels[..|cancels| - 1])
               + [ClockAfter(created[w], states, events, times, w, k)]
  {
  }

  lemma CancelsGrowInRun(quanta: seq<int>, size: nat, states: seq<State>, events: seq<Event>, k: nat)
    requires Positive(quanta) && IsRun(quanta, size, states, events) && 0 < k < |states|
    ensures Grows(states[k - 1].cancels, states[k].cancels)
  {
    RunKeeps(quanta, size, states, events, k - 1);
    CancelsGrow(quanta, size, states[k - 1], events[k - 1], states[k]);
  }

  lemma TotalsGrow(
    created: seq<Timespec>, states: seq<State>, events: seq<Event>, times: seq<Timespec>, k: nat,
    before: seq<nat>)
    requires 0 < k <= |events| == |times| && |states| == |events| + 1
    requires before == states[k - 1].cancels && Grows(before, states[k].cancels)
    requires forall i :: 0 <= i < |before| ==> before[i] < |created|
    requires forall i :: 0 <= i < |states[k].cancels| ==> states[k].cancels[i] < |created|
    requires TotalsAfter(created, states, events, times, k - 1)
          == SumOf(ClocksOf(created, states, events, times, k, before))
    ensures TotalsAfter(created, states, events, times, k)
         == SumOf(ClocksOf(created, states, events, times, k, states[k].cancels))
  {
    var cancels := states[k].cancels;
    if cancels != before {
      var w := cancels[|cancels| - 1];
      ClocksGrow(created, states, events, times, k, cancels);
      SumGrows(ClocksOf(created, states, events, times, k, before),
               ClockAfter(created[w], states, events, times, w, k));
    }
  }

  /** In every run the totals are the sums of the times of all workers that were cancelled, each once. */
  lemma {:induction false} TotalsAreSums(
    quanta: seq<int>, size: nat, states: seq<State>, events: seq<Event>, times: seq<Timespec>,
    created: seq<Timespec>, k: nat)
    requires Positive(quanta) && IsRun(quanta, size, states, events) && |times| == |events|
    requires k <= |events| && |created| == |quanta|
    ensures forall i :: 0 <= i < |states[k].cancels| ==> states[k].cancels[i] < |created|
    ensures Distinct(states[k].cancels)
    ensures TotalsAfter(created, states, events, times, k)
         == SumOf(ClocksOf(created, states, events, times, k, states[k].cancels))
  {
    CancelsKnown(quanta, size, states, events, k);
    if k > 0 {
      TotalsAreSums(quanta, size, states, events, times, created, k - 1);
      ClocksStand(quanta, size, states, events, times, created, k, states[k - 1].cancels);
      CancelsGrowInRun(quanta, size, states, events, k);
      TotalsGrow(created, states, events, times, k, states[k - 1].cancels);
    }
  }
}
