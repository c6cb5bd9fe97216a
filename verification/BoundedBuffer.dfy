/**
  The bounded buffer on counting semaphores: producers that stop, consumers that do not, and a
  main thread that joins the producers and then polls for index 0 under the mutex.  Each event is
  one semaphore operation, or one look at the index or move of it, by one thread.
 */
module BoundedBuffer {
  import opened Sequences

  /** Where a thread is between `sem_wait` on one counting semaphore and `sem_post` on the other. */
  datatype Pc = Idle | Claimed | Locked | Moved | Unlocked | Done

  /** The main thread joins the producers, then takes the mutex, looks, gives it back, until it saw index 0. */
  datatype Main = Joining | Polling | Looking | Seen(drained: bool) | Finished

  /** `looks` counts the main thread's own steps. */
  datatype State = State(
    bufferIndex: int, empty: nat, full: nat, mutex: nat,
    producers: seq<Pc>, left: seq<nat>, consumers: seq<Pc>, main: Main,
    inserted: nat, removed: nat, looks: nat)

  datatype Event = Producer(i: nat) | Consumer(i: nat) | MainThread

  function Start(length: nat, left: seq<nat>, consumers: nat): State {
    State(0, 0, length, 1,
          seq(|left|, i requires 0 <= i < |left| => if left[i] == 0 then Done else Idle), left,
          seq(consumers, _ => Idle), Joining, 0, 0, 0)
  }

  predicate ProducersJoined(s: State) {
    forall i :: 0 <= i < |s.producers| ==> s.producers[i] == Done
  }

  predicate Enabled(s: State, e: Event) {
    match e
    case Producer(i) =>
      i < |s.producers| == |s.left| &&
      (match s.producers[i]
       case Idle => s.full > 0
       case Claimed => s.mutex > 0
       case Done => false
       case _ => true)
    case Consumer(i) =>
      i < |s.consumers| &&
      (match s.consumers[i]
       case Idle => s.empty > 0
       case Claimed => s.mutex > 0
       case Done => false
       case _ => true)
    case MainThread =>
      (match s.main
       case Joining => ProducersJoined(s)
       case Polling => s.mutex > 0
       case Finished => false
       case _ => true)
  }

  function ProducerStep(s: State, i: nat): State
    requires Enabled(s, Producer(i))
  {
    match s.producers[i]
    case Idle => s.(full := s.full - 1, producers := s.producers[i := Claimed])
    case Claimed => s.(mutex := s.mutex - 1, producers := s.producers[i := Locked])
    case Locked =>
      s.(bufferIndex := s.bufferIndex + 1, inserted := s.inserted + 1, producers := s.producers[i := Moved])
    case Moved => s.(mutex := s.mutex + 1, producers := s.producers[i := Unlocked])
    case Unlocked =>
      var left := if s.left[i] == 0 then 0 else s.left[i] - 1;
      s.(empty := s.empty + 1, left := s.left[i := left],
         producers := s.producers[i := if left == 0 then Done else Idle])
  }

  function ConsumerStep(s: State, i: nat): State
    requires Enabled(s, Consumer(i))
  {
    match s.consumers[i]
    case Idle => s.(empty := s.empty - 1, consumers := s.consumers[i := Claimed])
    case Claimed => s.(mutex := s.mutex - 1, consumers := s.consumers[i := Locked])
    case Locked =>
      s.(bufferIndex := s.bufferIndex - 1, removed := s.removed + 1, consumers := s.consumers[i := Moved])
    case Moved => s.(mutex := s.mutex + 1, consumers := s.consumers[i := Unlocked])
    case Unlocked => s.(full := s.full + 1, consumers := s.consumers[i := Idle])
  }

  /** The drain loop of `main`, after the joins. */
  function MainStep(s: State): State
    requires Enabled(s, MainThread)
  {
    var t := s.(looks := s.looks + 1);
    match s.main
    case Joining => t.(main := Polling)
    case Polling => t.(mutex := s.mutex - 1, main := Looking)
    case Looking => t.(main := Seen(s.bufferIndex == 0))
    case Seen(drained) => t.(mutex := s.mutex + 1, main := if drained then Finished else Polling)
  }

  function Apply(s: State, e: Event): State
    requires Enabled(s, e)
  {
    match e
    case Producer(i) => ProducerStep(s, i)
    case Consumer(i) => ConsumerStep(s, i)
    case MainThread => MainStep(s)
  }

  ghost predicate Step(s: State, e: Event, s': State) {
    Enabled(s, e) && s' == Apply(s, e)
  }

  ghost predicate IsRun(length: nat, left: seq<nat>, consumers: nat, states: seq<State>, events: seq<Event>) {
    && |states| == |events| + 1
    && states[0] == Start(length, left, consumers)
    && forall i {:trigger events[i]} :: 0 <= i < |events| ==> Step(states[i], events[i], states[i + 1])
  }

  // ----- The invariant

  /** A token taken and not yet turned into a move, or a move whose token is not yet posted. */
  function Before(threads: seq<Pc>): nat { Count(threads, Claimed) + Count(threads, Locked) }

  function Behind(threads: seq<Pc>): nat { Count(threads, Moved) + Count(threads, Unlocked) }

  function Holding(threads: seq<Pc>): nat { Count(threads, Locked) + Count(threads, Moved) }

  function MainHolds(m: Main): nat { if m.Looking? || m.Seen? then 1 else 0 }

  ghost predicate TokensOk(length: nat, s: State) {
    && s.mutex + Holding(s.producers) + Holding(s.consumers) + MainHolds(s.main) == 1
    && s.empty + Before(s.consumers) + Behind(s.producers) == s.bufferIndex
    && s.full + Before(s.producers) + Behind(s.consumers) == length - s.bufferIndex
  }

  ghost predicate Conserved(total: int, s: State) {
    && |s.left| == |s.producers|
    && s.bufferIndex == s.inserted - s.removed
    && s.inserted + Sum(s.left) == total + Behind(s.producers)
    && (forall i :: 0 <= i < |s.left| ==> (s.producers[i] == Done <==> s.left[i] == 0))
    && Count(s.consumers, Done) == 0
  }

  /** What the main thread has found out stays true. */
  ghost predicate MainOk(s: State) {
    && (s.main != Joining ==> ProducersJoined(s))
    && (s.main == Seen(true) || s.main == Finished ==> s.bufferIndex == 0)
  }

  ghost predicate Invariant(length: nat, total: int, s: State) {
    TokensOk(length, s) && Conserved(total, s) && MainOk(s)
  }

  /** What one thread's move does to the three counts. */
  lemma TokensMove(threads: seq<Pc>, i: nat, to: Pc)
    requires i < |threads|
    ensures var threads' := threads[i := to];
            && Before(threads') == Before(threads) - In(threads[i], Claimed, Locked) + In(to, Claimed, Locked)
            && Behind(threads') == Behind(threads) - In(threads[i], Moved, Unlocked) + In(to, Moved, Unlocked)
            && Holding(threads') == Holding(threads) - In(threads[i], Locked, Moved) + In(to, Locked, Moved)
  {
    Moves(threads, i, to);
  }

  function In(pc: Pc, a: Pc, b: Pc): int { if pc == a || pc == b then 1 else 0 }

  lemma ProducerKeepsTokens(length: nat, s: State, i: nat)
    requires TokensOk(length, s) && Enabled(s, Producer(i))
    ensures TokensOk(length, ProducerStep(s, i))
  {
    TokensMove(s.producers, i, ProducerStep(s, i).producers[i]);
  }

  lemma ProducerConserves(total: int, s: State, i: nat)
    requires Conserved(total, s) && Enabled(s, Producer(i))
    ensures Conserved(total, ProducerStep(s, i))
  {
    var s' := ProducerStep(s, i);
    Moves(s.producers, i, s'.producers[i]);
    SumUpdate(s.left, i, s'.left[i]);
    assert s.left[i := s.left[i]] == s.left;
  }

  lemma ProducerKeeps(length: nat, total: int, s: State, i: nat)
    requires Invariant(length, total, s) && Enabled(s, Producer(i))
    ensures Invariant(length, total, ProducerStep(s, i))
  {
    ProducerKeepsTokens(length, s, i);
    ProducerConserves(total, s, i);
  }

  lemma ConsumerKeepsTokens(length: nat, s: State, i: nat)
    requires TokensOk(length, s) && Enabled(s, Consumer(i))
    ensures TokensOk(length, ConsumerStep(s, i))
  {
    TokensMove(s.consumers, i, ConsumerStep(s, i).consumers[i]);
  }

  lemma ConsumerConserves(total: int, s: State, i: nat)
    requires Conserved(total, s) && Enabled(s, Consumer(i))
    ensures Conserved(total, ConsumerStep(s, i))
  {
    Moves(s.consumers, i, ConsumerStep(s, i).consumers[i]);
  }

  lemma ConsumerKeeps(length: nat, total: int, s: State, i: nat)
    requires Invariant(length, total, s) && Enabled(s, Consumer(i))
    ensures Invariant(length, total, ConsumerStep(s, i))
  {
    ConsumerKeepsTokens(length, s, i);
    ConsumerConserves(total, s, i);
    Present(s.consumers, i);
  }

  lemma StartHolds(length: nat, left: seq<nat>, consumers: nat)
    ensures Invariant(length, Sum(left), Start(length, left, consumers))
  {
    var s := Start(length, left, consumers);
    assert forall pc :: pc !in {Idle, Done} ==> pc !in s.producers;
    assert forall pc :: pc != Idle ==> pc !in s.consumers;
  }

  lemma EventKeeps(length: nat, total: int, s: State, e: Event, s': State)
    requires Invariant(length, total, s) && Step(s, e, s')
    ensures Invariant(length, total, s') && |s'.consumers| == |s.consumers|
  {
    match e {
      case Producer(i) => ProducerKeeps(length, total, s, i);
      case Consumer(i) => ConsumerKeeps(length, total, s, i);
      case MainThread =>
    }
  }

  /** The conservation laws hold in every interleaving, for any number of threads. */
  lemma {:induction false} RunKeeps(
    length: nat, left: seq<nat>, consumers: nat, states: seq<State>, events: seq<Event>, k: nat)
    requires IsRun(length, left, consumers, states, events) && k < |states|
    ensures Invariant(length, Sum(left), states[k])
    ensures |states[k].consumers| == consumers
  {
    if k == 0 {
      StartHolds(length, left, consumers);
    } else {
      RunKeeps(length, left, consumers, states, events, k - 1);
      EventKeeps(length, Sum(left), states[k - 1], events[k - 1], states[k]);
    }
  }

  // ----- What follows from it

  /** Exactly one thread is between taking the mutex and giving it back. */
  ghost predicate Alone(s: State) {
    Holding(s.producers) + Holding(s.consumers) + MainHolds(s.main) == 1
  }

  /** Whoever is about to write or to take has the mutex alone, and the index is in bounds for it. */
  lemma MovesInBounds(
    length: nat, left: seq<nat>, consumers: nat, states: seq<State>, events: seq<Event>, k: nat, i: nat)
    requires IsRun(length, left, consumers, states, events) && k < |states|
    ensures var s := states[k];
            i < |s.producers| && s.producers[i] == Locked ==>
              0 <= s.bufferIndex < length && s.mutex == 0 && Alone(s)
    ensures var s := states[k];
            i < |s.consumers| && s.consumers[i] == Locked ==>
              0 < s.bufferIndex <= length && s.mutex == 0 && Alone(s)
  {
    RunKeeps(length, left, consumers, states, events, k);
    var s := states[k];
    if i < |s.producers| {
      Present(s.producers, i);
    }
    if i < |s.consumers| {
      Present(s.consumers, i);
    }
  }

  /** Once the producers are joined, index 0 means that everything produced has been consumed. */
  lemma DrainDetectionExact(length: nat, left: seq<nat>, consumers: nat, states: seq<State>, events: seq<Event>, k: nat)
    requires IsRun(length, left, consumers, states, events) && k < |states| && ProducersJoined(states[k])
    ensures states[k].inserted == Sum(left)
    ensures states[k].bufferIndex == 0 <==> states[k].removed == Sum(left)
  {
    RunKeeps(length, left, consumers, states, events, k);
    var s := states[k];
    assert Moved !in s.producers && Unlocked !in s.producers;
    SumZero(s.left);
  }

  /** The main thread leaves its loop only when everything produced has been consumed. */
  lemma MainLeavesWhenDrained(
    length: nat, left: seq<nat>, consumers: nat, states: seq<State>, events: seq<Event>, k: nat)
    requires IsRun(length, left, consumers, states, events) && k < |states| && states[k].main == Finished
    ensures states[k].removed == states[k].inserted == Sum(left)
  {
    RunKeeps(length, left, consumers, states, events, k);
    DrainDetectionExact(length, left, consumers, states, events, k);
  }

  /** No producer and no consumer can move, and the main thread is not the one that keeps them. */
  ghost predicate ThreadsStuck(s: State) {
    MainHolds(s.main) == 0 && forall e: Event :: e != MainThread ==> !Enabled(s, e)
  }

  /**
    No deadlock: then the producers are done and the buffer is drained; and if the main thread
    cannot move either, it has seen so.
   */
  lemma StuckOnlyWhenDrained(
    length: nat, left: seq<nat>, consumers: nat, states: seq<State>, events: seq<Event>, k: nat)
    requires length >= 1 && consumers >= 1 && IsRun(length, left, consumers, states, events) && k < |states|
    requires ThreadsStuck(states[k])
    ensures ProducersJoined(states[k]) && states[k].bufferIndex == 0
    ensures forall i :: 0 <= i < consumers ==> i < |states[k].consumers| && states[k].consumers[i] == Idle
    ensures !Enabled(states[k], MainThread) ==> states[k].main == Finished
  {
    RunKeeps(length, left, consumers, states, events, k);
    var s := states[k];
    forall i | 0 <= i < |s.producers|
      ensures s.producers[i] in {Idle, Claimed, Done}
    {
      assert !Enabled(s, Producer(i));
    }
    forall i | 0 <= i < |s.consumers|
      ensures s.consumers[i] in {Idle, Claimed}
    {
      assert !Enabled(s, Consumer(i));
      Present(s.consumers, i);
    }
    assert forall pc :: pc in {Locked, Moved, Unlocked} ==> pc !in s.producers && pc !in s.consumers;
    assert s.mutex == 1;
    StuckIsDrained(length, s);
  }

  lemma StuckIsDrained(length: nat, s: State)
    requires TokensOk(length, s) && |s.left| == |s.producers| && length >= 1 && |s.consumers| >= 1
    requires forall i :: 0 <= i < |s.producers| ==> s.producers[i] in {Idle, Claimed, Done}
    requires forall i :: 0 <= i < |s.consumers| ==> s.consumers[i] in {Idle, Claimed}
    requires ThreadsStuck(s) && s.mutex == 1
    ensures ProducersJoined(s) && s.bufferIndex == 0
    ensures forall i :: 0 <= i < |s.consumers| ==> s.consumers[i] == Idle
  {
    assert forall pc :: pc in {Locked, Moved, Unlocked} ==> pc !in s.producers && pc !in s.consumers;
    forall i | 0 <= i < |s.consumers|
      ensures s.consumers[i] == Idle
    {
      assert !Enabled(s, Consumer(i));
    }
    assert Claimed !in s.consumers;
    assert !Enabled(s, Consumer(0));
    forall i | 0 <= i < |s.producers|
      ensures s.producers[i] != Claimed
    {
      assert !Enabled(s, Producer(i));
    }
    assert Claimed !in s.producers;
    assert s.full == length;
    forall i | 0 <= i < |s.producers|
      ensures s.producers[i] == Done
    {
      assert !Enabled(s, Producer(i));
    }
  }

  /** Steps still to be made by producers and consumers: five for each insertion and removal that is to come. */
  function Work(total: int, s: State): int {
    10 * total - 5 * (s.inserted + s.removed)
    + Progress(s.producers) + Progress(s.consumers)
  }

  /** How much less is to be done by a thread that is part of the way through, or more. */
  function Weight(pc: Pc): int {
    match pc
    case Claimed => -1
    case Locked => -2
    case Moved => 2
    case Unlocked => 1
    case _ => 0
  }

  function Progress(threads: seq<Pc>): int {
    2 * Count(threads, Moved) + Count(threads, Unlocked) - Count(threads, Claimed) - 2 * Count(threads, Locked)
  }

  lemma ProgressMoves(threads: seq<Pc>, i: nat, to: Pc)
    requires i < |threads|
    ensures Progress(threads[i := to]) == Progress(threads) - Weight(threads[i]) + Weight(to)
  {
    Moves(threads, i, to);
  }

  lemma ProducerWorkShrinks(total: int, s: State, i: nat)
    requires Enabled(s, Producer(i))
    ensures Work(total, ProducerStep(s, i)) == Work(total, s) - 1
  {
    ProgressMoves(s.producers, i, ProducerStep(s, i).producers[i]);
  }

  lemma ConsumerWorkShrinks(total: int, s: State, i: nat)
    requires Enabled(s, Consumer(i))
    ensures Work(total, ConsumerStep(s, i)) == Work(total, s) - 1
  {
    ProgressMoves(s.consumers, i, ConsumerStep(s, i).consumers[i]);
  }

  lemma WorkShrinks(total: int, s: State, e: Event, s': State)
    requires Step(s, e, s')
    ensures Work(total, s') - s'.looks == Work(total, s) - s.looks - 1
  {
    match e {
      case Producer(i) => ProducerWorkShrinks(total, s, i);
      case Consumer(i) => ConsumerWorkShrinks(total, s, i);
      case MainThread =>
    }
  }

  lemma StartWork(length: nat, left: seq<nat>, consumers: nat)
    ensures Work(Sum(left), Start(length, left, consumers)) == 10 * Sum(left)
  {
    var s := Start(length, left, consumers);
    assert forall pc :: pc !in {Idle, Done} ==> pc !in s.producers && pc !in s.consumers;
  }

  /** Every step of a producer or consumer does one unit of the work. */
  lemma {:induction false} WorkCountsSteps(
    length: nat, left: seq<nat>, consumers: nat, states: seq<State>, events: seq<Event>, k: nat)
    requires IsRun(length, left, consumers, states, events) && k < |states|
    ensures k + Work(Sum(left), states[k]) == 10 * Sum(left) + states[k].looks
  {
    if k == 0 {
      StartWork(length, left, consumers);
    } else {
      WorkShrinks(Sum(left), states[k - 1], events[k - 1], states[k]);
      WorkCountsSteps(length, left, consumers, states, events, k - 1);
    }
  }

  /** Every producer that is part of the way through has an insertion left. */
  lemma {:induction false} LeftCovers(threads: seq<Pc>, left: seq<nat>)
    requires |left| == |threads|
    requires forall i :: 0 <= i < |left| ==> (threads[i] == Done <==> left[i] == 0)
    ensures Sum(left) >= Before(threads) + Behind(threads)
  {
    if threads != [] {
      var last := |threads| - 1;
      LeftCovers(threads[..last], left[..last]);
      assert threads == threads[..last] + [threads[last]];
    }
  }

  /** Producers and consumers make at most ten steps per item, however often the main thread looks. */
  lemma ThreadStepsBounded(
    length: nat, left: seq<nat>, consumers: nat, states: seq<State>, events: seq<Event>, k: nat)
    requires IsRun(length, left, consumers, states, events) && k < |states|
    ensures k - states[k].looks <= 10 * Sum(left)
  {
    RunKeeps(length, left, consumers, states, events, k);
    WorkCountsSteps(length, left, consumers, states, events, k);
    var s := states[k];
    LeftCovers(s.producers, s.left);
    assert Sum(left) - s.inserted >= Before(s.producers);
    assert Sum(left) - s.removed >= s.bufferIndex >= Before(s.consumers);
  }

  /** An interleaving that can go no further has made exactly ten such steps per item, and delivered them all. */
  lemma FinishedRunDeliversAll(length: nat, left: seq<nat>, consumers: nat, states: seq<State>, events: seq<Event>)
    requires length >= 1 && consumers >= 1 && IsRun(length, left, consumers, states, events)
    requires forall e :: !Enabled(states[|events|], e)
    ensures var s := states[|events|];
            && s.removed == s.inserted == Sum(left) && s.main == Finished
            && |events| - s.looks == 10 * Sum(left)
  {
    var k := |events|;
    var s := states[k];
    assert !Enabled(s, MainThread);
    StuckOnlyWhenDrained(length, left, consumers, states, events, k);
    DrainDetectionExact(length, left, consumers, states, events, k);
    WorkCountsSteps(length, left, consumers, states, events, k);
    RunKeeps(length, left, consumers, states, events, k);
    assert forall pc :: pc != Done ==> pc !in s.producers;
    assert forall pc :: pc != Idle ==> pc !in s.consumers;
  }

  // ----- The end is always within reach

  /** A look at the index by the main thread: it takes the mutex, reads, gives it back. */
  lemma LookDecides(s: State)
    requires s.main == Polling && s.mutex > 0
    ensures Enabled(s, MainThread)
    ensures var taken := Apply(s, MainThread);
            && taken.main == Looking && taken.mutex == s.mutex - 1 && Enabled(taken, MainThread)
            && var seen := Apply(taken, MainThread);
               && seen.main == Seen(s.bufferIndex == 0) && Enabled(seen, MainThread)
               && Apply(seen, MainThread)
                  == s.(looks := s.looks + 3, main := if s.bufferIndex == 0 then Finished else Polling)
  {
  }

  /** An interleaving and the states it goes through. */
  datatype Run = Run(states: seq<State>, events: seq<Event>)

  ghost predicate EndsIn(length: nat, left: seq<nat>, consumers: nat, run: Run, s: State) {
    IsRun(length, left, consumers, run.states, run.events) && s == run.states[|run.events|]
  }

  /** `run'` goes on from where `run` ends. */
  predicate Continues(run: Run, run': Run) {
    run.states <= run'.states && run.events <= run'.events
  }

  lemma Extend(length: nat, left: seq<nat>, consumers: nat, run: Run, s: State, e: Event) returns (run': Run)
    requires EndsIn(length, left, consumers, run, s) && Enabled(s, e)
    ensures EndsIn(length, left, consumers, run', Apply(s, e)) && Continues(run, run')
    ensures |run'.events| == |run.events| + 1
  {
    run' := Run(run.states + [Apply(s, e)], run.events + [e]);
    forall i | 0 <= i < |run'.events|
      ensures Step(run'.states[i], run'.events[i], run'.states[i + 1])
    {
      if i < |run.events| {
        assert Step(run.states[i], run.events[i], run.states[i + 1]);
      }
    }
  }

  /** The main thread, if it holds the mutex, can give it back. */
  lemma MainLetsGo(length: nat, left: seq<nat>, consumers: nat, run: Run, s: State) returns (run': Run, s': State)
    requires EndsIn(length, left, consumers, run, s)
    ensures EndsIn(length, left, consumers, run', s') && Continues(run, run') && MainHolds(s'.main) == 0
  {
    run', s' := run, s;
    if s'.main == Looking {
      run' := Extend(length, left, consumers, run', s', MainThread);
      s' := Apply(s', MainThread);
    }
    if s'.main.Seen? {
      run' := Extend(length, left, consumers, run', s', MainThread);
      s' := Apply(s', MainThread);
    }
  }

  /** The producers and consumers can go on until none of them can. */
  lemma {:induction false} ThreadsRunOut(length: nat, left: seq<nat>, consumers: nat, run: Run, s: State)
    returns (run': Run, s': State)
    requires EndsIn(length, left, consumers, run, s) && MainHolds(s.main) == 0
    ensures EndsIn(length, left, consumers, run', s') && Continues(run, run') && ThreadsStuck(s')
    decreases 10 * Sum(left) + s.looks - |run.events|
  {
    ThreadStepsBounded(length, left, consumers, run.states, run.events, |run.events|);
    if ThreadsStuck(s) {
      run', s' := run, s;
    } else {
      var e: Event :| e != MainThread && Enabled(s, e);
      var run1 := Extend(length, left, consumers, run, s, e);
      ThreadStepsBounded(length, left, consumers, run1.states, run1.events, |run1.events|);
      run', s' := ThreadsRunOut(length, left, consumers, run1, Apply(s, e));
    }
  }

  /** With the buffer drained, the main thread can join, look and leave. */
  lemma MainCanLeave(length: nat, left: seq<nat>, consumers: nat, run: Run, s: State)
    returns (run': Run, s': State)
    requires EndsIn(length, left, consumers, run, s) && ThreadsStuck(s)
    requires ProducersJoined(s) && s.bufferIndex == 0 && s.mutex > 0
    ensures EndsIn(length, left, consumers, run', s') && Continues(run, run')
    ensures s' == s.(main := Finished, looks := s'.looks)
  {
    run', s' := run, s;
    if s'.main == Joining {
      run' := Extend(length, left, consumers, run', s', MainThread);
      s' := Apply(s', MainThread);
    }
    if s'.main == Polling {
      LookDecides(s');
      run' := Extend(length, left, consumers, run', s', MainThread);
      s' := Apply(s', MainThread);
      run' := Extend(length, left, consumers, run', s', MainThread);
      s' := Apply(s', MainThread);
      run' := Extend(length, left, consumers, run', s', MainThread);
      s' := Apply(s', MainThread);
    }
  }

  lemma StuckWithoutMain(s: State, s': State)
    requires ThreadsStuck(s) && s' == s.(main := Finished, looks := s'.looks)
    ensures forall e :: !Enabled(s', e)
  {
    forall e: Event
      ensures !Enabled(s', e)
    {
      assert e != MainThread ==> Enabled(s', e) == Enabled(s, e);
    }
  }

  /** From wherever an interleaving has come, it can be carried on until no thread can move, main included. */
  lemma CanFinish(length: nat, left: seq<nat>, consumers: nat, states: seq<State>, events: seq<Event>)
    returns (states': seq<State>, events': seq<Event>)
    requires length >= 1 && consumers >= 1 && IsRun(length, left, consumers, states, events)
    ensures IsRun(length, left, consumers, states', events') && states <= states' && events <= events'
    ensures forall e :: !Enabled(states'[|events'|], e)
    ensures states'[|events'|].main == Finished
  {
    var run := Run(states, events);
    var run1, s1 := MainLetsGo(length, left, consumers, run, states[|events|]);
    var run2, s2 := ThreadsRunOut(length, left, consumers, run1, s1);
    StuckOnlyWhenDrained(length, left, consumers, run2.states, run2.events, |run2.events|);
    StuckHasMutex(length, left, consumers, run2.states, run2.events);
    var run3, s3 := MainCanLeave(length, left, consumers, run2, s2);
    StuckWithoutMain(s2, s3);
    states', events' := run3.states, run3.events;
  }

  lemma StuckHasMutex(length: nat, left: seq<nat>, consumers: nat, states: seq<State>, events: seq<Event>)
    requires length >= 1 && consumers >= 1 && IsRun(length, left, consumers, states, events)
    requires ThreadsStuck(states[|events|])
    ensures states[|events|].mutex > 0
  {
    StuckOnlyWhenDrained(length, left, consumers, states, events, |events|);
    RunKeeps(length, left, consumers, states, events, |events|);
    var s := states[|events|];
    assert forall pc :: pc != Done ==> pc !in s.producers;
    assert forall pc :: pc != Idle ==> pc !in s.consumers;
  }

  /** So there is a complete interleaving for all sizes, and it ends as `FinishedRunDeliversAll` says. */
  lemma SomeRunFinishes(length: nat, left: seq<nat>, consumers: nat)
    returns (states: seq<State>, events: seq<Event>)
    requires length >= 1 && consumers >= 1
    ensures IsRun(length, left, consumers, states, events)
    ensures forall e :: !Enabled(states[|events|], e)
    ensures states[|events|].removed == Sum(left) && states[|events|].main == Finished
  {
    states, events := CanFinish(length, left, consumers, [Start(length, left, consumers)], []);
    FinishedRunDeliversAll(length, left, consumers, states, events);
  }
}
