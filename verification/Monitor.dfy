/**
  The hand-built monitor: two condition variables made of a flag, a counter and a semaphore
  each, entered under `monitor_mutex`, with producers that stop and consumers that do not.
  A state holds the shared globals and where every thread is; an event is one atomic step of
  one thread.  The code inside the monitor is cut between its statements, so parked threads
  and the main thread may act there.  The buffer is modelled by how much of it is in use.
 */
module Monitor {
  import opened Sequences

  /** Where a thread is: outside, parked on its semaphore, released but not yet rechecking, inside, finished. */
  datatype Pc = Ready | Parked | Woken | Inside | Done

  /** How far the thread inside has come; `Counted` carries what it read of the blocked count. */
  datatype Stage = Checked | Moved | Opened | Counted(waiting: bool) | Signalled | Closed

  datatype Holder = Free | Producer(i: nat, stage: Stage) | Consumer(i: nat, stage: Stage)

  /** `tokens` is the value of the semaphore, `count` is `blockedThreadCount`. */
  datatype Condition = Condition(blocked: bool, count: int, tokens: nat)

  datatype State = State(
    bufferIndex: int, empty: Condition, full: Condition, holder: Holder,
    producers: seq<Pc>, left: seq<nat>, consumers: seq<Pc>,
    inserted: nat, removed: nat)

  datatype Event =
    | ProducerEnters(i: nat) | ProducerSteps | ProducerWakes(i: nat)
    | ConsumerEnters(i: nat) | ConsumerSteps | ConsumerWakes(i: nat)

  /** `monitor_init`, with `left[i]` insertions to be made by producer `i`. */
  function Start(left: seq<nat>, consumers: nat): State {
    State(-1, Condition(true, 0, 0), Condition(false, 0, 0), Free,
          seq(|left|, i requires 0 <= i < |left| => if left[i] == 0 then Done else Ready), left,
          seq(consumers, _ => Ready), 0, 0)
  }

  predicate Enabled(s: State, e: Event) {
    match e
    case ProducerEnters(i) => s.holder == Free && i < |s.producers| && s.producers[i] in {Ready, Woken}
    case ProducerSteps => s.holder.Producer?
    case ProducerWakes(i) => i < |s.producers| && s.producers[i] == Parked && s.full.tokens > 0
    case ConsumerEnters(i) => s.holder == Free && i < |s.consumers| && s.consumers[i] in {Ready, Woken}
    case ConsumerSteps => s.holder.Consumer?
    case ConsumerWakes(i) => i < |s.consumers| && s.consumers[i] == Parked && s.empty.tokens > 0
  }

  /** The check under the monitor lock: go in, or count yourself as blocked and park. */
  function ProducerEnter(s: State, i: nat): State
    requires i < |s.producers|
  {
    if s.full.blocked then
      s.(full := s.full.(count := s.full.count + 1), producers := s.producers[i := Parked])
    else
      s.(holder := Producer(i, Checked), producers := s.producers[i := Inside])
  }

  function ConsumerEnter(s: State, i: nat): State
    requires i < |s.consumers|
  {
    if s.empty.blocked then
      s.(empty := s.empty.(count := s.empty.count + 1), consumers := s.consumers[i := Parked])
    else
      s.(holder := Consumer(i, Checked), consumers := s.consumers[i := Inside])
  }

  /** The next statement of `monitor_insert`. */
  function ProducerStep(length: nat, s: State, i: nat, stage: Stage): State
    requires i < |s.producers| == |s.left|
  {
    match stage
    case Checked =>
      s.(bufferIndex := s.bufferIndex + 1, inserted := s.inserted + 1, holder := Producer(i, Moved))
    case Moved =>
      s.(empty := s.empty.(blocked := false), holder := Producer(i, Opened))
    case Opened =>
      s.(holder := Producer(i, Counted(0 < s.empty.count)))
    case Counted(waiting) =>
      s.(empty := if waiting then s.empty.(count := s.empty.count - 1, tokens := s.empty.tokens + 1) else s.empty,
         holder := Producer(i, Signalled))
    case Signalled =>
      s.(full := s.full.(blocked := s.full.blocked || s.bufferIndex == length - 1), holder := Producer(i, Closed))
    case Closed =>
      var left := if s.left[i] == 0 then 0 else s.left[i] - 1;
      s.(holder := Free, left := s.left[i := left],
         producers := s.producers[i := if left == 0 then Done else Ready])
  }

  /** The next statement of `monitor_remove`; the count of blocked producers is read, never lowered. */
  function ConsumerStep(s: State, i: nat, stage: Stage): State
    requires i < |s.consumers|
  {
    match stage
    case Checked =>
      s.(bufferIndex := s.bufferIndex - 1, removed := s.removed + 1, holder := Consumer(i, Moved))
    case Moved =>
      s.(holder := Consumer(i, Counted(0 < s.full.count)))
    case Counted(waiting) =>
      s.(full := if waiting then s.full.(tokens := s.full.tokens + 1) else s.full, holder := Consumer(i, Signalled))
    case Signalled =>
      s.(full := s.full.(blocked := false), holder := Consumer(i, Opened))
    case Opened =>
      s.(empty := s.empty.(blocked := s.empty.blocked || s.bufferIndex == -1), holder := Consumer(i, Closed))
    case Closed =>
      s.(holder := Free, consumers := s.consumers[i := Ready])
  }

  predicate Shaped(s: State) {
    && |s.left| == |s.producers|
    && (s.holder.Producer? ==> s.holder.i < |s.producers|)
    && (s.holder.Consumer? ==> s.holder.i < |s.consumers|)
  }

  function Apply(length: nat, s: State, e: Event): State
    requires Shaped(s) && Enabled(s, e)
  {
    match e
    case ProducerEnters(i) => ProducerEnter(s, i)
    case ProducerSteps => ProducerStep(length, s, s.holder.i, s.holder.stage)
    case ProducerWakes(i) =>
      s.(full := s.full.(tokens := s.full.tokens - 1), producers := s.producers[i := Woken])
    case ConsumerEnters(i) => ConsumerEnter(s, i)
    case ConsumerSteps => ConsumerStep(s, s.holder.i, s.holder.stage)
    case ConsumerWakes(i) =>
      s.(empty := s.empty.(tokens := s.empty.tokens - 1), consumers := s.consumers[i := Woken])
  }

  ghost predicate Step(length: nat, s: State, e: Event, s': State) {
    Shaped(s) && Enabled(s, e) && s' == Apply(length, s, e)
  }

  /** An interleaving of the threads: from `monitor_init`, one enabled event after another. */
  ghost predicate IsRun(length: nat, left: seq<nat>, consumers: nat, states: seq<State>, events: seq<Event>) {
    && |states| == |events| + 1
    && states[0] == Start(left, consumers)
    && forall i {:trigger events[i]} :: 0 <= i < |events| ==> Step(length, states[i], events[i], states[i + 1])
  }

  // ----- The invariant

  function Items(s: State): int { s.bufferIndex + 1 }

  /** At most one thread is inside, and the holder says which. */
  ghost predicate Exclusive(s: State) {
    && Shaped(s)
    && Count(s.producers, Inside) == (if s.holder.Producer? then 1 else 0)
    && Count(s.consumers, Inside) == (if s.holder.Consumer? then 1 else 0)
    && (s.holder.Producer? ==> s.producers[s.holder.i] == Inside)
    && (s.holder.Consumer? ==> s.consumers[s.holder.i] == Inside)
  }

  /** The flags tell the truth about the buffer, except where the thread inside is about to correct them. */
  ghost predicate FlagsOk(length: nat, s: State) {
    var n := Items(s);
    && 0 <= n <= length
    && match s.holder {
         case Free => (s.empty.blocked <==> n == 0) && (s.full.blocked <==> n == length)
         case Producer(_, stage) =>
           (match stage
            case Checked => !s.full.blocked && n < length && (s.empty.blocked <==> n == 0)
            case Moved => !s.full.blocked && n >= 1
            case Closed => !s.empty.blocked && n >= 1 && (s.full.blocked <==> n == length)
            case _ => !s.full.blocked && !s.empty.blocked && n >= 1)
         case Consumer(_, stage) =>
           (match stage
            case Checked => !s.empty.blocked && n >= 1 && (s.full.blocked <==> n == length)
            case Opened => !s.empty.blocked && !s.full.blocked && n < length
            case Closed => !s.full.blocked && n < length && (s.empty.blocked <==> n == 0)
            case _ => !s.empty.blocked && n < length)
       }
  }

  /** Consumers are counted out when they are signalled; producers never are. */
  ghost predicate CountsOk(s: State) {
    && s.empty.count == Count(s.consumers, Parked) - s.empty.tokens
    && s.empty.count >= 0
    && s.full.count >= 0
    && Count(s.consumers, Done) == 0
    && (s.full.count == 0 ==> s.full.tokens == 0 && Count(s.producers, Parked) == 0 && Count(s.producers, Woken) == 0)
    && (s.holder.Producer? && s.holder.stage.Counted? ==> s.holder.stage.waiting == (s.empty.count > 0))
    && (s.holder.Consumer? && s.holder.stage.Counted? ==> s.holder.stage.waiting == (s.full.count > 0))
  }

  /** One more item than signals: between an insertion and its signal, or for the consumer about to take it. */
  function ItemInHand(s: State): nat {
    match s.holder
    case Producer(_, stage) => if stage.Moved? || stage.Opened? || stage.Counted? then 1 else 0
    case Consumer(_, stage) => if stage.Checked? then 1 else 0
    case Free => 0
  }

  function SlotInHand(s: State): nat {
    match s.holder
    case Consumer(_, stage) => if stage.Moved? || stage.Counted? then 1 else 0
    case Producer(_, stage) => if stage.Checked? then 1 else 0
    case Free => 0
  }

  /** While some consumer is parked unsignalled, every item has a signal on its way, and so for producers and slots. */
  ghost predicate WakeupsOk(length: nat, s: State) {
    && (s.empty.count > 0 ==> Items(s) <= s.empty.tokens + Count(s.consumers, Woken) + ItemInHand(s))
    && (s.full.count > 0 ==> length - Items(s) <= s.full.tokens + Count(s.producers, Woken) + SlotInHand(s))
  }

  /** Nothing is lost: insertions made, insertions left, removals and contents add up. */
  ghost predicate Conserved(total: int, s: State) {
    && |s.left| == |s.producers|
    && Items(s) == s.inserted - s.removed
    && s.inserted + Sum(s.left) == total + (if s.holder.Producer? && !s.holder.stage.Checked? then 1 else 0)
    && (forall i :: 0 <= i < |s.left| ==> (s.producers[i] == Done <==> s.left[i] == 0))
  }

  ghost predicate Invariant(length: nat, total: int, s: State) {
    && Exclusive(s) && FlagsOk(length, s) && CountsOk(s) && WakeupsOk(length, s) && Conserved(total, s)
  }

  lemma ProducerEnterKeeps(length: nat, total: int, s: State, i: nat)
    requires Invariant(length, total, s) && Enabled(s, ProducerEnters(i))
    ensures Invariant(length, total, ProducerEnter(s, i))
  {
    Moves(s.producers, i, ProducerEnter(s, i).producers[i]);
  }

  lemma ProducerWakeKeeps(length: nat, total: int, s: State, i: nat)
    requires Invariant(length, total, s) && Enabled(s, ProducerWakes(i))
    ensures Invariant(length, total, Apply(length, s, ProducerWakes(i)))
  {
    Moves(s.producers, i, Woken);
  }

  lemma ConsumerEnterKeeps(length: nat, total: int, s: State, i: nat)
    requires Invariant(length, total, s) && Enabled(s, ConsumerEnters(i))
    ensures Invariant(length, total, ConsumerEnter(s, i))
  {
    Moves(s.consumers, i, ConsumerEnter(s, i).consumers[i]);
  }

  lemma ConsumerWakeKeeps(length: nat, total: int, s: State, i: nat)
    requires Invariant(length, total, s) && Enabled(s, ConsumerWakes(i))
    ensures Invariant(length, total, Apply(length, s, ConsumerWakes(i)))
  {
    Moves(s.consumers, i, Woken);
  }

  lemma ProducerStepKeeps(length: nat, total: int, s: State)
    requires length >= 1 && Invariant(length, total, s) && s.holder.Producer?
    ensures Invariant(length, total, Apply(length, s, ProducerSteps))
  {
    if s.holder.stage == Closed {
      var i := s.holder.i;
      var s' := Apply(length, s, ProducerSteps);
      Moves(s.producers, i, s'.producers[i]);
      SumUpdate(s.left, i, s'.left[i]);
    }
  }

  lemma ConsumerStepKeeps(length: nat, total: int, s: State)
    requires length >= 1 && Invariant(length, total, s) && s.holder.Consumer?
    ensures Invariant(length, total, Apply(length, s, ConsumerSteps))
  {
    if s.holder.stage == Closed {
      Moves(s.consumers, s.holder.i, Ready);
    }
  }

  lemma StartHolds(length: nat, left: seq<nat>, consumers: nat)
    requires length >= 1
    ensures Invariant(length, Sum(left), Start(left, consumers))
  {
    var s := Start(left, consumers);
    assert Parked !in s.producers && Inside !in s.producers && Woken !in s.producers;
    assert forall pc :: pc != Ready ==> pc !in s.consumers;
  }

  lemma EventKeeps(length: nat, total: int, s: State, e: Event, s': State)
    requires length >= 1 && Invariant(length, total, s) && Step(length, s, e, s')
    ensures Invariant(length, total, s')
  {
    match e {
      case ProducerEnters(i) => ProducerEnterKeeps(length, total, s, i);
      case ProducerSteps => ProducerStepKeeps(length, total, s);
      case ProducerWakes(i) => ProducerWakeKeeps(length, total, s, i);
      case ConsumerEnters(i) => ConsumerEnterKeeps(length, total, s, i);
      case ConsumerSteps => ConsumerStepKeeps(length, total, s);
      case ConsumerWakes(i) => ConsumerWakeKeeps(length, total, s, i);
    }
  }

  lemma ThreadsStay(length: nat, s: State, e: Event, s': State)
    requires Step(length, s, e, s')
    ensures |s'.consumers| == |s.consumers| && |s'.producers| == |s.producers|
  {
  }

  /** Every interleaving, of any number of threads, keeps the invariant. */
  lemma {:induction false} RunKeeps(
    length: nat, left: seq<nat>, consumers: nat, states: seq<State>, events: seq<Event>, k: nat)
    requires length >= 1 && IsRun(length, left, consumers, states, events) && k < |states|
    ensures Invariant(length, Sum(left), states[k])
    ensures |states[k].consumers| == consumers && |states[k].producers| == |left|
  {
    if k == 0 {
      StartHolds(length, left, consumers);
    } else {
      RunKeeps(length, left, consumers, states, events, k - 1);
      EventKeeps(length, Sum(left), states[k - 1], events[k - 1], states[k]);
      ThreadsStay(length, states[k - 1], events[k - 1], states[k]);
    }
  }

  // ----- What follows from it

  /** With the monitor free and a consumer parked unsignalled, every item has a wakeup on its way; and so for slots. */
  lemma NoLostWakeup(length: nat, left: seq<nat>, consumers: nat, states: seq<State>, events: seq<Event>, k: nat)
    requires length >= 1 && IsRun(length, left, consumers, states, events) && k < |states| && states[k].holder == Free
    ensures var s := states[k]; Count(s.consumers, Parked) > s.empty.tokens ==>
              Items(s) <= s.empty.tokens + Count(s.consumers, Woken)
    ensures var s := states[k]; Count(s.producers, Parked) > 0 ==>
              length - Items(s) <= s.full.tokens + Count(s.producers, Woken)
  {
    RunKeeps(length, left, consumers, states, events, k);
  }

  /** Surplus producer tokens do no harm: occupancy stays between none and all, whoever wakes. */
  lemma OccupancyInBounds(length: nat, left: seq<nat>, consumers: nat, states: seq<State>, events: seq<Event>, k: nat)
    requires length >= 1 && IsRun(length, left, consumers, states, events) && k < |states|
    ensures var s := states[k]; 0 <= s.inserted - s.removed <= length
    ensures var s := states[k]; s.holder.Producer? && s.holder.stage == Checked ==> Items(s) < length
    ensures var s := states[k]; s.holder.Consumer? && s.holder.stage == Checked ==> Items(s) > 0
  {
    RunKeeps(length, left, consumers, states, events, k);
  }

  // ----- The count of blocked producers, and the tokens it leads to

  /** How often a producer has found the buffer full and parked, in the first `k` events. */
  function Parks(states: seq<State>, events: seq<Event>, k: nat): nat
    requires k <= |events| < |states|
  {
    if k == 0 then 0
    else
      Parks(states, events, k - 1)
      + if events[k - 1].ProducerEnters? && states[k - 1].full.blocked then 1 else 0
  }

  /** How often a consumer has signalled on its way out of a removal: when a producer had parked by then. */
  function Signals(states: seq<State>, events: seq<Event>, k: nat): nat
    requires k <= |events| < |states|
  {
    if k == 0 then 0
    else
      var s := states[k - 1];
      Signals(states, events, k - 1)
      + if events[k - 1] == ConsumerSteps && s.holder.Consumer? && s.holder.stage.Counted?
           && Parks(states, events, k - 1) > 0 then 1 else 0
  }

  function Wakes(events: seq<Event>, k: nat): nat
    requires k <= |events|
  {
    if k == 0 then 0 else Wakes(events, k - 1) + if events[k - 1].ProducerWakes? then 1 else 0
  }

  lemma FullChanges(length: nat, s: State, e: Event, s': State)
    requires CountsOk(s) && Step(length, s, e, s')
    ensures s'.full.count == s.full.count + if e.ProducerEnters? && s.full.blocked then 1 else 0
    ensures s'.full.tokens == s.full.tokens - (if e.ProducerWakes? then 1 else 0)
              + (if e == ConsumerSteps && s.holder.stage.Counted? && s.full.count > 0 then 1 else 0)
  {
  }

  /**
    The count of blocked producers is how often producers have parked: it is never lowered.  The
    tokens are the signals not yet taken up, one for each removal after the first parking.
   */
  lemma {:induction false} ProducersCounted(
    length: nat, left: seq<nat>, consumers: nat, states: seq<State>, events: seq<Event>, k: nat)
    requires length >= 1 && IsRun(length, left, consumers, states, events) && k < |states|
    ensures states[k].full.count == Parks(states, events, k)
    ensures states[k].full.tokens == Signals(states, events, k) - Wakes(events, k)
  {
    if k > 0 {
      ProducersCounted(length, left, consumers, states, events, k - 1);
      RunKeeps(length, left, consumers, states, events, k - 1);
      FullChanges(length, states[k - 1], events[k - 1], states[k]);
    }
  }

  lemma {:induction false} CountNeverLowered(
    length: nat, left: seq<nat>, consumers: nat, states: seq<State>, events: seq<Event>, j: nat, k: nat)
    requires length >= 1 && IsRun(length, left, consumers, states, events) && j <= k < |states|
    ensures states[j].full.count <= states[k].full.count
  {
    if j < k {
      CountNeverLowered(length, left, consumers, states, events, j, k - 1);
      RunKeeps(length, left, consumers, states, events, k - 1);
      FullChanges(length, states[k - 1], events[k - 1], states[k]);
    }
  }

  /** Before any producer has parked there is no token, and nobody to take one. */
  lemma NoTokenBeforeParking(
    length: nat, left: seq<nat>, consumers: nat, states: seq<State>, events: seq<Event>, k: nat)
    requires length >= 1 && IsRun(length, left, consumers, states, events) && k < |states|
    requires states[k].full.count == 0
    ensures var s := states[k];
            s.full.tokens == 0 && Count(s.producers, Parked) == 0 && Count(s.producers, Woken) == 0
  {
    RunKeeps(length, left, consumers, states, events, k);
  }

  // ----- The end

  ghost predicate ProducersJoined(s: State) {
    forall i :: 0 <= i < |s.producers| ==> s.producers[i] == Done
  }

  /** What the main thread concludes when it reads a blocked count of `NumConsumer` is true. */
  lemma TerminationDetectionSound(
    length: nat, left: seq<nat>, consumers: nat, states: seq<State>, events: seq<Event>, k: nat)
    requires length >= 1 && consumers >= 1 && IsRun(length, left, consumers, states, events) && k < |states|
    requires var s := states[k]; ProducersJoined(s) && s.empty.count == consumers
    ensures var s := states[k]; Items(s) == 0 && s.removed == s.inserted == Sum(left)
  {
    RunKeeps(length, left, consumers, states, events, k);
    var s := states[k];
    CountIsAll(s.consumers, Parked);
    CountOfAll(s.consumers, Parked, Woken);
    CountOfAll(s.consumers, Parked, Inside);
    CountOfAll(s.producers, Done, Inside);
    SumZero(s.left);
  }

  /** No deadlock: when no thread can move, the producers are done and the main thread sees every consumer blocked. */
  lemma StuckOnlyWhenDone(length: nat, left: seq<nat>, consumers: nat, states: seq<State>, events: seq<Event>, k: nat)
    requires length >= 1 && consumers >= 1 && IsRun(length, left, consumers, states, events) && k < |states|
    requires var s := states[k]; forall e :: !Enabled(s, e)
    ensures var s := states[k]; ProducersJoined(s) && s.empty.count == consumers
  {
    RunKeeps(length, left, consumers, states, events, k);
    var s := states[k];
    assert !Enabled(s, ProducerSteps) && !Enabled(s, ConsumerSteps);
    forall i | 0 <= i < |s.consumers|
      ensures s.consumers[i] == Parked
    {
      assert !Enabled(s, ConsumerEnters(i));
      assert s.consumers[i] in multiset(s.consumers);
    }
    CountIsAll(s.consumers, Parked);
    CountOfAll(s.consumers, Parked, Woken);
    assert !Enabled(s, ConsumerWakes(0));
    forall i | 0 <= i < |s.producers|
      ensures s.producers[i] in {Parked, Done}
    {
      assert !Enabled(s, ProducerEnters(i)) && !Enabled(s, ProducerWakes(i));
      assert s.producers[i] in multiset(s.producers);
    }
    NobodyParked(length, s);
  }

  /** A parked producer without a token would need a buffer that is full and empty. */
  lemma NobodyParked(length: nat, s: State)
    requires length >= 1 && FlagsOk(length, s) && CountsOk(s) && WakeupsOk(length, s) && s.holder == Free
    requires s.empty.count > 0 && s.empty.tokens == 0 && Count(s.consumers, Woken) == 0
    requires forall i :: 0 <= i < |s.producers| ==> s.producers[i] in {Parked, Done}
    requires forall e :: !Enabled(s, e)
    ensures ProducersJoined(s)
  {
    assert Woken !in s.producers;
    forall i | 0 <= i < |s.producers|
      ensures s.producers[i] != Parked
    {
      if s.full.tokens == 0 {
        assert Count(s.producers, Parked) == 0;
        assert s.producers[i] in multiset(s.producers);
      } else {
        assert !Enabled(s, ProducerWakes(i));
      }
    }
  }

  // ----- Every interleaving stops

  /** Work the thread inside still causes: its own steps, a token it may post, its return outside. */
  function StageWork(h: Holder): nat {
    match h
    case Free => 0
    case Producer(_, stage) =>
      (match stage
       case Checked => 0
       case Moved => 8
       case Opened => 7
       case Counted(_) => 6
       case Signalled => 3
       case Closed => 2)
    case Consumer(_, stage) =>
      (match stage
       case Checked => 0
       case Moved => 8
       case Counted(_) => 7
       case Signalled => 4
       case Opened => 3
       case Closed => 2)
  }

  /** Every event lowers this: insertions to come, items, tokens and threads that may try to enter. */
  function Work(total: int, s: State): int {
    18 * (total - s.inserted) + 9 * Items(s) + 2 * s.empty.tokens + 2 * s.full.tokens
    + Count(s.producers, Ready) + Count(s.producers, Woken) + Count(s.consumers, Ready) + Count(s.consumers, Woken)
    + StageWork(s.holder)
  }

  lemma ProducerMovesShrink(length: nat, total: int, s: State, e: Event)
    requires Exclusive(s) && Enabled(s, e) && (e.ProducerEnters? || e.ProducerWakes?)
    ensures Work(total, Apply(length, s, e)) < Work(total, s)
  {
    Moves(s.producers, e.i, Apply(length, s, e).producers[e.i]);
  }

  lemma ConsumerMovesShrink(length: nat, total: int, s: State, e: Event)
    requires Exclusive(s) && Enabled(s, e) && (e.ConsumerEnters? || e.ConsumerWakes?)
    ensures Work(total, Apply(length, s, e)) < Work(total, s)
  {
    Moves(s.consumers, e.i, Apply(length, s, e).consumers[e.i]);
  }

  lemma ProducerStepShrinks(length: nat, total: int, s: State)
    requires Exclusive(s) && s.holder.Producer?
    ensures Work(total, Apply(length, s, ProducerSteps)) < Work(total, s)
  {
    if s.holder.stage == Closed {
      Moves(s.producers, s.holder.i, Apply(length, s, ProducerSteps).producers[s.holder.i]);
    }
  }

  lemma ConsumerStepShrinks(length: nat, total: int, s: State)
    requires Exclusive(s) && s.holder.Consumer?
    ensures Work(total, Apply(length, s, ConsumerSteps)) < Work(total, s)
  {
    if s.holder.stage == Closed {
      Moves(s.consumers, s.holder.i, Ready);
    }
  }

  lemma WorkShrinks(length: nat, total: int, s: State, e: Event, s': State)
    requires Exclusive(s) && Step(length, s, e, s')
    ensures Work(total, s') < Work(total, s)
  {
    if e == ProducerSteps {
      ProducerStepShrinks(length, total, s);
    } else if e == ConsumerSteps {
      ConsumerStepShrinks(length, total, s);
    } else if e.ProducerEnters? || e.ProducerWakes? {
      ProducerMovesShrink(length, total, s, e);
    } else {
      ConsumerMovesShrink(length, total, s, e);
    }
  }

  lemma {:induction false} WorkBoundsRun(
    length: nat, left: seq<nat>, consumers: nat, states: seq<State>, events: seq<Event>, k: nat)
    requires length >= 1 && IsRun(length, left, consumers, states, events) && k < |states|
    ensures k + Work(Sum(left), states[k]) <= Work(Sum(left), states[0])
  {
    if k > 0 {
      RunKeeps(length, left, consumers, states, events, k - 1);
      WorkShrinks(length, Sum(left), states[k - 1], events[k - 1], states[k]);
      WorkBoundsRun(length, left, consumers, states, events, k - 1);
    }
  }

  /** No interleaving runs for ever; its length is bounded by the insertions and the threads. */
  lemma RunsAreBounded(length: nat, left: seq<nat>, consumers: nat, states: seq<State>, events: seq<Event>)
    requires length >= 1 && IsRun(length, left, consumers, states, events)
    ensures |events| <= 18 * Sum(left) + |left| + consumers
  {
    WorkBoundsRun(length, left, consumers, states, events, |events|);
    RunKeeps(length, left, consumers, states, events, |events|);
    var s := states[0];
    CountIsAll(s.producers, Ready);
    CountIsAll(s.consumers, Ready);
    assert Woken !in s.producers && Woken !in s.consumers;
    LeftCovers(states[|events|]);
  }

  lemma LeftCovers(s: State)
    requires Shaped(s)
    ensures Sum(s.left) >= 0
    ensures s.holder.Producer? ==> Sum(s.left) >= s.left[s.holder.i]
  {
    if s.holder.Producer? {
      SumNonNegative(s.left, s.holder.i);
    } else if s.left != [] {
      SumNonNegative(s.left, 0);
    }
  }

  /** A run that can go no further has moved every item from a producer to a consumer, and the main thread can tell. */
  lemma FinishedRunDeliversAll(length: nat, left: seq<nat>, consumers: nat, states: seq<State>, events: seq<Event>)
    requires length >= 1 && consumers >= 1 && IsRun(length, left, consumers, states, events)
    requires forall e :: !Enabled(states[|events|], e)
    ensures var s := states[|events|];
            && ProducersJoined(s) && s.empty.count == consumers
            && Items(s) == 0 && s.removed == s.inserted == Sum(left)
  {
    StuckOnlyWhenDone(length, left, consumers, states, events, |events|);
    TerminationDetectionSound(length, left, consumers, states, events, |events|);
  }

  /** From wherever an interleaving has come, it can be carried on until no thread can move. */
  lemma {:induction false} CanFinish(
    length: nat, left: seq<nat>, consumers: nat, states: seq<State>, events: seq<Event>)
    returns (states': seq<State>, events': seq<Event>)
    requires length >= 1 && consumers >= 1 && IsRun(length, left, consumers, states, events)
    ensures IsRun(length, left, consumers, states', events') && states <= states' && events <= events'
    ensures forall e :: !Enabled(states'[|events'|], e)
    decreases 18 * Sum(left) + |left| + consumers - |events|
  {
    RunsAreBounded(length, left, consumers, states, events);
    var s := states[|events|];
    if e: Event :| Enabled(s, e) {
      RunKeeps(length, left, consumers, states, events, |events|);
      var states1, events1 := states + [Apply(length, s, e)], events + [e];
      forall i | 0 <= i < |events1|
        ensures Step(length, states1[i], events1[i], states1[i + 1])
      {
        if i < |events| {
          assert Step(length, states[i], events[i], states[i + 1]);
        }
      }
      RunsAreBounded(length, left, consumers, states1, events1);
      states', events' := CanFinish(length, left, consumers, states1, events1);
    } else {
      states', events' := states, events;
    }
  }
}
