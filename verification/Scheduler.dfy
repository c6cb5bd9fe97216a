/**
  The round-robin scheduler and the admission of workers to its queue, as interleaved atomic
  steps: the timer handler in its two halves (up to `wait_for_queue`, and after it), and the
  workers' own steps on the semaphore and the queue.
 */
module Scheduler {
  import opened Sequences

  datatype Option<T> = None | Some(value: T)

  /** A worker before `sem_wait` returns, before it is in the queue, in it, told to die, and dead. */
  datatype Where = Outside | Entering | Queued | Cancelled | Gone

  datatype State = State(
    queue: seq<nat>, left: seq<int>, at: seq<Where>, sem: nat,
    current: Option<nat>, completed: nat,
    started: bool, waiting: bool, quit: bool,
    ticks: nat, turns: seq<nat>, cancels: seq<nat>)

  datatype Event = Acquire(w: nat) | Insert(w: nat) | Post(w: nat) | StartTimer | Tick | Resume

  function Start(quanta: seq<int>, size: nat): State {
    State([], quanta, seq(|quanta|, _ => Outside), size, None, 0, false, false, false, 0, [], [])
  }

  predicate Enabled(s: State, e: Event) {
    match e
    case Acquire(w) => w < |s.at| && s.at[w] == Outside && s.sem > 0
    case Insert(w) => w < |s.at| && s.at[w] == Entering
    case Post(w) => w < |s.at| && s.at[w] == Cancelled
    case StartTimer => !s.started && s.queue != []
    case Tick => s.started && !s.waiting
    case Resume => s.waiting && s.queue != []
  }

  predicate Shaped(s: State) {
    && |s.left| == |s.at|
    && (s.current.Some? && !s.waiting ==> s.current.value < |s.at|)
  }

  /** `suspend_worker`: one quantum less, then to the back of the queue or out of it. */
  function SuspendWorker(s: State, w: nat): State
    requires Shaped(s) && w < |s.at|
  {
    var charged := s.(left := s.left[w := s.left[w] - 1], turns := s.turns + [w]);
    if charged.left[w] != 0 then
      charged.(queue := Without(s.queue, w) + [w])
    else
      charged.(queue := Without(s.queue, w), at := s.at[w := Cancelled],
               completed := s.completed + 1, cancels := s.cancels + [w])
  }

  /** `next_worker` as far as its wait: with everyone done there is no next thread, and the handler quits. */
  function CheckDone(s: State): State {
    var t := s.(ticks := s.ticks + 1);
    if t.completed >= |t.at| then t.(current := None, quit := true) else t.(waiting := true)
  }

  /** `timer_handler` as far as the loop in `wait_for_queue`. */
  function TickStep(s: State): State
    requires Shaped(s) && !s.waiting
  {
    if s.queue == [] then
      s.(quit := true, ticks := s.ticks + 1)
    else
      CheckDone(if s.current.Some? then SuspendWorker(s, s.current.value) else s)
  }

  function Apply(s: State, e: Event): State
    requires Shaped(s) && Enabled(s, e)
  {
    match e
    case Acquire(w) => s.(sem := s.sem - 1, at := s.at[w := Entering])
    case Insert(w) => s.(queue := s.queue + [w], at := s.at[w := Queued])
    case Post(w) => s.(sem := s.sem + 1, at := s.at[w := Gone])
    case StartTimer => s.(started := true)
    case Tick => TickStep(s)
    case Resume => s.(waiting := false, current := Some(s.queue[0]))
  }

  ghost predicate Step(s: State, e: Event, s': State) {
    Shaped(s) && Enabled(s, e) && s' == Apply(s, e)
  }

  ghost predicate IsRun(quanta: seq<int>, size: nat, states: seq<State>, events: seq<Event>) {
    && |states| == |events| + 1
    && states[0] == Start(quanta, size)
    && forall i {:trigger events[i]} :: 0 <= i < |events| ==> Step(states[i], events[i], states[i + 1])
  }

  // ----- The invariant

  ghost predicate QueueOk(queue: seq<nat>, at: seq<Where>) {
    && Distinct(queue)
    && (forall w :: w in queue ==> w < |at| && at[w] == Queued)
    && (forall w :: 0 <= w < |at| && at[w] == Queued ==> w in queue)
    && |queue| == Count(at, Queued)
  }

  /** Places in the queue: free, taken, promised to a worker on its way in, not yet given back. */
  ghost predicate PlacesOk(size: nat, sem: nat, queue: seq<nat>, at: seq<Where>) {
    sem + |queue| + Count(at, Entering) + Count(at, Cancelled) == size
  }

  ghost predicate CancelsOk(cancels: seq<nat>, at: seq<Where>) {
    && Distinct(cancels)
    && (forall w :: w in cancels ==> w < |at|)
    && (forall w :: 0 <= w < |at| ==> (w in cancels <==> at[w] in {Cancelled, Gone}))
  }

  ghost predicate ChargesOk(quanta: seq<int>, left: seq<int>, at: seq<Where>, turns: seq<nat>) {
    && |quanta| == |left| == |at|
    && (forall w :: 0 <= w < |at| ==> left[w] >= 0 && (left[w] == 0 <==> at[w] in {Cancelled, Gone}))
    && (forall w :: 0 <= w < |at| ==> multiset(turns)[w] == quanta[w] - left[w])
    && |turns| + Sum(left) == Sum(quanta)
  }

  ghost predicate PhaseOk(s: State) {
    && (!s.started ==> s.ticks == 0)
    && (s.ticks == 0 ==> s.current == None && !s.waiting && !s.quit && s.turns == [])
    && (s.started && !s.waiting && !s.quit ==> s.queue != [])
    && (s.ticks > 0 && !s.waiting && !s.quit ==> s.current == Some(s.queue[0]))
    && (s.waiting ==> !s.quit && s.completed < |s.at|)
    && (s.quit ==> s.completed == |s.at| && s.current == None)
    && (s.ticks > 0 && !s.quit ==> |s.turns| == s.ticks - 1)
    && (s.quit ==> |s.turns| < s.ticks)
  }

  ghost predicate Invariant(quanta: seq<int>, size: nat, s: State) {
    && Shaped(s) && PhaseOk(s) && s.completed == |s.cancels|
    && QueueOk(s.queue, s.at) && PlacesOk(size, s.sem, s.queue, s.at)
    && CancelsOk(s.cancels, s.at) && ChargesOk(quanta, s.left, s.at, s.turns)
  }

  lemma AcquireKeeps(quanta: seq<int>, size: nat, s: State, w: nat)
    requires Invariant(quanta, size, s) && Enabled(s, Acquire(w))
    ensures Invariant(quanta, size, Apply(s, Acquire(w)))
  {
    Moves(s.at, w, Entering);
  }

  lemma InsertKeeps(quanta: seq<int>, size: nat, s: State, w: nat)
    requires Invariant(quanta, size, s) && Enabled(s, Insert(w))
    ensures Invariant(quanta, size, Apply(s, Insert(w)))
  {
    Moves(s.at, w, Queued);
  }

  lemma PostKeeps(quanta: seq<int>, size: nat, s: State, w: nat)
    requires Invariant(quanta, size, s) && Enabled(s, Post(w))
    ensures Invariant(quanta, size, Apply(s, Post(w)))
  {
    Moves(s.at, w, Gone);
  }

  lemma ResumeKeeps(quanta: seq<int>, size: nat, s: State)
    requires Invariant(quanta, size, s) && Enabled(s, Resume)
    ensures Invariant(quanta, size, Apply(s, Resume))
  {
    assert s.queue[0] in s.queue;
  }

  // ----- The timer handler

  lemma HeadMembers(q: seq<nat>)
    requires q != [] && Distinct(q)
    ensures q[0] !in q[1..] && Distinct(q[1..]) && Distinct(q[1..] + [q[0]])
    ensures forall w :: w in q <==> w == q[0] || w in q[1..]
    ensures forall w :: w in q[1..] + [q[0]] <==> w in q
    ensures Without(q, q[0]) == q[1..]
  {
    assert q == [q[0]] + q[1..];
    assert q[0] in q;
  }

  function Charged(left: seq<int>, w: nat): seq<int>
    requires w < |left|
  {
    left[w := left[w] - 1]
  }

  lemma ChargeKeeps(quanta: seq<int>, left: seq<int>, at: seq<Where>, turns: seq<nat>, w: nat, at': seq<Where>)
    requires ChargesOk(quanta, left, at, turns) && w < |at| && left[w] >= 1
    requires at' == if left[w] == 1 then at[w := Cancelled] else at
    ensures ChargesOk(quanta, Charged(left, w), at', turns + [w])
  {
    SumUpdate(left, w, left[w] - 1);
  }

  lemma RequeueKeeps(queue: seq<nat>, at: seq<Where>)
    requires QueueOk(queue, at) && queue != []
    ensures QueueOk(queue[1..] + [queue[0]], at)
  {
    HeadMembers(queue);
  }

  lemma DequeueKeeps(queue: seq<nat>, at: seq<Where>)
    requires QueueOk(queue, at) && queue != []
    ensures queue[0] in queue
    ensures QueueOk(queue[1..], at[queue[0] := Cancelled])
  {
    assert queue[0] in queue;
    HeadMembers(queue);
    Moves(at, queue[0], Cancelled);
  }

  lemma PlaceWithdrawn(size: nat, sem: nat, queue: seq<nat>, at: seq<Where>, w: nat)
    requires PlacesOk(size, sem, queue, at) && queue != [] && w < |at| && at[w] == Queued
    ensures PlacesOk(size, sem, queue[1..], at[w := Cancelled])
  {
    Moves(at, w, Cancelled);
  }

  lemma CancelKeeps(cancels: seq<nat>, at: seq<Where>, w: nat)
    requires CancelsOk(cancels, at) && w < |at| && at[w] == Queued
    ensures CancelsOk(cancels + [w], at[w := Cancelled])
  {
  }

  lemma NotAllCancelled(cancels: seq<nat>, at: seq<Where>, w: nat)
    requires CancelsOk(cancels, at) && w < |at| && at[w] !in {Cancelled, Gone}
    ensures |cancels| < |at|
  {
    var all := seq(|at|, i requires 0 <= i => i);
    forall v | v in cancels + [w]
      ensures v in all
    {
      assert all[v] == v;
    }
    DistinctFits(cancels + [w], all);
  }

  lemma FirstTickKeeps(quanta: seq<int>, size: nat, s: State)
    requires Invariant(quanta, size, s) && Enabled(s, Tick) && s.current == None && s.queue != []
    ensures Invariant(quanta, size, TickStep(s))
  {
    assert s.queue[0] in s.queue;
    NotAllCancelled(s.cancels, s.at, s.queue[0]);
  }

  /** A later tick finds the running worker at the head; it goes to the back, or leaves when its quanta are used up. */
  lemma LaterTick(quanta: seq<int>, size: nat, s: State)
    requires Invariant(quanta, size, s) && Enabled(s, Tick) && s.current.Some? && s.queue != []
    ensures var w := s.queue[0];
            && s.current == Some(w) && w < |s.at| && s.at[w] == Queued && s.left[w] >= 1 && s.ticks > 0
            && TickStep(s) ==
               if s.left[w] != 1 then
                 s.(queue := s.queue[1..] + [w], left := Charged(s.left, w), turns := s.turns + [w],
                    waiting := true, ticks := s.ticks + 1)
               else
                 var t := s.(queue := s.queue[1..], left := Charged(s.left, w), turns := s.turns + [w],
                             at := s.at[w := Cancelled], cancels := s.cancels + [w],
                             completed := s.completed + 1, ticks := s.ticks + 1);
                 if t.completed >= |s.at| then t.(current := None, quit := true) else t.(waiting := true)
  {
    var w := s.current.value;
    assert s.queue[0] == w && w in s.queue;
    HeadMembers(s.queue);
    NotAllCancelled(s.cancels, s.at, w);
  }

  lemma RequeueTickKeeps(quanta: seq<int>, size: nat, s: State)
    requires Invariant(quanta, size, s) && Enabled(s, Tick) && s.current.Some? && s.queue != []
    requires s.current.value < |s.left| && s.left[s.current.value] != 1
    ensures Invariant(quanta, size, TickStep(s))
  {
    var w := s.current.value;
    LaterTick(quanta, size, s);
    RequeueKeeps(s.queue, s.at);
    ChargeKeeps(quanta, s.left, s.at, s.turns, w, s.at);
    NotAllCancelled(s.cancels, s.at, w);
  }

  lemma CancelTickKeeps(quanta: seq<int>, size: nat, s: State)
    requires Invariant(quanta, size, s) && Enabled(s, Tick) && s.current.Some? && s.queue != []
    requires s.current.value < |s.left| && s.left[s.current.value] == 1
    ensures Invariant(quanta, size, TickStep(s))
  {
    var w := s.current.value;
    LaterTick(quanta, size, s);
    DequeueKeeps(s.queue, s.at);
    PlaceWithdrawn(size, s.sem, s.queue, s.at, w);
    CancelKeeps(s.cancels, s.at, w);
    ChargeKeeps(quanta, s.left, s.at, s.turns, w, s.at[w := Cancelled]);
    NotAllCancelled(s.cancels, s.at, w);
  }

  lemma TickKeeps(quanta: seq<int>, size: nat, s: State)
    requires Invariant(quanta, size, s) && Enabled(s, Tick)
    ensures Invariant(quanta, size, TickStep(s))
  {
    if s.queue != [] {
      if s.current.Some? {
        LaterTick(quanta, size, s);
        if s.left[s.current.value] == 1 {
          CancelTickKeeps(quanta, size, s);
        } else {
          RequeueTickKeeps(quanta, size, s);
        }
      } else {
        FirstTickKeeps(quanta, size, s);
      }
    }
  }

  lemma StartHolds(quanta: seq<int>, size: nat)
    requires Positive(quanta)
    ensures Invariant(quanta, size, Start(quanta, size))
  {
    var s := Start(quanta, size);
    assert forall x :: x != Outside ==> x !in s.at;
  }

  lemma EventKeeps(quanta: seq<int>, size: nat, s: State, e: Event, s': State)
    requires Invariant(quanta, size, s) && Step(s, e, s')
    ensures Invariant(quanta, size, s')
  {
    match e {
      case Acquire(w) => AcquireKeeps(quanta, size, s, w);
      case Insert(w) => InsertKeeps(quanta, size, s, w);
      case Post(w) => PostKeeps(quanta, size, s, w);
      case StartTimer =>
      case Tick => TickKeeps(quanta, size, s);
      case Resume => ResumeKeeps(quanta, size, s);
    }
  }

  lemma {:induction false} RunKeeps(quanta: seq<int>, size: nat, states: seq<State>, events: seq<Event>, k: nat)
    requires Positive(quanta) && IsRun(quanta, size, states, events) && k < |states|
    ensures Invariant(quanta, size, states[k])
  {
    if k == 0 {
      StartHolds(quanta, size);
    } else {
      RunKeeps(quanta, size, states, events, k - 1);
      EventKeeps(quanta, size, states[k - 1], events[k - 1], states[k]);
    }
  }

  // ----- What follows from it

  /** The queue never outgrows its size, and all places are accounted for in every interleaving. */
  lemma PlacesConserved(quanta: seq<int>, size: nat, states: seq<State>, events: seq<Event>, k: nat)
    requires Positive(quanta) && IsRun(quanta, size, states, events) && k < |states|
    ensures var s := states[k];
            && s.sem + |s.queue| + Count(s.at, Entering) + Count(s.at, Cancelled) == size
            && |s.queue| <= size
  {
    RunKeeps(quanta, size, states, events, k);
  }

  /** `wait_for_queue` cannot be stuck: with the queue empty and workers left, a worker can take its next step in. */
  lemma WaitCanEnd(quanta: seq<int>, size: nat, states: seq<State>, events: seq<Event>, k: nat)
    requires Positive(quanta) && size >= 1 && IsRun(quanta, size, states, events) && k < |states|
    requires states[k].queue == [] && states[k].completed < |quanta|
    ensures exists e: Event :: !e.Tick? && !e.Resume? && Enabled(states[k], e)
  {
    RunKeeps(quanta, size, states, events, k);
    var s := states[k];
    if w :| 0 <= w < |s.at| && s.at[w] == Entering {
      assert Enabled(s, Insert(w));
    } else if Cancelled in s.at {
      var w :| 0 <= w < |s.at| && s.at[w] == Cancelled;
      assert Enabled(s, Post(w));
    } else {
      assert Entering !in s.at && s.sem == size;
      var w := SomeoneOutside(s);
      assert Enabled(s, Acquire(w));
    }
  }

  lemma SomeoneOutside(s: State) returns (w: nat)
    requires CancelsOk(s.cancels, s.at) && |s.cancels| < |s.at|
    requires QueueOk(s.queue, s.at) && s.queue == [] && Entering !in s.at
    ensures w < |s.at| && s.at[w] == Outside
  {
    if forall v :: 0 <= v < |s.at| ==> s.at[v] in {Cancelled, Gone} {
      AllCancelled(s.cancels, s.at);
    }
    w :| 0 <= w < |s.at| && s.at[w] !in {Cancelled, Gone};
    assert s.at[w] in s.at;
  }

  lemma AllCancelled(cancels: seq<nat>, at: seq<Where>)
    requires CancelsOk(cancels, at) && forall v :: 0 <= v < |at| ==> at[v] in {Cancelled, Gone}
    ensures |at| <= |cancels|
  {
    var all := seq(|at|, i requires 0 <= i => i);
    forall v | v in all
      ensures v in cancels
    {
      var i :| 0 <= i < |at| && all[i] == v;
    }
    DistinctFits(all, cancels);
  }

  /** When the scheduler quits, every worker has had exactly its quanta and has been cancelled exactly once. */
  lemma QuitOnlyWhenDone(quanta: seq<int>, size: nat, states: seq<State>, events: seq<Event>, k: nat)
    requires Positive(quanta) && IsRun(quanta, size, states, events) && k < |states|
    requires states[k].quit
    ensures var s := states[k];
            && s.completed == |quanta| == |s.cancels|
            && s.queue == []
            && forall w :: 0 <= w < |quanta| ==>
                 multiset(s.turns)[w] == quanta[w] && multiset(s.cancels)[w] == 1
  {
    RunKeeps(quanta, size, states, events, k);
    var s := states[k];
    forall w | 0 <= w < |quanta|
      ensures s.at[w] in {Cancelled, Gone} && multiset(s.cancels)[w] == 1
    {
      if s.at[w] !in {Cancelled, Gone} {
        NotAllCancelled(s.cancels, s.at, w);
      }
      OnceInDistinct(s.cancels, w);
    }
    assert forall w :: 0 <= w < |s.at| ==> s.at[w] != Queued;
    assert Queued !in s.at;
  }

  lemma {:induction false} OnceInDistinct(s: seq<nat>, w: nat)
    requires Distinct(s)
    ensures multiset(s)[w] == if w in s then 1 else 0
  {
    if s != [] {
      var last := |s| - 1;
      OnceInDistinct(s[..last], w);
      assert s == s[..last] + [s[last]];
    }
  }

  /** The handler has quit if and only if it has been called more often than the sum of all quanta. */
  lemma QuitAfterAllQuanta(quanta: seq<int>, size: nat, states: seq<State>, events: seq<Event>, k: nat)
    requires Positive(quanta) && IsRun(quanta, size, states, events) && k < |states|
    ensures states[k].quit <==> states[k].ticks >= Sum(quanta) + 1
  {
    RunKeeps(quanta, size, states, events, k);
    var s := states[k];
    if s.quit {
      QuitOnlyWhenDone(quanta, size, states, events, k);
      SumZero(s.left);
    } else if s.ticks > 0 {
      var w := SomeoneLeft(quanta, s);
      SumNonNegative(s.left, w);
    } else {
      SumOfQuanta(quanta);
    }
  }

  lemma {:induction false} SumOfQuanta(quanta: seq<int>)
    requires Positive(quanta)
    ensures Sum(quanta) >= |quanta|
  {
    if quanta != [] {
      SumOfQuanta(quanta[..|quanta| - 1]);
    }
  }

  lemma SomeoneLeft(quanta: seq<int>, s: State) returns (w: nat)
    requires PhaseOk(s) && s.completed == |s.cancels| && !s.quit && s.ticks > 0
    requires QueueOk(s.queue, s.at) && CancelsOk(s.cancels, s.at) && ChargesOk(quanta, s.left, s.at, s.turns)
    ensures w < |s.left| && s.left[w] >= 1
  {
    if s.waiting {
      if forall v :: 0 <= v < |s.at| ==> s.at[v] in {Cancelled, Gone} {
        AllCancelled(s.cancels, s.at);
      }
      w :| 0 <= w < |s.at| && s.at[w] !in {Cancelled, Gone};
    } else {
      w := s.queue[0];
      assert w in s.queue;
    }
  }

  /** A timer signal that comes after the scheduler has quit finds the queue empty and does nothing. */
  lemma TickAfterQuit(quanta: seq<int>, size: nat, states: seq<State>, events: seq<Event>, k: nat)
    requires Positive(quanta) && IsRun(quanta, size, states, events) && k < |states| && states[k].quit
    ensures Enabled(states[k], Tick) && Shaped(states[k])
    ensures Apply(states[k], Tick) == states[k].(ticks := states[k].ticks + 1)
  {
    QuitOnlyWhenDone(quanta, size, states, events, k);
    RunKeeps(quanta, size, states, events, k);
  }

  // ----- Every run quits

  /** How many of their own steps the workers have made: three each, to enter, to be queued and to go. */
  function Steps(at: seq<Where>): nat {
    Count(at, Entering) + 2 * Count(at, Queued) + 2 * Count(at, Cancelled) + 3 * Count(at, Gone)
  }

  lemma {:induction false} StepsBound(at: seq<Where>)
    ensures Steps(at) <= 3 * |at|
  {
    if at != [] {
      var last := |at| - 1;
      StepsBound(at[..last]);
      assert at == at[..last] + [at[last]];
    }
  }

  /** Steps that the workers, the start of the timer and the two halves of the handler account for. */
  function Accounted(s: State): int {
    Steps(s.at) + (if s.started then 1 else 0) + 2 * s.ticks - (if s.waiting then 1 else 0)
  }

  lemma WorkerStepCounts(s: State, e: Event)
    requires Shaped(s) && Enabled(s, e) && (e.Acquire? || e.Insert? || e.Post?)
    ensures Steps(Apply(s, e).at) == Steps(s.at) + 1
  {
    Moves(s.at, e.w, Apply(s, e).at[e.w]);
  }

  lemma TickCounts(quanta: seq<int>, size: nat, s: State)
    requires Invariant(quanta, size, s) && Enabled(s, Tick)
    ensures Steps(TickStep(s).at) == Steps(s.at)
  {
    if s.queue != [] && s.current.Some? {
      LaterTick(quanta, size, s);
      Moves(s.at, s.queue[0], Cancelled);
    }
  }

  lemma EventCounts(quanta: seq<int>, size: nat, s: State, e: Event, s': State)
    requires Invariant(quanta, size, s) && Step(s, e, s')
    ensures Accounted(s') >= Accounted(s) + 1
  {
    if e == Tick {
      TickCounts(quanta, size, s);
    } else if e.Acquire? || e.Insert? || e.Post? {
      WorkerStepCounts(s, e);
    }
  }

  lemma {:induction false} RunCounts(quanta: seq<int>, size: nat, states: seq<State>, events: seq<Event>, k: nat)
    requires Positive(quanta) && IsRun(quanta, size, states, events) && k < |states|
    ensures k <= Accounted(states[k])
  {
    if k > 0 {
      RunCounts(quanta, size, states, events, k - 1);
      RunKeeps(quanta, size, states, events, k - 1);
      EventCounts(quanta, size, states[k - 1], events[k - 1], states[k]);
    }
  }

  /** The length of every run is bounded by the number of workers and of calls of the handler. */
  lemma StepsPerTick(quanta: seq<int>, size: nat, states: seq<State>, events: seq<Event>, k: nat)
    requires Positive(quanta) && IsRun(quanta, size, states, events) && k < |states|
    ensures k <= 3 * |quanta| + 1 + 2 * states[k].ticks
  {
    RunCounts(quanta, size, states, events, k);
    RunKeeps(quanta, size, states, events, k);
    StepsBound(states[k].at);
  }

  lemma WaitStepCounts(quanta: seq<int>, size: nat, s: State, e: Event, s': State)
    requires Invariant(quanta, size, s) && Step(s, e, s') && s.waiting && s'.waiting
    ensures Steps(s'.at) == Steps(s.at) + 1
  {
    WorkerStepCounts(s, e);
  }

  lemma {:induction false} WaitCounts(
    quanta: seq<int>, size: nat, states: seq<State>, events: seq<Event>, j: nat, k: nat)
    requires Positive(quanta) && IsRun(quanta, size, states, events) && j <= k < |states|
    requires forall i :: j <= i <= k ==> states[i].waiting
    ensures k - j == Steps(states[k].at) - Steps(states[j].at)
  {
    if j < k {
      WaitCounts(quanta, size, states, events, j, k - 1);
      RunKeeps(quanta, size, states, events, k - 1);
      WaitStepCounts(quanta, size, states[k - 1], events[k - 1], states[k]);
    }
  }

  /** Waiting for the queue lasts at most three steps per worker: each is a step of a worker on its way in or out. */
  lemma WaitIsShort(quanta: seq<int>, size: nat, states: seq<State>, events: seq<Event>, j: nat, k: nat)
    requires Positive(quanta) && IsRun(quanta, size, states, events) && j <= k < |states|
    requires forall i :: j <= i <= k ==> states[i].waiting
    ensures k - j <= 3 * |quanta|
  {
    WaitCounts(quanta, size, states, events, j, k);
    RunKeeps(quanta, size, states, events, k);
    StepsBound(states[k].at);
  }

  /** Until the scheduler has quit, something can always happen. */
  lemma NeverStuck(quanta: seq<int>, size: nat, states: seq<State>, events: seq<Event>, k: nat)
    requires Positive(quanta) && quanta != [] && size >= 1
    requires IsRun(quanta, size, states, events) && k < |states| && !states[k].quit
    ensures exists e :: Enabled(states[k], e)
  {
    RunKeeps(quanta, size, states, events, k);
    var s := states[k];
    if s.queue != [] {
      assert Enabled(s, if s.waiting then Resume else if s.started then Tick else StartTimer);
    } else {
      if !s.waiting {
        assert !s.started;
        assert multiset(s.turns)[0] == 0;
        NotAllCancelled(s.cancels, s.at, 0);
      }
      WaitCanEnd(quanta, size, states, events, k);
    }
  }

  /** So every run can be carried on until it quits, and quits before it is longer than this. */
  lemma EveryRunQuits(quanta: seq<int>, size: nat, states: seq<State>, events: seq<Event>)
    requires Positive(quanta) && IsRun(quanta, size, states, events)
    requires |events| > 3 * |quanta| + 1 + 2 * Sum(quanta)
    ensures states[|events|].quit
  {
    StepsPerTick(quanta, size, states, events, |events|);
    QuitAfterAllQuanta(quanta, size, states, events, |events|);
  }

  // ----- Bounded waiting

  predicate At(queue: seq<nat>, p: int, w: nat) {
    0 <= p < |queue| && queue[p] == w
  }

  /** A tick moves everyone behind the head one place forward; nothing else moves anyone. */
  lemma EventPosition(quanta: seq<int>, size: nat, s: State, e: Event, s': State, p: nat)
    requires Invariant(quanta, size, s) && Step(s, e, s') && s.ticks > 0 && p < |s.queue|
    requires e == Tick ==> p > 0
    ensures At(s'.queue, if e == Tick then p - 1 else p, s.queue[p])
  {
    if e == Tick {
      assert s.queue[p] in s.queue;
      if s.quit {
        NotAllCancelled(s.cancels, s.at, s.queue[p]);
      }
      LaterTick(quanta, size, s);
    }
  }

  lemma PositionNext(quanta: seq<int>, size: nat, states: seq<State>, events: seq<Event>, k: nat, p: int, w: nat)
    requires Positive(quanta) && IsRun(quanta, size, states, events) && k < |events|
    requires states[k].ticks > 0 && At(states[k].queue, p, w)
    requires states[k + 1].ticks - states[k].ticks <= p
    ensures At(states[k + 1].queue, p - (states[k + 1].ticks - states[k].ticks), w)
  {
    var s, e, s' := states[k], events[k], states[k + 1];
    assert Step(s, e, s');
    RunKeeps(quanta, size, states, events, k);
    TicksGrow(s, e, s');
    EventPosition(quanta, size, s, e, s', p);
  }

  lemma {:induction false} PositionInRun(
    quanta: seq<int>, size: nat, states: seq<State>, events: seq<Event>, j: nat, k: nat, p: nat, w: nat)
    requires Positive(quanta) && IsRun(quanta, size, states, events) && j <= k < |states|
    requires states[j].ticks > 0 && At(states[j].queue, p, w) && states[k].ticks - states[j].ticks <= p
    ensures At(states[k].queue, p - (states[k].ticks - states[j].ticks), w)
  {
    if j < k {
      TicksGrowInRun(quanta, size, states, events, j, k - 1);
      TicksGrowInRun(quanta, size, states, events, k - 1, k);
      PositionInRun(quanta, size, states, events, j, k - 1, p, w);
      PositionNext(quanta, size, states, events, k - 1, p - (states[k - 1].ticks - states[j].ticks), w);
    }
  }

  lemma TicksGrow(s: State, e: Event, s': State)
    requires Step(s, e, s')
    ensures s'.ticks == s.ticks + if e == Tick then 1 else 0
  {
  }

  lemma {:induction false} TicksGrowInRun(
    quanta: seq<int>, size: nat, states: seq<State>, events: seq<Event>, j: nat, k: nat)
    requires IsRun(quanta, size, states, events) && j <= k < |states|
    ensures states[j].ticks <= states[k].ticks
  {
    if j < k {
      TicksGrowInRun(quanta, size, states, events, j, k - 1);
      TicksGrow(states[k - 1], events[k - 1], states[k]);
    }
  }

  /** Between ticks, the worker that runs is the one at the head. */
  lemma RunsAtHead(quanta: seq<int>, size: nat, s: State, p: int, w: nat)
    requires Invariant(quanta, size, s) && s.ticks > 0 && !s.waiting && At(s.queue, p, w)
    ensures s.current == Some(w) <==> p == 0
  {
    assert w in s.queue;
    if s.quit {
      NotAllCancelled(s.cancels, s.at, w);
    }
  }

  lemma RequeuedAtTail(quanta: seq<int>, size: nat, states: seq<State>, events: seq<Event>, i: nat)
    requires Positive(quanta) && IsRun(quanta, size, states, events) && i < |events|
    requires events[i] == Tick && states[i].current.Some? && states[i].current.value < |states[i].left|
    requires states[i].left[states[i].current.value] != 1
    ensures 1 <= |states[i].queue| <= size
    ensures states[i + 1].ticks > 0
    ensures At(states[i + 1].queue, |states[i].queue| - 1, states[i].current.value)
  {
    RunKeeps(quanta, size, states, events, i);
    assert Step(states[i], events[i], states[i + 1]);
    LaterTick(quanta, size, states[i]);
  }

  /**
    A worker suspended with quanta left, in a queue of `q`, runs again after exactly `q - 1`
    other turns, at most one less than the queue size, whatever is admitted meanwhile.
   */
  lemma BoundedWaiting(quanta: seq<int>, size: nat, states: seq<State>, events: seq<Event>, i: nat, k: nat)
    requires Positive(quanta) && IsRun(quanta, size, states, events) && i < k < |states|
    requires events[i] == Tick && states[i].current.Some? && states[i].current.value < |states[i].left|
    requires states[i].left[states[i].current.value] != 1
    requires !states[k].waiting
    ensures 1 <= |states[i].queue| <= size
    ensures var d := states[k].ticks - states[i + 1].ticks;
            d <= |states[i].queue| - 1 ==>
              (states[k].current == states[i].current <==> d == |states[i].queue| - 1)
  {
    RequeuedAtTail(quanta, size, states, events, i);
    RunKeeps(quanta, size, states, events, k);
    var p, d := |states[i].queue| - 1, states[k].ticks - states[i + 1].ticks;
    TicksGrowInRun(quanta, size, states, events, i + 1, k);
    if d <= p {
      PositionInRun(quanta, size, states, events, i + 1, k, p, states[i].current.value);
      RunsAtHead(quanta, size, states[k], p - d, states[i].current.value);
    }
  }
}
