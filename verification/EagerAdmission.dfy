/**
  When every place that falls free is refilled in creation order before the scheduler goes on,
  the scheduler is one run of the state machine, and its turns are those of the ring.
 */
module EagerAdmission {
  import opened Sequences
  import opened Scheduler
  import Ring = RingOracle

  type Entry = Ring.Entry

  /** The scheduler's queue with the quanta left. */
  ghost predicate EntriesMatch(q: seq<nat>, left: seq<int>, queue: seq<Entry>) {
    && |queue| == |q|
    && forall i :: 0 <= i < |q| ==> q[i] < |left| && queue[i] == Ring.Entry(q[i], left[q[i]])
  }

  /** The workers before `next` have been admitted, the others have not asked for admission. */
  ghost predicate Admitted(quanta: seq<int>, left: seq<int>, at: seq<Where>, next: nat) {
    && |left| == |at| == |quanta| && next <= |quanta|
    && (forall w :: 0 <= w < next ==> at[w] in {Queued, Cancelled, Gone})
    && (forall w :: next <= w < |quanta| ==> at[w] == Outside && left[w] == quanta[w])
  }

  ghost predicate StateMatches(quanta: seq<int>, size: nat, s: State, queue: seq<Entry>, next: nat) {
    && EntriesMatch(s.queue, s.left, queue)
    && Admitted(quanta, s.left, s.at, next)
    && (next < |quanta| ==> |queue| == size)
  }

  /** Nobody is on the way in, places are taken in creation order, and none is free while someone is outside. */
  ghost predicate Settled(quanta: seq<int>, size: nat, s: State, next: nat) {
    && Admitted(quanta, s.left, s.at, next)
    && (next < |quanta| ==> |s.queue| == size)
    && (s.ticks == 0 ==> forall i :: 0 <= i < |s.queue| ==> s.queue[i] == i)
  }

  /** Every tick, until the scheduler quits, finds the freed places refilled in creation order. */
  ghost predicate RefilledAtTicks(quanta: seq<int>, size: nat, states: seq<State>, events: seq<Event>)
    requires |states| == |events| + 1
  {
    forall k {:trigger events[k]} :: 0 <= k < |events| && events[k] == Tick && !states[k].quit
      ==> exists next :: Settled(quanta, size, states[k], next)
  }

  lemma HeadCharged(q: seq<nat>, left: seq<int>, queue: seq<Entry>)
    requires EntriesMatch(q, left, queue) && q != [] && Distinct(q)
    ensures EntriesMatch(q[1..], Charged(left, q[0]), queue[1..])
  {
    assert forall i :: 0 <= i < |q| - 1 ==> q[1..][i] == q[i + 1] && q[i + 1] != q[0];
  }

  lemma Appended(q: seq<nat>, left: seq<int>, queue: seq<Entry>, w: nat)
    requires EntriesMatch(q, left, queue) && w < |left|
    ensures EntriesMatch(q + [w], left, queue + [Ring.Entry(w, left[w])])
  {
  }

  /** A run refilled before its ticks, and the last state of it. */
  datatype Run = Run(states: seq<State>, events: seq<Event>)

  ghost predicate EndsIn(quanta: seq<int>, size: nat, run: Run, s: State) {
    && IsRun(quanta, size, run.states, run.events) && s == run.states[|run.events|]
    && RefilledAtTicks(quanta, size, run.states, run.events)
  }

  lemma Extend(quanta: seq<int>, size: nat, run: Run, s: State, e: Event) returns (run': Run)
    requires EndsIn(quanta, size, run, s) && Shaped(s) && Enabled(s, e)
    requires e == Tick ==> exists next :: Settled(quanta, size, s, next)
    ensures EndsIn(quanta, size, run', Apply(s, e))
  {
    run' := Run(run.states + [Apply(s, e)], run.events + [e]);
    forall i | 0 <= i < |run'.events|
      ensures Step(run'.states[i], run'.events[i], run'.states[i + 1])
    {
      if i < |run.events| {
        assert Step(run.states[i], run.events[i], run.states[i + 1]);
      }
    }
    forall k | 0 <= k < |run'.events| && run'.events[k] == Tick && !run'.states[k].quit
      ensures exists next :: Settled(quanta, size, run'.states[k], next)
    {
      if k < |run.events| {
        assert run.events[k] == Tick;
      }
    }
  }

  /** The scheduler between two ticks, matching the list. */
  ghost predicate Ready(quanta: seq<int>, size: nat, s: State, queue: seq<Entry>, next: nat) {
    && Invariant(quanta, size, s) && StateMatches(quanta, size, s, queue, next)
    && s.ticks > 0 && !s.waiting && (s.quit <==> queue == [])
  }

  ghost predicate Between(quanta: seq<int>, size: nat, run: Run, s: State, queue: seq<Entry>, next: nat) {
    EndsIn(quanta, size, run, s) && Ready(quanta, size, s, queue, next)
  }

  /** The handler goes on with whoever is at the head. */
  lemma ResumeBetween(quanta: seq<int>, size: nat, run: Run, s: State, queue: seq<Entry>, next: nat)
    returns (run': Run, s': State)
    requires EndsIn(quanta, size, run, s) && Invariant(quanta, size, s) && StateMatches(quanta, size, s, queue, next)
    requires s.ticks > 0 && s.waiting && queue != []
    ensures Between(quanta, size, run', s', queue, next) && s'.turns == s.turns
  {
    s' := Apply(s, Resume);
    EventKeeps(quanta, size, s, Resume, s');
    run' := Extend(quanta, size, run, s, Resume);
  }

  lemma RequeuedEntries(quanta: seq<int>, q: seq<nat>, left: seq<int>, queue: seq<Entry>, next: nat)
    requires EntriesMatch(q, left, queue) && q != [] && Distinct(q) && queue[0].remaining != 1
    ensures EntriesMatch(q[1..] + [q[0]], Charged(left, q[0]), queue[1..] + Ring.Successor(quanta, queue[0], next))
  {
    HeadCharged(q, left, queue);
    Appended(q[1..], Charged(left, q[0]), queue[1..], q[0]);
  }

  lemma AfterRequeueTick(quanta: seq<int>, size: nat, s: State, next: nat)
    requires Invariant(quanta, size, s) && Enabled(s, Tick) && !s.quit && s.ticks > 0
    requires Admitted(quanta, s.left, s.at, next) && s.queue[0] < |s.left| && s.left[s.queue[0]] != 1
    ensures var t := TickStep(s);
            && t.queue == s.queue[1..] + [s.queue[0]] && t.left == Charged(s.left, s.queue[0])
            && t.turns == s.turns + [s.queue[0]] && t.at == s.at && QueueOk(t.queue, t.at)
            && t.waiting && t.ticks == s.ticks + 1
            && forall w :: next <= w < |quanta| ==> t.at[w] == Outside && t.left[w] == quanta[w]
  {
    LaterTick(quanta, size, s);
    RequeueKeeps(s.queue, s.at);
  }

  lemma TailTick(quanta: seq<int>, size: nat, s: State, queue: seq<Entry>, next: nat)
    requires Ready(quanta, size, s, queue, next) && queue != [] && queue[0].remaining != 1
    ensures Enabled(s, Tick) && Settled(quanta, size, s, next)
    ensures var t := Apply(s, Tick);
            && Invariant(quanta, size, t) && t.ticks > 0 && t.waiting && t.turns == s.turns + [queue[0].worker]
            && StateMatches(quanta, size, t, queue[1..] + Ring.Successor(quanta, queue[0], next), next)
  {
    AfterRequeueTick(quanta, size, s, next);
    RequeuedEntries(quanta, s.queue, s.left, queue, next);
    TickKeeps(quanta, size, s);
  }

  /** A turn after which the worker goes to the tail. */
  lemma TurnToTail(quanta: seq<int>, size: nat, run: Run, s: State, queue: seq<Entry>, next: nat)
    returns (run': Run, s': State)
    requires Between(quanta, size, run, s, queue, next) && queue != [] && queue[0].remaining != 1
    ensures s'.turns == s.turns + [queue[0].worker]
    ensures Between(quanta, size, run', s', queue[1..] + Ring.Successor(quanta, queue[0], next), next)
  {
    TailTick(quanta, size, s, queue, next);
    run' := Extend(quanta, size, run, s, Tick);
    run', s' := ResumeBetween(quanta, size, run', Apply(s, Tick),
                              queue[1..] + Ring.Successor(quanta, queue[0], next), next);
  }

  /** The state when the head has used its last quantum and its thread has ended. */
  function HeadDone(s: State): State
    requires s.queue != [] && s.queue[0] < |s.at| == |s.left|
  {
    var w := s.queue[0];
    var t := s.(queue := s.queue[1..], left := Charged(s.left, w), turns := s.turns + [w],
                at := s.at[w := Gone], cancels := s.cancels + [w],
                completed := s.completed + 1, ticks := s.ticks + 1, sem := s.sem + 1);
    if t.completed >= |s.at| then t.(current := None, quit := true) else t.(waiting := true)
  }

  lemma TickBeforePost(quanta: seq<int>, size: nat, s: State)
    requires Invariant(quanta, size, s) && s.ticks > 0 && !s.waiting && !s.quit && s.queue != []
    requires s.queue[0] < |s.at| && s.left[s.queue[0]] == 1
    ensures Enabled(s, Tick)
    ensures Enabled(TickStep(s), Post(s.queue[0])) && Shaped(TickStep(s))
    ensures Apply(TickStep(s), Post(s.queue[0])) == HeadDone(s)
  {
    LaterTick(quanta, size, s);
    assert s.at[s.queue[0] := Cancelled][s.queue[0] := Gone] == s.at[s.queue[0] := Gone];
  }

  lemma TickThenPost(quanta: seq<int>, size: nat, s: State)
    requires Invariant(quanta, size, s) && s.ticks > 0 && !s.waiting && !s.quit && s.queue != []
    requires s.queue[0] < |s.at| && s.left[s.queue[0]] == 1
    ensures Enabled(s, Tick) && Invariant(quanta, size, Apply(s, Tick))
    ensures Enabled(Apply(s, Tick), Post(s.queue[0])) && Apply(Apply(s, Tick), Post(s.queue[0])) == HeadDone(s)
    ensures Invariant(quanta, size, HeadDone(s))
  {
    TickBeforePost(quanta, size, s);
    TickKeeps(quanta, size, s);
    PostKeeps(quanta, size, TickStep(s), s.queue[0]);
  }

  lemma TickAndPost(quanta: seq<int>, size: nat, run: Run, s: State, next: nat) returns (run': Run)
    requires Positive(quanta) && EndsIn(quanta, size, run, s) && Invariant(quanta, size, s)
    requires Settled(quanta, size, s, next)
    requires s.ticks > 0 && !s.waiting && !s.quit && s.queue != []
    requires s.queue[0] < |s.at| && s.left[s.queue[0]] == 1
    ensures EndsIn(quanta, size, run', HeadDone(s))
    ensures Invariant(quanta, size, HeadDone(s))
  {
    TickThenPost(quanta, size, s);
    run' := Extend(quanta, size, run, s, Tick);
    run' := Extend(quanta, size, run', Apply(s, Tick), Post(s.queue[0]));
  }

  lemma HeadDoneMatches(quanta: seq<int>, s: State, queue: seq<Entry>, next: nat)
    requires QueueOk(s.queue, s.at) && s.queue != [] && |s.left| == |s.at|
    requires EntriesMatch(s.queue, s.left, queue) && Admitted(quanta, s.left, s.at, next)
    ensures s.queue[0] < |s.at| && s.queue[0] < next
    ensures EntriesMatch(HeadDone(s).queue, HeadDone(s).left, queue[1..])
    ensures Admitted(quanta, HeadDone(s).left, HeadDone(s).at, next)
  {
    assert s.queue[0] in s.queue;
    HeadCharged(s.queue, s.left, queue);
  }

  lemma LeavingTick(quanta: seq<int>, size: nat, s: State, queue: seq<Entry>)
    requires Ready(quanta, size, s, queue, |quanta|) && queue != [] && queue[0].remaining == 1
    ensures Settled(quanta, size, s, |quanta|) && s.queue != []
    ensures s.queue[0] < |s.at| == |s.left| && s.left[s.queue[0]] == 1
    ensures var t := HeadDone(s);
            && StateMatches(quanta, size, t, queue[1..], |quanta|) && t.turns == s.turns + [queue[0].worker]
            && t.ticks > 0 && t.quit == (t.completed >= |t.at|) && t.waiting == !t.quit
  {
    HeadDoneMatches(quanta, s, queue, |quanta|);
  }

  /** A turn that uses up the worker's quanta with nobody waiting outside. */
  lemma TurnLeaves(quanta: seq<int>, size: nat, run: Run, s: State, queue: seq<Entry>, next: nat)
    returns (run': Run, s': State)
    requires Positive(quanta) && Between(quanta, size, run, s, queue, next) && queue != []
    requires queue[0].remaining == 1 && next == |quanta|
    ensures s'.turns == s.turns + [queue[0].worker]
    ensures Between(quanta, size, run', s', queue[1..] + Ring.Successor(quanta, queue[0], next), next)
  {
    LeavingTick(quanta, size, s, queue);
    run' := TickAndPost(quanta, size, run, s, next);
    assert queue[1..] + Ring.Successor(quanta, queue[0], next) == queue[1..];
    run', s' := QuitOrResume(quanta, size, run', HeadDone(s), queue[1..]);
  }

  /** With everyone admitted, the handler quits if the queue is empty and otherwise goes on. */
  lemma QuitOrResume(quanta: seq<int>, size: nat, run: Run, s: State, queue: seq<Entry>)
    returns (run': Run, s': State)
    requires EndsIn(quanta, size, run, s) && Invariant(quanta, size, s)
    requires StateMatches(quanta, size, s, queue, |quanta|)
    requires s.ticks > 0 && s.quit == (s.completed >= |s.at|) && s.waiting == !s.quit
    ensures Between(quanta, size, run', s', queue, |quanta|) && s'.turns == s.turns
  {
    if s.queue == [] {
      EveryoneDone(quanta, s);
      run', s' := run, s;
    } else {
      assert s.queue[0] in s.queue;
      NotAllCancelled(s.cancels, s.at, s.queue[0]);
      run', s' := ResumeBetween(quanta, size, run, s, queue, |quanta|);
    }
  }

  lemma EveryoneDone(quanta: seq<int>, s: State)
    requires QueueOk(s.queue, s.at) && CancelsOk(s.cancels, s.at) && s.queue == []
    requires Admitted(quanta, s.left, s.at, |quanta|)
    ensures |s.cancels| >= |s.at|
  {
    forall v | 0 <= v < |s.at|
      ensures s.at[v] in {Cancelled, Gone}
    {
      assert s.at[v] == Queued ==> v in s.queue;
    }
    AllCancelled(s.cancels, s.at);
  }

  /** The next worker takes the freed place. */
  function Refilled(s: State, next: nat): State
    requires next < |s.at|
  {
    s.(queue := s.queue + [next], at := s.at[next := Queued], sem := if s.sem == 0 then 0 else s.sem - 1)
  }

  lemma Refill(quanta: seq<int>, size: nat, run: Run, s: State, next: nat) returns (run': Run)
    requires Positive(quanta) && EndsIn(quanta, size, run, s) && Shaped(s)
    requires next < |s.at| && s.at[next] == Outside && s.sem > 0
    ensures EndsIn(quanta, size, run', Refilled(s, next))
    ensures Invariant(quanta, size, Refilled(s, next))
  {
    var s1 := Apply(s, Acquire(next));
    run' := Extend(quanta, size, run, s, Acquire(next));
    run' := Extend(quanta, size, run', s1, Insert(next));
    assert Apply(s1, Insert(next)) == Refilled(s, next);
    RunKeeps(quanta, size, run'.states, run'.events, |run'.events|);
  }

  lemma RefilledMatches(quanta: seq<int>, s: State, rest: seq<Entry>, next: nat)
    requires EntriesMatch(s.queue, s.left, rest) && Admitted(quanta, s.left, s.at, next) && next < |quanta|
    ensures EntriesMatch(Refilled(s, next).queue, s.left, rest + [Ring.Entry(next, quanta[next])])
    ensures Admitted(quanta, s.left, Refilled(s, next).at, next + 1)
  {
    Appended(s.queue, s.left, rest, next);
  }

  lemma TickPostRefill(quanta: seq<int>, size: nat, run: Run, s: State, next: nat) returns (run': Run, s': State)
    requires Positive(quanta) && EndsIn(quanta, size, run, s) && Invariant(quanta, size, s)
    requires s.ticks > 0 && !s.waiting && !s.quit && s.queue != []
    requires s.queue[0] < |s.at| && s.left[s.queue[0]] == 1 && Settled(quanta, size, s, next)
    requires next < |s.at| && s.at[next] == Outside && next != s.queue[0]
    ensures EndsIn(quanta, size, run', s') && Invariant(quanta, size, s')
    ensures s' == Refilled(HeadDone(s), next).(waiting := false, current := Some((s.queue[1..] + [next])[0]))
    ensures !s'.quit && s'.ticks > 0
  {
    run' := TickAndPost(quanta, size, run, s, next);
    var s1 := HeadDone(s);
    NotAllCancelled(s1.cancels, s1.at, next);
    run' := Refill(quanta, size, run', s1, next);
    var s2 := Refilled(s1, next);
    s' := Apply(s2, Resume);
    EventKeeps(quanta, size, s2, Resume, s');
    run' := Extend(quanta, size, run', s2, Resume);
  }

  /** A turn that uses up the worker's quanta while others wait outside: its place goes to the next of them. */
  lemma TurnRefills(quanta: seq<int>, size: nat, run: Run, s: State, queue: seq<Entry>, next: nat)
    returns (run': Run, s': State)
    requires Positive(quanta) && Between(quanta, size, run, s, queue, next) && queue != []
    requires queue[0].remaining == 1 && next < |quanta|
    ensures s'.turns == s.turns + [queue[0].worker]
    ensures Between(quanta, size, run', s', queue[1..] + Ring.Successor(quanta, queue[0], next), next + 1)
  {
    HeadDoneMatches(quanta, s, queue, next);
    run', s' := TickPostRefill(quanta, size, run, s, next);
    RefilledMatches(quanta, HeadDone(s), queue[1..], next);
  }

  function Workers(turns: seq<Entry>): seq<nat> {
    if turns == [] then [] else [turns[0].worker] + Workers(turns[1..])
  }

  /** One turn of the list is a stretch of the scheduler's run that charges the same worker. */
  lemma OneTurn(quanta: seq<int>, size: nat, run: Run, s: State, queue: seq<Entry>, next: nat)
    returns (run': Run, s': State)
    requires Positive(quanta) && Between(quanta, size, run, s, queue, next) && queue != []
    ensures s'.turns == s.turns + [queue[0].worker]
    ensures Between(quanta, size, run', s', queue[1..] + Ring.Successor(quanta, queue[0], next),
                    Ring.NextAfter(quanta, queue[0], next))
  {
    if queue[0].remaining != 1 {
      run', s' := TurnToTail(quanta, size, run, s, queue, next);
    } else if next < |quanta| {
      run', s' := TurnRefills(quanta, size, run, s, queue, next);
    } else {
      run', s' := TurnLeaves(quanta, size, run, s, queue, next);
    }
  }

  lemma WorkersOfTurn(quanta: seq<int>, queue: seq<Entry>, next: nat, turns: seq<nat>)
    requires next <= |quanta| && Positive(quanta) && Ring.QueuePositive(queue) && queue != []
    ensures var queue' := queue[1..] + Ring.Successor(quanta, queue[0], next);
            var next' := Ring.NextAfter(quanta, queue[0], next);
            && next' <= |quanta| && Ring.QueuePositive(queue')
            && 0 <= Ring.QueueSum(queue') + Ring.RestSum(quanta, next')
                 < Ring.QueueSum(queue) + Ring.RestSum(quanta, next)
            && turns + Workers(Ring.ListTurns(quanta, queue, next))
               == (turns + [queue[0].worker]) + Workers(Ring.ListTurns(quanta, queue', next'))
  {
    Ring.ListTurnsNext(quanta, queue, next);
    var rest := Ring.ListTurns(quanta, queue[1..] + Ring.Successor(quanta, queue[0], next),
                               Ring.NextAfter(quanta, queue[0], next));
    assert ([queue[0]] + rest)[1..] == rest;
  }

  lemma {:induction false} PlayOut(quanta: seq<int>, size: nat, run: Run, s: State, queue: seq<Entry>, next: nat)
    returns (run': Run, s': State)
    requires Positive(quanta) && next <= |quanta| && Ring.QueuePositive(queue)
    requires Between(quanta, size, run, s, queue, next)
    ensures EndsIn(quanta, size, run', s') && s'.quit
    ensures s'.turns == s.turns + Workers(Ring.ListTurns(quanta, queue, next))
    decreases Ring.QueueSum(queue) + Ring.RestSum(quanta, next)
  {
    if queue == [] {
      run', s' := run, s;
    } else {
      WorkersOfTurn(quanta, queue, next, s.turns);
      var run1, s1 := OneTurn(quanta, size, run, s, queue, next);
      run', s' := PlayOut(quanta, size, run1, s1, queue[1..] + Ring.Successor(quanta, queue[0], next),
                          Ring.NextAfter(quanta, queue[0], next));
    }
  }

  /** The first `i` workers have been admitted, in creation order. */
  function Filled(quanta: seq<int>, size: nat, i: nat): State
    requires i <= |quanta| && i <= size
  {
    Start(quanta, size).(queue := seq(i, j requires 0 <= j => j), sem := size - i,
                         at := seq(|quanta|, j requires 0 <= j => if j < i then Queued else Outside))
  }

  lemma {:induction false} Fill(quanta: seq<int>, size: nat, i: nat) returns (run: Run)
    requires i <= |quanta| && i <= size
    ensures EndsIn(quanta, size, run, Filled(quanta, size, i))
  {
    if i == 0 {
      run := Run([Start(quanta, size)], []);
      assert Filled(quanta, size, 0) == Start(quanta, size);
    } else {
      run := Fill(quanta, size, i - 1);
      var s := Filled(quanta, size, i - 1);
      var s1 := Apply(s, Acquire(i - 1));
      run := Extend(quanta, size, run, s, Acquire(i - 1));
      run := Extend(quanta, size, run, s1, Insert(i - 1));
      assert Apply(s1, Insert(i - 1)) == Filled(quanta, size, i);
    }
  }

  /** The timer starts, and the first call of the handler lets the first worker run. */
  lemma FirstResume(quanta: seq<int>, size: nat) returns (run: Run, s: State)
    requires Positive(quanta) && quanta != [] && size >= 1
    ensures var n := Min(size, |quanta|);
            Between(quanta, size, run, s, Ring.FirstWorkers(quanta, n), n) && s.turns == []
  {
    var n := Min(size, |quanta|);
    run := Fill(quanta, size, n);
    var s0 := Filled(quanta, size, n);
    var s1 := Apply(s0, StartTimer);
    assert Settled(quanta, size, s1, n);
    var s2 := Apply(s1, Tick);
    s := Apply(s2, Resume);
    run := Extend(quanta, size, run, s0, StartTimer);
    run := Extend(quanta, size, run, s1, Tick);
    run := Extend(quanta, size, run, s2, Resume);
    RunKeeps(quanta, size, run.states, run.events, |run.events|);
  }

  /**
    Some run of the scheduler is refilled in creation order before every tick, ends by itself, and
    gives its turns to the workers exactly as the ring of slots does.
   */
  lemma SchedulerFollowsRing(quanta: seq<int>, size: nat) returns (states: seq<State>, events: seq<Event>)
    requires Positive(quanta) && quanta != [] && size >= 1
    ensures IsRun(quanta, size, states, events) && states[|events|].quit
    ensures RefilledAtTicks(quanta, size, states, events)
    ensures var n := Min(size, |quanta|);
            states[|events|].turns == Workers(Ring.ListTurns(quanta, Ring.FirstWorkers(quanta, n), n))
  {
    var n := Min(size, |quanta|);
    var run, s := FirstResume(quanta, size);
    run, s := PlayOut(quanta, size, run, s, Ring.FirstWorkers(quanta, n), n);
    states, events := run.states, run.events;
  }
}
