/**
  The scheduler over its linked queue and thread records.  The handler is in two halves, up to
  the loop that waits for the queue and after it; each takes the step of `Scheduler` it stands for.
 */
module SchedulerObjects {
  import opened Sequences
  import opened Scheduler
  import opened ThreadList
  import opened TimeAccounting
  import opened WorkerTimes

  class RoundRobin {
    const queue: ThreadInfoList
    const workers: seq<ThreadInfo>
    var currentThread: ThreadInfo?
    var completed: nat
    var quit: bool
    var waitTimes: int
    var runTimes: int
    ghost var model: State

    /** The elements carry the records of these workers, and each record points back. */
    ghost predicate Carries(elems: seq<ListElem>, ids: seq<nat>)
      reads workers
    {
      && |elems| == |ids|
      && forall i :: 0 <= i < |ids| ==>
           && ids[i] < |workers|
           && elems[i].info == workers[ids[i]]
           && workers[ids[i]].le == elems[i]
    }

    lemma CarriesRotation(elems: seq<ListElem>, ids: seq<nat>)
      requires Carries(elems, ids) && ids != []
      ensures Carries(elems[1..], ids[1..])
      ensures Carries(elems[1..] + [elems[0]], ids[1..] + [ids[0]])
    {
    }

    ghost predicate Owes(left: seq<int>)
      reads workers
    {
      |left| == |workers| && forall w :: 0 <= w < |workers| ==> workers[w].quanta == left[w]
    }

    ghost predicate NoSharing() {
      forall v, w :: 0 <= v < w < |workers| ==> workers[v] != workers[w]
    }

    /** The linked queue and the records say what the model says. */
    ghost predicate Represents()
      reads this, queue, queue.elems, workers
    {
      && queue.Valid() && NoSharing()
      && Shaped(model) && |model.at| == |workers|
      && Carries(queue.elems, model.queue)
      && Owes(model.left)
      && completed == model.completed && quit == model.quit
      && (!model.waiting ==> currentThread == if model.current == None then null else workers[model.current.value])
    }

    /** What the handler relies on: the worker that runs is at the head of the queue. */
    ghost predicate CurrentAtHead(s: State) {
      Distinct(s.queue) && (s.queue != [] && s.current.Some? ==> s.queue[0] == s.current.value)
    }

    /** It does so in every reachable state in which the handler can be called. */
    lemma ReachableCurrentAtHead(quanta: seq<int>, size: nat, states: seq<State>, events: seq<Event>, k: nat)
      requires Positive(quanta) && IsRun(quanta, size, states, events) && k < |states|
      requires Enabled(states[k], Tick)
      ensures CurrentAtHead(states[k])
    {
      RunKeeps(quanta, size, states, events, k);
    }

    /** What `suspend_worker` does to the queue and the counts of the model. */
    ghost predicate Suspends(s: State, w: nat, t: State)
      requires Shaped(s) && s.queue != [] && w < |s.at|
    {
      && t.queue == s.queue[1..] + (if s.left[w] == 1 then [] else [w])
      && t.left == Charged(s.left, w) && |t.at| == |s.at|
      && t.completed == s.completed + (if s.left[w] == 1 then 1 else 0)
      && t.quit == s.quit && t.waiting == s.waiting && t.current == s.current
    }

    lemma SuspendEffect(s: State, w: nat)
      requires Shaped(s) && Distinct(s.queue) && s.queue != [] && s.queue[0] == w && w < |s.at|
      ensures Suspends(s, w, Scheduler.SuspendWorker(s, w))
    {
      HeadMembers(s.queue);
    }

    /** `init_sched_queue`, with the workers created and none admitted. */
    constructor (workers: seq<ThreadInfo>, ghost size: nat)
      requires forall v, w :: 0 <= v < w < |workers| ==> workers[v] != workers[w]
      ensures Represents() && fresh(queue) && this.workers == workers
      ensures model == Start(seq(|workers|, w requires 0 <= w < |workers| reads workers => workers[w].quanta), size)
    {
      queue := new ThreadInfoList();
      this.workers := workers;
      currentThread, completed, quit := null, 0, false;
      waitTimes, runTimes := 0, 0;
      model := Start(seq(|workers|, w requires 0 <= w < |workers| reads workers => workers[w].quanta), size);
    }

    /** What an admission does to the queue of the model. */
    ghost predicate Admits(s: State, w: nat, t: State) {
      && Shaped(t) && t.queue == s.queue + [w] && t.left == s.left && |t.at| == |s.at|
      && t.completed == s.completed && t.quit == s.quit && t.waiting == s.waiting && t.current == s.current
    }

    /** The worker's element goes to the tail. */
    method Enqueue(item: ListElem, ghost w: nat, ghost t: State)
      requires Represents() && w < |workers| && Admits(model, w, t)
      requires item.info == workers[w] && workers[w].le == item && item !in queue.elems
      modifies this`model, queue, queue.elems, item
      ensures Represents() && model == t
    {
      ghost var elems, ids := queue.elems, model.queue;
      var _ := queue.InsertTail(item);
      assert Carries(elems, ids);
      assert Carries(queue.elems, t.queue);
      model := t;
    }

    /** `enter_scheduler_queue`, once the semaphore has let the worker in. */
    method EnterSchedulerQueue(info: ThreadInfo, ghost w: nat)
      requires Represents() && w < |workers| && workers[w] == info && model.at[w] == Entering
      requires w !in model.queue
      modifies this`model, queue, queue.elems, info
      ensures Represents() && model == Apply(old(model), Insert(w))
      ensures info.clock == old(info.clock)
    {
      ghost var elems, ids := queue.elems, model.queue;
      var item := new ListElem(info);
      info.le := item;
      assert Carries(elems, ids) by {
        assert forall i :: 0 <= i < |ids| ==> ids[i] in ids;
      }
      Enqueue(item, w, Apply(model, Insert(w)));
    }

    /** `leave_scheduler_queue`: the worker goes out of the queue, wherever it is. */
    method LeaveSchedulerQueue(info: ThreadInfo) returns (ghost k: nat)
      requires queue.Valid() && info.le != null && info.le in queue.elems
      modifies queue, queue.elems
      ensures queue.Valid()
      ensures k < |old(queue.elems)| && old(queue.elems)[k] == info.le
      ensures queue.elems == RemoveAt(old(queue.elems), k)
    {
      var _, at := queue.Remove(info.le);
      k := at;
    }

    /** `suspend_worker`: from its place `k` to the tail, or cancelled when its last quantum is spent. */
    method SuspendWorker(info: ThreadInfo, now: Timespec) returns (ghost k: nat)
      requires queue.Valid() && info.le != null && info.le in queue.elems
      modifies this`completed, this`waitTimes, this`runTimes, queue, queue.elems, info
      ensures queue.Valid()
      ensures k < |old(queue.elems)| && old(queue.elems)[k] == info.le
      ensures queue.elems == RemoveAt(old(queue.elems), k) + if info.quanta != 0 then [old(queue.elems)[k]] else []
      ensures info.quanta == old(info.quanta) - 1 && info.le == old(info.le)
      ensures info.clock == TimeAccounting.Suspended(old(info.clock), now)
      ensures completed == old(completed) + if info.quanta == 0 then 1 else 0
      ensures waitTimes == old(waitTimes) + if info.quanta == 0 then info.clock.wait else 0
      ensures runTimes == old(runTimes) + if info.quanta == 0 then info.clock.run else 0
    {
      info.quanta := info.quanta - 1;
      info.clock := TimeAccounting.Suspended(info.clock, now);
      if info.quanta != 0 {
        var _, at := queue.Remove(info.le);
        k := at;
        var _ := queue.InsertTail(info.le);
      } else {
        waitTimes := waitTimes + info.clock.wait;
        runTimes := runTimes + info.clock.run;
        completed := completed + 1;
        k := LeaveSchedulerQueue(info);
      }
    }

    /** The same on the worker at the head. */
    method SuspendHead(info: ThreadInfo, now: Timespec)
      requires queue.Valid() && queue.elems != [] && info.le == queue.elems[0]
      modifies this`completed, this`waitTimes, this`runTimes, queue, queue.elems, info
      ensures queue.Valid()
      ensures queue.elems == old(queue.elems)[1..] + if info.quanta != 0 then [old(queue.elems)[0]] else []
      ensures info.quanta == old(info.quanta) - 1 && info.le == old(info.le)
      ensures info.clock == TimeAccounting.Suspended(old(info.clock), now)
      ensures completed == old(completed) + if info.quanta == 0 then 1 else 0
      ensures waitTimes == old(waitTimes) + if info.quanta == 0 then info.clock.wait else 0
      ensures runTimes == old(runTimes) + if info.quanta == 0 then info.clock.run else 0
    {
      var k := SuspendWorker(info, now);
      assert k == 0;
      assert RemoveAt(old(queue.elems), 0) == old(queue.elems)[1..];
    }

    /** The same on the current thread, which the model has at the head of its queue. */
    method SuspendCurrent(info: ThreadInfo, now: Timespec, ghost w: nat, ghost t: State)
      requires Represents() && !model.waiting && model.current == Some(w) && currentThread == info
      requires model.queue != [] && model.queue[0] == w && Suspends(model, w, t)
      modifies this`model, this`completed, this`waitTimes, this`runTimes, queue, queue.elems, info
      ensures Represents() && model == t && currentThread == old(currentThread)
      ensures info.clock == TimeAccounting.Suspended(old(info.clock), now)
      ensures completed == old(completed) ==> waitTimes == old(waitTimes) && runTimes == old(runTimes)
      ensures completed != old(completed) ==>
                && old(currentThread) != null
                && waitTimes == old(waitTimes) + old(currentThread).clock.wait
                && runTimes == old(runTimes) + old(currentThread).clock.run
    {
      ghost var elems, ids := queue.elems, model.queue;
      SuspendHead(info, now);
      assert Carries(queue.elems, t.queue) by {
        assert Carries(elems, ids);
        CarriesRotation(elems, ids);
        assert elems[1..] + [] == elems[1..] && ids[1..] + [] == ids[1..];
      }
      assert Owes(t.left) by {
        assert forall v :: 0 <= v < |workers| && v != w ==> workers[v] != info;
      }
      model := t;
    }

    ghost predicate OnlyClock(w: Option<nat>, before: seq<Clock>, now: Timespec)
      requires |before| == |workers|
      reads workers
    {
      forall v :: 0 <= v < |workers| ==>
        workers[v].clock == if w == Some(v) then TimeAccounting.Suspended(before[v], now) else before[v]
    }

    /** The clocks of all workers. */
    ghost function Clocks(): (r: seq<Clock>)
      reads workers
      ensures |r| == |workers| && forall w :: 0 <= w < |workers| ==> r[w] == workers[w].clock
    {
      seq(|workers|, w requires 0 <= w < |workers| reads workers => workers[w].clock)
    }

    /** Every worker's clock takes its part of the event. */
    ghost predicate ClocksStep(s: State, e: Event, before: seq<Clock>, now: Timespec)
      requires |before| == |workers|
      reads workers
    {
      forall w :: 0 <= w < |workers| ==> workers[w].clock == ClockStep(s, e, w, now, before[w])
    }

    method SuspendIfRunning(now: Timespec)
      requires Represents() && !model.waiting && CurrentAtHead(model) && model.queue != []
      modifies this, queue, queue.elems, workers
      ensures Represents() && OnlyClock(model.current, old(Clocks()), now)
      ensures model == if old(model.current).Some?
                       then Scheduler.SuspendWorker(old(model), old(model.current).value) else old(model)
      ensures completed == old(completed) ==> waitTimes == old(waitTimes) && runTimes == old(runTimes)
      ensures completed != old(completed) ==>
                && old(currentThread) != null
                && waitTimes == old(waitTimes) + old(currentThread).clock.wait
                && runTimes == old(runTimes) + old(currentThread).clock.run
    {
      if currentThread != null {
        SuspendEffect(model, model.current.value);
        SuspendCurrent(currentThread, now, model.current.value, Scheduler.SuspendWorker(model, model.current.value));
      }
    }

    /** `timer_handler` up to the loop in `wait_for_queue`. */
    method HandlerUntilWait(now: Timespec)
      requires Represents() && !model.waiting && CurrentAtHead(model)
      modifies this, queue, queue.elems, workers
      ensures Represents() && model == TickStep(old(model))
      ensures ClocksStep(old(model), Tick, old(Clocks()), now)
      ensures completed == old(completed) ==> waitTimes == old(waitTimes) && runTimes == old(runTimes)
      ensures completed != old(completed) ==>
                && old(currentThread) != null
                && waitTimes == old(waitTimes) + old(currentThread).clock.wait
                && runTimes == old(runTimes) + old(currentThread).clock.run
    {
      var n := queue.Size();
      if n == 0 {
        model := TickStep(model);
        quit := true;
      } else {
        SuspendAndChoose(now);
      }
    }

    /** The rest of that half, with somebody in the queue. */
    method SuspendAndChoose(now: Timespec)
      requires Represents() && !model.waiting && CurrentAtHead(model) && model.queue != []
      modifies this, queue, queue.elems, workers
      ensures Represents() && model == TickStep(old(model))
      ensures OnlyClock(old(model.current), old(Clocks()), now)
      ensures completed == old(completed) ==> waitTimes == old(waitTimes) && runTimes == old(runTimes)
      ensures completed != old(completed) ==>
                && old(currentThread) != null
                && waitTimes == old(waitTimes) + old(currentThread).clock.wait
                && runTimes == old(runTimes) + old(currentThread).clock.run
    {
      SuspendIfRunning(now);
      NextWorkerUntilWait();
    }

    /** `next_worker` up to its wait. */
    method NextWorkerUntilWait()
      requires Represents() && !model.waiting
      modifies this`currentThread, this`quit, this`model
      ensures Represents() && model == CheckDone(old(model))
    {
      model := CheckDone(model);
      if completed >= |workers| {
        currentThread := null;
        quit := true;
      }
    }

    /** `next_worker` after its wait: the worker at the head. */
    method NextWorkerAfterWait() returns (info: ThreadInfo)
      requires Represents() && model.queue != []
      ensures model.queue[0] < |workers| && info == workers[model.queue[0]]
    {
      info := queue.head.info;
    }

    /** `timer_handler` after that loop: the head becomes the current thread. */
    method HandlerAfterWait(now: Timespec)
      requires Represents() && model.waiting && model.queue != []
      modifies this`currentThread, this`model, workers
      ensures Represents() && model == Apply(old(model), Resume)
      ensures ClocksStep(old(model), Resume, old(Clocks()), now)
    {
      var info := NextWorkerAfterWait();
      currentThread := info;
      info.clock := TimeAccounting.Resumed(info.clock, now);
      model := Apply(model, Resume);
    }
  }
}
