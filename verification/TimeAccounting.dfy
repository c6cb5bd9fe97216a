/**
  Run and wait times.  Each interval between a suspension and a resumption is converted to
  whole microseconds on its own, so what the totals lose is what all the conversions lose.
 */
module TimeAccounting {

  datatype Timespec = Timespec(sec: int, nsec: int)

  function Nanos(t: Timespec): int {
    1000000000 * t.sec + t.nsec
  }

  /** Division as in C: towards zero. */
  function TruncatedDiv(a: int, b: int): (q: int)
    requires b > 0
    ensures a >= 0 ==> b * q <= a < b * q + b
    ensures a <= 0 ==> b * q - b < a <= b * q
  {
    if a >= 0 then a / b else -((-a) / b)
  }

  /** `time_difference`, in microseconds. */
  function TimeDifference(t1: Timespec, t2: Timespec): int {
    (t1.sec - t2.sec) * 1000000 + TruncatedDiv(t1.nsec - t2.nsec, 1000)
  }

  /** The time fields of a `thread_info`. */
  datatype Clock = Clock(suspended: Timespec, resumed: Timespec, wait: int, run: int)

  function Created(now: Timespec): Clock {
    Clock(now, now, 0, 0)
  }

  /** `resume_worker`: stamp the time, then add what was waited. */
  function Resumed(c: Clock, now: Timespec): Clock {
    c.(resumed := now, wait := c.wait + TimeDifference(now, c.suspended))
  }

  /** `suspend_worker`: stamp the time, then add what was run. */
  function Suspended(c: Clock, now: Timespec): Clock {
    c.(suspended := now, run := c.run + TimeDifference(now, c.resumed))
  }

  /** A turn: when the worker was resumed and when it was suspended again. */
  datatype Turn = Turn(resume: Timespec, suspend: Timespec)

  function AfterTurns(created: Timespec, turns: seq<Turn>): Clock {
    if turns == [] then Created(created)
    else
      var t := turns[|turns| - 1];
      Suspended(Resumed(AfterTurns(created, turns[..|turns| - 1]), t.resume), t.suspend)
  }

  /** One conversion is off by less than a microsecond, whichever way the clock went. */
  lemma DifferenceError(t1: Timespec, t2: Timespec)
    ensures -1000 < 1000 * TimeDifference(t1, t2) - (Nanos(t1) - Nanos(t2)) < 1000
  {
  }

  /** Intervals measured the other way round are as long, with the other sign. */
  lemma DifferenceReversed(t1: Timespec, t2: Timespec)
    ensures TimeDifference(t2, t1) == -TimeDifference(t1, t2)
  {
    assert (t2.sec - t1.sec) * 1000000 == -((t1.sec - t2.sec) * 1000000);
    var d := t1.nsec - t2.nsec;
    if d >= 0 {
      assert TruncatedDiv(-d, 1000) == -TruncatedDiv(d, 1000);
    } else {
      assert TruncatedDiv(d, 1000) == -TruncatedDiv(-d, 1000);
    }
  }

  // ----- Totals over many turns

  /** Nanoseconds spent running: from each resumption to the suspension that follows. */
  function RunNanos(turns: seq<Turn>): int {
    if turns == [] then 0
    else
      var t := turns[|turns| - 1];
      RunNanos(turns[..|turns| - 1]) + Nanos(t.suspend) - Nanos(t.resume)
  }

  function LastSuspension(created: Timespec, turns: seq<Turn>): Timespec {
    if turns == [] then created else turns[|turns| - 1].suspend
  }

  /** Nanoseconds spent waiting: from creation, then from each suspension, to the resumption that follows. */
  function WaitNanos(created: Timespec, turns: seq<Turn>): int {
    if turns == [] then 0
    else
      var before := turns[..|turns| - 1];
      WaitNanos(created, before) + Nanos(turns[|turns| - 1].resume) - Nanos(LastSuspension(created, before))
  }

  /** No more than `n` conversions, each off by less than a microsecond, lie between the two. */
  predicate Within(n: nat, micros: int, nanos: int) {
    if n == 0 then 1000 * micros == nanos else -1000 * n < 1000 * micros - nanos < 1000 * n
  }

  /** After `k` turns, run time and wait time are each right to within `k` microseconds. */
  lemma {:induction false} RunAndWaitTimes(created: Timespec, turns: seq<Turn>)
    ensures var c := AfterTurns(created, turns);
            && Within(|turns|, c.run, RunNanos(turns))
            && Within(|turns|, c.wait, WaitNanos(created, turns))
            && c.suspended == LastSuspension(created, turns)
            && c.resumed == if turns == [] then created else turns[|turns| - 1].resume
  {
    if turns != [] {
      var before, t := turns[..|turns| - 1], turns[|turns| - 1];
      var c := AfterTurns(created, before);
      RunAndWaitTimes(created, before);
      DifferenceError(t.resume, c.suspended);
      DifferenceError(t.suspend, t.resume);
    }
  }

  /** Running and waiting together are all the time from creation to the last suspension. */
  lemma {:induction false} RunAndWaitTelescope(created: Timespec, turns: seq<Turn>)
    ensures RunNanos(turns) + WaitNanos(created, turns) == Nanos(LastSuspension(created, turns)) - Nanos(created)
  {
    if turns != [] {
      RunAndWaitTelescope(created, turns[..|turns| - 1]);
    }
  }

  /** So after `k` turns both together are the time from creation to the last suspension, within `2k` microseconds. */
  lemma TimesTelescope(created: Timespec, turns: seq<Turn>)
    ensures var c := AfterTurns(created, turns);
            && Within(2 * |turns|, c.run + c.wait, Nanos(c.suspended) - Nanos(created))
            && c.suspended == LastSuspension(created, turns)
  {
    RunAndWaitTimes(created, turns);
    RunAndWaitTelescope(created, turns);
  }

  lemma DifferenceExact(t1: Timespec, t2: Timespec)
    requires t1.nsec % 1000 == 0 && t2.nsec % 1000 == 0
    ensures 1000 * TimeDifference(t1, t2) == Nanos(t1) - Nanos(t2)
  {
    var a, b := t1.nsec / 1000, t2.nsec / 1000;
    assert t1.nsec - t2.nsec == 1000 * (a - b);
  }

  /** With clocks that show whole microseconds nothing is lost, of the run time or of the wait time. */
  lemma {:induction false} WholeMicrosecondsExact(created: Timespec, turns: seq<Turn>)
    requires created.nsec % 1000 == 0
    requires forall i :: 0 <= i < |turns| ==> turns[i].resume.nsec % 1000 == 0 && turns[i].suspend.nsec % 1000 == 0
    ensures var c := AfterTurns(created, turns);
            && 1000 * c.run == RunNanos(turns) && 1000 * c.wait == WaitNanos(created, turns)
            && c.suspended == LastSuspension(created, turns) && c.suspended.nsec % 1000 == 0
  {
    if turns != [] {
      var before, t := turns[..|turns| - 1], turns[|turns| - 1];
      var c := AfterTurns(created, before);
      WholeMicrosecondsExact(created, before);
      DifferenceExact(t.resume, c.suspended);
      DifferenceExact(t.suspend, t.resume);
    }
  }
}
