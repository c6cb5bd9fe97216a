/**
  The intrusive doubly linked queue of the scheduler.  The ghost sequence `elems` is what the
  links represent; every operation says what it does to that sequence.
 */
module ThreadList {
  import opened TimeAccounting

  class ThreadInfo {
    var quanta: int
    var le: ListElem?
    var clock: Clock

    /** `create_workers` stamps both times with the time of creation. */
    constructor (quanta: int, now: Timespec)
      ensures this.quanta == quanta && le == null && clock == Created(now)
    {
      this.quanta := quanta;
      le := null;
      clock := Created(now);
    }
  }

  class ListElem {
    var prev: ListElem?
    var next: ListElem?
    const info: ThreadInfo

    constructor (info: ThreadInfo)
      ensures prev == null && next == null && this.info == info
    {
      prev, next := null, null;
      this.info := info;
    }
  }

  ghost predicate NoRepeat(s: seq<ListElem>) {
    forall i, j :: 0 <= i < j < |s| ==> s[i] != s[j]
  }

  ghost function RemoveAt(s: seq<ListElem>, k: nat): (r: seq<ListElem>)
    requires k < |s|
    ensures |r| == |s| - 1
    ensures forall i :: 0 <= i < k ==> r[i] == s[i]
    ensures forall i :: k <= i < |r| ==> r[i] == s[i + 1]
    ensures NoRepeat(s) ==> NoRepeat(r) && s[k] !in r
  {
    s[..k] + s[k + 1..]
  }

  class ThreadInfoList {
    var head: ListElem?
    var tail: ListElem?
    ghost var elems: seq<ListElem>

    ghost predicate Valid()
      reads this, elems
    {
      && NoRepeat(elems)
      && head == (if elems == [] then null else elems[0])
      && tail == (if elems == [] then null else elems[|elems| - 1])
      && (forall i {:trigger elems[i].prev} :: 0 <= i < |elems|
            ==> elems[i].prev == if i == 0 then null else elems[i - 1])
      && (forall i {:trigger elems[i].next} :: 0 <= i < |elems|
            ==> elems[i].next == if i == |elems| - 1 then null else elems[i + 1])
    }

    constructor ()
      ensures Valid() && elems == []
    {
      head, tail := null, null;
      elems := [];
    }

    /** Walks the links; the walk ends, at the number of elements. */
    method Size() returns (count: int)
      requires Valid()
      ensures count == |elems|
    {
      count := 0;
      var le := head;
      while le != null
        invariant 0 <= count <= |elems|
        invariant le == if count == |elems| then null else elems[count]
        decreases |elems| - count
      {
        count := count + 1;
        le := le.next;
      }
    }

    method InsertHead(e: ListElem?) returns (status: int)
      requires Valid() && e !in elems
      modifies this, elems, e
      ensures Valid()
      ensures status == if e == null then -1 else 0
      ensures elems == (if e == null then [] else [e]) + old(elems)
    {
      if e == null {
        return -1;
      }
      e.next := head;
      e.prev := null;
      if e.next != null {
        e.next.prev := e;
      }
      head := e;
      if tail == null {
        tail := e;
      }
      elems := [e] + elems;
      return 0;
    }

    method InsertTail(e: ListElem?) returns (status: int)
      requires Valid() && e !in elems
      modifies this, elems, e
      ensures Valid()
      ensures status == if e == null then -1 else 0
      ensures elems == old(elems) + if e == null then [] else [e]
    {
      if e == null {
        return -1;
      }
      e.prev := tail;
      e.next := null;
      if e.prev != null {
        e.prev.next := e;
      }
      tail := e;
      if head == null {
        head := e;
      }
      elems := elems + [e];
      return 0;
    }

    /** The neighbours of the element at `i` once the element at `k` is skipped. */
    ghost function Before(i: nat, k: nat): ListElem?
      requires i < |elems| && k < |elems| && i != k
      reads this
    {
      var j := if i == k + 1 then i - 2 else i - 1;
      if j < 0 then null else elems[j]
    }

    ghost function Behind(i: nat, k: nat): ListElem?
      requires i < |elems| && k < |elems| && i != k
      reads this
    {
      var j := if i + 1 == k then i + 2 else i + 1;
      if j >= |elems| then null else elems[j]
    }

    /** The pointer surgery: everything but `e` is linked around it. */
    method Unlink(e: ListElem, ghost k: nat)
      requires Valid() && k < |elems| && elems[k] == e
      modifies this`head, this`tail, elems
      ensures e.prev == null && e.next == null
      ensures forall i {:trigger elems[i].prev} :: 0 <= i < |elems| && i != k ==> elems[i].prev == Before(i, k)
      ensures forall i {:trigger elems[i].next} :: 0 <= i < |elems| && i != k ==> elems[i].next == Behind(i, k)
      ensures head == if k > 0 then elems[0] else if |elems| == 1 then null else elems[1]
      ensures tail == if k < |elems| - 1 then elems[|elems| - 1] else if k == 0 then null else elems[k - 1]
    {
      if e.next != null {
        e.next.prev := e.prev;
      }
      if e.prev != null {
        e.prev.next := e.next;
      }
      if tail == e {
        tail := e.prev;
      }
      if head == e {
        head := e.next;
      }
      e.next, e.prev := null, null;
    }

    /** Takes out exactly the element given, wherever it is, and unlinks it. */
    method Remove(e: ListElem?) returns (status: int, ghost k: nat)
      requires Valid()
      requires e != null ==> e in elems
      modifies this, elems
      ensures Valid()
      ensures status == if e == null then -1 else 0
      ensures e == null ==> elems == old(elems)
      ensures e != null ==>
                && k < |old(elems)| && old(elems)[k] == e && elems == RemoveAt(old(elems), k)
                && e !in elems && e.prev == null && e.next == null
    {
      k := 0;
      if e == null {
        return -1, k;
      }
      k :| 0 <= k < |elems| && elems[k] == e;
      Unlink(e, k);
      elems := RemoveAt(elems, k);
      return 0, k;
    }
  }
}
