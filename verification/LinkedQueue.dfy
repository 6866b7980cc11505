/** The linked queue of event/daemon/queue.c: each entry points to the one that will be got
    after it, new entries join at either end, and entries leave at the bottom. */
module LinkedQueue {
  class QueueEntry<T> {
    const request: T
    var prev: QueueEntry?<T>

    constructor (request: T)
      ensures this.request == request && prev == null
    {
      this.request := request;
      prev := null;
    }
  }

  ghost function RequestsOf<T>(es: seq<QueueEntry<T>>): (rs: seq<T>)
    ensures |rs| == |es|
    ensures forall i :: 0 <= i < |es| ==> rs[i] == es[i].request
  {
    seq(|es|, i requires 0 <= i < |es| => es[i].request)
  }

  lemma OneRequestMore<T>(es: seq<QueueEntry<T>>, e: QueueEntry<T>)
    ensures RequestsOf([e] + es) == [e.request] + RequestsOf(es)
    ensures RequestsOf(es + [e]) == RequestsOf(es) + [e.request]
  {
  }

  lemma OneRequestLess<T>(es: seq<QueueEntry<T>>)
    requires es != []
    ensures RequestsOf(es)[0] == es[0].request && RequestsOf(es[1..]) == RequestsOf(es)[1..]
  {
  }

  class Queue<T> {
    var size: nat
    var top: QueueEntry?<T>
    var bottom: QueueEntry?<T>
    // The entries from bottom to top.
    ghost var Entries: seq<QueueEntry<T>>

    constructor ()
      ensures Valid() && Entries == []
    {
      size := 0;
      top, bottom := null, null;
      Entries := [];
    }

    // The prev chain from bottom runs through Entries once and ends at top.
    ghost predicate Valid()
      reads this, Entries
    {
      && size == |Entries|
      && (forall i, j :: 0 <= i < j < |Entries| ==> Entries[i] != Entries[j])
      && (Entries == [] ==> top == null && bottom == null)
      && (Entries != [] ==>
            && bottom == Entries[0]
            && top == Entries[|Entries| - 1]
            && top.prev == null)
      && (forall i :: 0 <= i < |Entries| - 1 ==> Entries[i].prev == Entries[i + 1])
    }

    ghost function Contents(): seq<T>
      reads this
    {
      RequestsOf(Entries)
    }

    // For asynchronous requests: got after everything already here.
    method Put(e: QueueEntry<T>)
      requires Valid() && e !in Entries && e.prev == null
      modifies this, Entries
      ensures Valid() && Entries == old(Entries) + [e]
      ensures forall x :: x in old(Entries) && x != old(top) ==> x.prev == old(x.prev)
    {
      if top == null {
        top := e;
        bottom := e;
      } else {
        top.prev := e;
        top := e;
      }
      size := size + 1;
      Entries := Entries + [e];
    }

    // For synchronous requests: got before everything already here.
    method Cas(e: QueueEntry<T>)
      requires Valid() && e !in Entries && e.prev == null
      modifies this, e
      ensures Valid() && Entries == [e] + old(Entries)
    {
      if top == null {
        top := e;
        bottom := e;
      } else {
        e.prev := bottom;
        bottom := e;
      }
      size := size + 1;
      Entries := [e] + Entries;
    }

    method Get() returns (e: QueueEntry?<T>)
      requires Valid()
      modifies this
      ensures Valid()
      ensures old(Entries) == [] ==> e == null && Entries == []
      ensures old(Entries) != [] ==> e == old(Entries[0]) && Entries == old(Entries)[1..]
    {
      if bottom == null {
        return null;
      }
      e := bottom;
      var t := bottom.prev;
      bottom := t;
      if t == null {
        top := null;
      }
      size := size - 1;
      Entries := Entries[1..];
    }

    // queue_free: get until there is nothing left; the entries got are the ones freed.
    method Drain() returns (freed: seq<QueueEntry<T>>)
      requires Valid()
      modifies this
      ensures Valid() && Entries == [] && freed == old(Entries)
    {
      freed := [];
      var e := Get();
      while e != null
        invariant Valid()
        invariant e == null ==> Entries == [] && freed == old(Entries)
        invariant e != null ==> freed + [e] + Entries == old(Entries)
        decreases e != null, |Entries|
      {
        freed := freed + [e];
        e := Get();
      }
    }
  }
}
