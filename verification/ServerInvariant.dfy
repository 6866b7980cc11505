/** What every step of the server keeps. */
module ServerInvariant {
  import opened Wrappers
  import opened Server

  // ---------- order within a queue ----------

  // Synchronous entries first, newest first; then asynchronous ones, oldest first.
  predicate Ahead(x: Entry, y: Entry) {
    if x.sync then !y.sync || x.serial > y.serial else !y.sync && x.serial < y.serial
  }

  predicate InOrder(q: seq<Entry>) {
    forall i, j :: 0 <= i < j < |q| ==> Ahead(q[i], q[j])
  }

  // ---------- one plugin ----------

  function Held(w: Worker): multiset<Entry> {
    match w
    case Working(e) => multiset{e}
    case Finished(e) => multiset{e}
    case _ => multiset{}
  }

  function Done(w: Worker): seq<Entry> {
    if w.Finished? then [w.e] else []
  }

  predicate Rising(es: seq<Entry>) {
    forall i, j :: 0 <= i < j < |es| ==> es[i].serial < es[j].serial
  }

  const QUEUE_LIMIT: nat := 1048600

  ghost predicate Conserved(pl: Plugin) {
    multiset(pl.enqueued) ==
      multiset(pl.queue) + Held(pl.worker) + multiset(pl.freed) + multiset(pl.discarded)
  }

  // Once the worker has found the queue empty, what is there came later.
  ghost predicate LateOnly(pl: Plugin) {
    && pl.lastEmpty <= |pl.enqueued|
    && (pl.worker.SawEmpty? || pl.worker.Exited? ==>
          multiset(pl.queue) + multiset(pl.discarded) == multiset(pl.enqueued[pl.lastEmpty..]))
  }

  ghost predicate PluginInv(pl: Plugin) {
    && Rising(pl.enqueued)
    && InOrder(pl.queue)
    && Conserved(pl)
    && LateOnly(pl)
    && pl.processed == pl.freed + Done(pl.worker)
    && |pl.queue| <= QUEUE_LIMIT
    && (pl.worker.Exited? ==> pl.stop)
    && (pl.released ==> pl.worker.Exited? && pl.queue == [])
    && (!pl.released ==> pl.discarded == [])
  }

  // ---------- the whole server ----------

  // The entries made of the messages taken for plugin p, in order.
  function TakenFor(vs: seq<Verdict>, p: nat): seq<Entry> {
    if vs == [] then []
    else
      var k := |vs| - 1;
      TakenFor(vs[..k], p) + if vs[k].Taken? && vs[k].p == p then [Entry(k, vs[k].sync)] else []
  }

  function InHand(net: Net, p: nat): seq<Entry> {
    if net.Holding? && net.p == p then [net.e] else []
  }

  // How many replies message i should have had by now.
  function Due(s: State, i: nat): nat {
    if i >= |s.verdicts| then 0
    else
      match s.verdicts[i]
      case Taken(sync, p) => if sync && p < |s.plugins| && Entry(i, sync) in s.plugins[p].processed then 1 else 0
      case v => if RepliesAtOnce(v) then 1 else 0
  }

  function Count(vs: seq<Verdict>, f: Verdict -> bool): nat {
    if vs == [] then 0 else Count(vs[..|vs| - 1], f) + if f(vs[|vs| - 1]) then 1 else 0
  }

  predicate IsMismatch(v: Verdict) { v == BadHeader(false) }
  predicate IsBroken(v: Verdict) { v == BadHeader(true) || (v.Refused? && v.reason == Broken) }
  predicate IsUnknown(v: Verdict) { v.Refused? && v.reason == Unknown }
  predicate IsBusy(v: Verdict) { v.Refused? && v.reason == Busy }

  ghost predicate StatsInv(s: State) {
    s.stats == Stats(|s.verdicts|, Count(s.verdicts, IsMismatch), Count(s.verdicts, IsBroken),
                     Count(s.verdicts, IsUnknown), Count(s.verdicts, IsBusy))
  }

  ghost predicate NetInv(s: State) {
    && (s.net.Holding? ==>
          && s.looping
          && s.net.p < |s.plugins|
          && |s.plugins[s.net.p].queue| < QUEUE_LIMIT
          && |s.verdicts| > 0
          && s.net.e.serial == |s.verdicts| - 1
          && s.verdicts[|s.verdicts| - 1] == Taken(s.net.e.sync, s.net.p))
    && (forall i :: 0 <= i < |s.verdicts| && s.verdicts[i].Taken? ==> s.verdicts[i].p < |s.plugins|)
  }

  ghost predicate PluginFits(s: State, p: nat)
    requires p < |s.plugins|
  {
    && PluginInv(s.plugins[p])
    && s.plugins[p].enqueued + InHand(s.net, p) == TakenFor(s.verdicts, p)
    && (s.plugins[p].stop ==> !s.looping)
  }

  ghost predicate RepliesInv(s: State) {
    forall i: nat :: s.replies[i] == Due(s, i)
  }

  ghost predicate Inv(s: State) {
    && NetInv(s)
    && StatsInv(s)
    && (forall p :: 0 <= p < |s.plugins| ==> PluginFits(s, p))
    && RepliesInv(s)
  }

  // ---------- plugin steps ----------

  lemma EnqueueKeeps(pl: Plugin, e: Entry)
    requires PluginInv(pl) && !pl.stop && |pl.queue| < QUEUE_LIMIT
    requires forall x :: x in pl.enqueued ==> x.serial < e.serial
    ensures PluginInv(AfterEnqueue(pl, e))
  {
    EnqueueConserves(pl, e);
    forall x | x in pl.queue
      ensures x.serial < e.serial
    {
      InMultiset(pl.queue, x);
      InMultiset(pl.enqueued, x);
    }
    EnqueueInOrder(pl.queue, e);
  }

  lemma EnqueueConserves(pl: Plugin, e: Entry)
    requires Conserved(pl) && LateOnly(pl)
    ensures Conserved(AfterEnqueue(pl, e)) && LateOnly(AfterEnqueue(pl, e))
  {
    var after := AfterEnqueue(pl, e);
    assert multiset(after.queue) == multiset(pl.queue) + multiset{e};
    assert multiset(after.enqueued) == multiset(pl.enqueued) + multiset{e};
    assert after.enqueued[pl.lastEmpty..] == pl.enqueued[pl.lastEmpty..] + [e];
  }

  lemma EnqueueInOrder(q: seq<Entry>, e: Entry)
    requires InOrder(q) && forall x :: x in q ==> x.serial < e.serial
    ensures InOrder(Insert(q, e))
  {
  }

  lemma GetKeeps(pl: Plugin)
    requires PluginInv(pl) && pl.worker.Waiting?
    ensures PluginInv(AfterGet(pl))
  {
    if pl.queue == [] {
      assert pl.enqueued[|pl.enqueued|..] == [];
    } else {
      assert pl.queue == [pl.queue[0]] + pl.queue[1..];
    }
  }

  lemma ProcessKeeps(pl: Plugin)
    requires PluginInv(pl) && pl.worker.Working?
    ensures PluginInv(AfterProcess(pl))
  {
  }

  lemma FreeKeeps(pl: Plugin)
    requires PluginInv(pl) && pl.worker.Finished?
    ensures PluginInv(AfterFree(pl))
  {
  }

  lemma ReleaseKeeps(pl: Plugin)
    requires PluginInv(pl) && pl.worker.Exited?
    ensures PluginInv(AfterRelease(pl))
  {
  }

  lemma StopKeeps(pl: Plugin)
    requires PluginInv(pl)
    ensures PluginInv(pl.(stop := true))
    ensures pl.worker.SawEmpty? ==> PluginInv(AfterTestStop(pl))
  {
  }

  // ---------- what the parts say about each other ----------

  lemma {:induction false} TakenForEntry(vs: seq<Verdict>, p: nat, x: Entry)
    ensures x in TakenFor(vs, p) <==> x.serial < |vs| && vs[x.serial] == Taken(x.sync, p)
    decreases |vs|
  {
    if vs != [] {
      var k := |vs| - 1;
      TakenForEntry(vs[..k], p, x);
      if x.serial < k {
        assert vs[..k][x.serial] == vs[x.serial];
      }
    }
  }

  lemma EnqueuedWasTaken(s: State, p: nat, x: Entry)
    requires Inv(s) && p < |s.plugins| && x in s.plugins[p].enqueued
    ensures x.serial < |s.verdicts| && s.verdicts[x.serial] == Taken(x.sync, p)
    ensures s.net.Holding? ==> x.serial < s.net.e.serial
  {
    assert PluginFits(s, p);
    var all := s.plugins[p].enqueued + InHand(s.net, p);
    assert x in all;
    TakenForEntry(s.verdicts, p, x);
    if s.net.Holding? {
      RisingTaken(s.verdicts, p);
      var i :| 0 <= i < |s.plugins[p].enqueued| && s.plugins[p].enqueued[i] == x;
      if s.net.p == p {
        assert all[i] == x && all[|all| - 1] == s.net.e;
      }
    }
  }

  lemma {:induction false} RisingTaken(vs: seq<Verdict>, p: nat)
    ensures Rising(TakenFor(vs, p))
    decreases |vs|
  {
    if vs != [] {
      var k := |vs| - 1;
      RisingTaken(vs[..k], p);
      forall x | x in TakenFor(vs[..k], p) ensures x.serial < k {
        TakenForEntry(vs[..k], p, x);
      }
    }
  }

  lemma InMultiset(xs: seq<Entry>, x: Entry)
    ensures x in xs <==> multiset(xs)[x] > 0
  {
  }

  lemma {:induction false} RisingOnce(es: seq<Entry>, x: Entry)
    requires Rising(es)
    ensures multiset(es)[x] <= 1
    decreases |es|
  {
    if es != [] {
      var k := |es| - 1;
      RisingOnce(es[..k], x);
      assert es == es[..k] + [es[k]];
      InMultiset(es[..k], x);
    }
  }

  // What the worker has in hand was enqueued, and has been neither processed nor queued again.
  lemma WorkingIsNew(pl: Plugin)
    requires PluginInv(pl) && pl.worker.Working?
    ensures pl.worker.e in pl.enqueued && pl.worker.e !in pl.processed && pl.worker.e !in pl.queue
  {
    var e := pl.worker.e;
    RisingOnce(pl.enqueued, e);
    InMultiset(pl.enqueued, e);
    InMultiset(pl.freed, e);
    InMultiset(pl.queue, e);
    assert pl.processed == pl.freed;
  }

  lemma WorkingWasTaken(n: nat, s: State, p: nat)
    requires Reachable(n, s) && p < |s.plugins| && s.plugins[p].worker.Working?
    ensures var e := s.plugins[p].worker.e; e.serial < |s.verdicts| && s.verdicts[e.serial] == Taken(e.sync, p)
  {
    ReachableInv(n, s);
    assert PluginFits(s, p);
    WorkingIsNew(s.plugins[p]);
    EnqueuedWasTaken(s, p, s.plugins[p].worker.e);
  }

  // ---------- server steps ----------

  lemma InitialInv(n: nat)
    ensures Inv(Initial(n))
  {
  }

  lemma CountOneMore(vs: seq<Verdict>, v: Verdict, f: Verdict -> bool)
    ensures Count(vs + [v], f) == Count(vs, f) + if f(v) then 1 else 0
  {
    assert (vs + [v])[..|vs|] == vs;
  }

  lemma BumpCounts(s: State, v: Verdict)
    requires StatsInv(s)
    ensures StatsInv(s.(stats := Bump(s.stats, v), verdicts := s.verdicts + [v]))
  {
    CountOneMore(s.verdicts, v, IsMismatch);
    CountOneMore(s.verdicts, v, IsBroken);
    CountOneMore(s.verdicts, v, IsUnknown);
    CountOneMore(s.verdicts, v, IsBusy);
  }

  lemma TakenOneMore(vs: seq<Verdict>, v: Verdict, p: nat)
    ensures TakenFor(vs + [v], p) == TakenFor(vs, p) + if v.Taken? && v.p == p then [Entry(|vs|, v.sync)] else []
  {
    assert (vs + [v])[..|vs|] == vs;
  }

  // The first message not yet seen is owed nothing and no entry is its.
  lemma NewSerialIsNew(s: State, p: nat, sync: bool)
    requires Inv(s) && p < |s.plugins|
    ensures Entry(|s.verdicts|, sync) !in s.plugins[p].processed
  {
    var x := Entry(|s.verdicts|, sync);
    var pl := s.plugins[p];
    assert PluginFits(s, p);
    if x in pl.processed {
      ProcessedWasEnqueued(pl, x);
      EnqueuedWasTaken(s, p, x);
    }
  }

  lemma ProcessedWasEnqueued(pl: Plugin, x: Entry)
    requires PluginInv(pl) && x in pl.processed
    ensures x in pl.enqueued && x !in pl.queue && x !in pl.discarded
  {
    RisingOnce(pl.enqueued, x);
    InMultiset(pl.enqueued, x);
    InMultiset(pl.freed, x);
    InMultiset(pl.queue, x);
    InMultiset(pl.discarded, x);
  }

  lemma ArriveKeepsReplies(s: State, a: Arrival, memory: bool)
    requires Inv(s) && Enabled(s, Arrive(a, memory))
    ensures RepliesInv(AfterArrive(s, a, memory))
  {
    var t := AfterArrive(s, a, memory);
    var k := |s.verdicts|;
    var v := t.verdicts[k];
    if v.Taken? {
      NewSerialIsNew(s, v.p, v.sync);
    }
    forall i: nat
      ensures t.replies[i] == Due(t, i)
    {
      assert s.replies[i] == Due(s, i);
    }
  }

  lemma ArriveShape(s: State, a: Arrival, memory: bool, size: nat)
    requires Enabled(s, Arrive(a, memory))
    requires a.Event? && a.body.ForPlugin? ==> size == |s.plugins[a.body.p].queue|
    ensures var t := Next(s, Arrive(a, memory)); var v := Judge(a, size, memory);
            && t.stats == Bump(s.stats, v)
            && t.verdicts == s.verdicts + [v]
            && t.replies == (if RepliesAtOnce(v) then s.replies + multiset{|s.verdicts|} else s.replies)
            && t.net == (if v.Taken? then Holding(Entry(|s.verdicts|, v.sync), v.p) else Idle)
            && t.plugins == s.plugins && t.looping
            && (v.Taken? ==> a.Event? && a.body == ForPlugin(v.p) && !TestsBusy(size))
  {
  }

  lemma NotBusyIsBelow(size: nat)
    requires size <= QUEUE_LIMIT && !TestsBusy(size)
    ensures size < QUEUE_LIMIT
  {
  }

  lemma TakenKeepsNet(s: State, t: State, v: Verdict)
    requires NetInv(s) && t.looping && t.plugins == s.plugins && t.verdicts == s.verdicts + [v]
    requires t.net == if v.Taken? then Holding(Entry(|s.verdicts|, v.sync), v.p) else Idle
    requires v.Taken? ==> v.p < |s.plugins| && |s.plugins[v.p].queue| < QUEUE_LIMIT
    ensures NetInv(t)
  {
    assert forall i :: 0 <= i < |s.verdicts| ==> t.verdicts[i] == s.verdicts[i];
  }

  lemma ArriveKeepsNet(s: State, a: Arrival, memory: bool)
    requires Inv(s) && Enabled(s, Arrive(a, memory))
    ensures NetInv(AfterArrive(s, a, memory))
  {
    var size := if a.Event? && a.body.ForPlugin? then |s.plugins[a.body.p].queue| else 0;
    var v := Judge(a, size, memory);
    ArriveShape(s, a, memory, size);
    if v.Taken? {
      assert PluginFits(s, v.p);
      NotBusyIsBelow(size);
    }
    TakenKeepsNet(s, AfterArrive(s, a, memory), v);
  }

  lemma ArriveKeeps(s: State, a: Arrival, memory: bool)
    requires Inv(s) && Enabled(s, Arrive(a, memory))
    ensures Inv(AfterArrive(s, a, memory))
  {
    var t := AfterArrive(s, a, memory);
    var v := t.verdicts[|s.verdicts|];
    ArriveKeepsNet(s, a, memory);
    ArriveKeepsReplies(s, a, memory);
    BumpCounts(s, v);
    forall p | 0 <= p < |t.plugins|
      ensures PluginFits(t, p)
    {
      assert PluginFits(s, p);
      TakenOneMore(s.verdicts, v, p);
    }
  }

  lemma RepliesUnchanged(s: State, t: State)
    requires RepliesInv(s) && t.replies == s.replies && t.verdicts == s.verdicts && |t.plugins| == |s.plugins|
    requires forall p :: 0 <= p < |s.plugins| ==> t.plugins[p].processed == s.plugins[p].processed
    ensures RepliesInv(t)
  {
    forall i: nat
      ensures t.replies[i] == Due(t, i)
    {
      assert s.replies[i] == Due(s, i);
    }
  }

  // Only plugin p has changed.
  lemma PluginsFitAfter(s: State, t: State, p: nat)
    requires p < |s.plugins| && |t.plugins| == |s.plugins|
    requires forall q :: 0 <= q < |s.plugins| ==> PluginFits(s, q)
    requires forall q :: 0 <= q < |s.plugins| && q != p ==>
               t.plugins[q] == s.plugins[q] && InHand(t.net, q) == InHand(s.net, q)
    requires t.verdicts == s.verdicts && t.looping == s.looping && PluginFits(t, p)
    ensures forall q :: 0 <= q < |t.plugins| ==> PluginFits(t, q)
  {
    forall q | 0 <= q < |t.plugins|
      ensures PluginFits(t, q)
    {
      assert PluginFits(s, q);
    }
  }

  lemma EnqueueFits(s: State)
    requires Inv(s) && Enabled(s, Enqueue)
    ensures PluginFits(Next(s, Enqueue), s.net.p)
  {
    var p, e := s.net.p, s.net.e;
    assert PluginFits(s, p);
    forall x | x in s.plugins[p].enqueued
      ensures x.serial < e.serial
    {
      EnqueuedWasTaken(s, p, x);
    }
    EnqueueKeeps(s.plugins[p], e);
    assert s.plugins[p].enqueued + [e] + [] == s.plugins[p].enqueued + [e];
  }

  lemma EnqueueStepKeeps(s: State)
    requires Inv(s) && Enabled(s, Enqueue)
    ensures Inv(Next(s, Enqueue))
  {
    var t := Next(s, Enqueue);
    EnqueueFits(s);
    PluginsFitAfter(s, t, s.net.p);
    RepliesUnchanged(s, t);
  }

  // A step of plugin p alone that processes nothing and enqueues nothing.
  lemma QuietStepKeeps(s: State, p: nat, pl: Plugin)
    requires Inv(s) && p < |s.plugins| && PluginInv(pl)
    requires pl.enqueued == s.plugins[p].enqueued && pl.processed == s.plugins[p].processed
    requires pl.stop ==> !s.looping
    requires |pl.queue| <= |s.plugins[p].queue|
    ensures Inv(With(s, p, pl))
  {
    var t := With(s, p, pl);
    assert PluginFits(s, p);
    PluginsFitAfter(s, t, p);
    RepliesUnchanged(s, t);
  }

  lemma ProcessKeepsReplies(s: State, p: nat)
    requires Inv(s) && Enabled(s, Process(p))
    ensures RepliesInv(Next(s, Process(p)))
  {
    var t := Next(s, Process(p));
    assert PluginFits(s, p);
    WorkingIsNew(s.plugins[p]);
    EnqueuedWasTaken(s, p, s.plugins[p].worker.e);
    forall i: nat
      ensures t.replies[i] == Due(t, i)
    {
      assert s.replies[i] == Due(s, i);
      ProcessDue(s, p, i);
    }
  }

  lemma ProcessStepKeeps(s: State, p: nat)
    requires Inv(s) && Enabled(s, Process(p))
    ensures Inv(Next(s, Process(p)))
  {
    assert PluginFits(s, p);
    ProcessKeeps(s.plugins[p]);
    PluginsFitAfter(s, Next(s, Process(p)), p);
    ProcessKeepsReplies(s, p);
  }

  lemma ProcessDue(s: State, p: nat, i: nat)
    requires Enabled(s, Process(p))
    requires var e := s.plugins[p].worker.e;
             e.serial < |s.verdicts| && s.verdicts[e.serial] == Taken(e.sync, p) && e !in s.plugins[p].processed
    ensures var e := s.plugins[p].worker.e;
            Due(Next(s, Process(p)), i) == Due(s, i) + if e.sync && i == e.serial then 1 else 0
  {
  }

  lemma WorkerStepKeeps(s: State, l: Label)
    requires Inv(s) && Enabled(s, l) && (l.Get? || l.TestStop? || l.Free?)
    ensures Inv(Next(s, l))
  {
    var pl := s.plugins[l.p];
    assert PluginFits(s, l.p);
    match l
    case Get(p) => GetKeeps(pl); QuietStepKeeps(s, p, AfterGet(pl));
    case Free(p) => FreeKeeps(pl); QuietStepKeeps(s, p, AfterFree(pl));
    case TestStop(p) => StopKeeps(pl); QuietStepKeeps(s, p, AfterTestStop(pl));
  }

  lemma ShutdownStepKeeps(s: State, l: Label)
    requires Inv(s) && Enabled(s, l) && (l.Stop? || l.Release?)
    ensures Inv(Next(s, l))
  {
    var pl := s.plugins[l.p];
    assert PluginFits(s, l.p);
    match l
    case Stop(p) => StopKeeps(pl); QuietStepKeeps(s, p, pl.(stop := true));
    case Release(p) => ReleaseKeeps(pl); QuietStepKeeps(s, p, AfterRelease(pl));
  }

  lemma StepKeeps(s: State, l: Label)
    requires Inv(s) && Enabled(s, l)
    ensures Inv(Next(s, l))
  {
    match l
    case Arrive(a, memory) => ArriveKeeps(s, a, memory);
    case Enqueue => EnqueueStepKeeps(s);
    case Process(p) => ProcessStepKeeps(s, p);
    case EndLoop => EndLoopKeeps(s);
    case Stop(_) => ShutdownStepKeeps(s, l);
    case Release(_) => ShutdownStepKeeps(s, l);
    case _ => WorkerStepKeeps(s, l);
  }

  lemma EndLoopKeeps(s: State)
    requires Inv(s) && Enabled(s, EndLoop)
    ensures Inv(Next(s, EndLoop))
  {
    var t := Next(s, EndLoop);
    forall p | 0 <= p < |t.plugins|
      ensures PluginFits(t, p)
    {
      assert PluginFits(s, p);
    }
    RepliesUnchanged(s, t);
  }

  lemma {:induction false} RunKeeps(n: nat, run: seq<Label>)
    ensures var r := Reached(n, run);
            r.Some? ==> Inv(r.value) && |r.value.plugins| == n
    decreases |run|
  {
    if run == [] {
      InitialInv(n);
    } else {
      var before := Reached(n, run[..|run| - 1]);
      RunKeeps(n, run[..|run| - 1]);
      if before.Some? && Enabled(before.value, run[|run| - 1]) {
        StepKeeps(before.value, run[|run| - 1]);
      }
    }
  }

  /** Every state of every run satisfies the invariant. */
  lemma ReachableInv(n: nat, s: State)
    requires Reachable(n, s)
    ensures Inv(s) && |s.plugins| == n
  {
    var run :| Reached(n, run) == Some(s);
    RunKeeps(n, run);
  }
}
