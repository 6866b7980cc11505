/** What holds in every state of every run of the server. */
module ServerResults {
  import opened Wrappers
  import opened Server
  import opened ServerInvariant

  // ---------- replies ----------

  /** A message is answered at most once.  A rejected header or a status request is answered
      at once; a refused request exactly if it is synchronous; a queued one exactly if it is
      synchronous and has been processed. */
  lemma OneReply(n: nat, s: State, i: nat)
    requires Reachable(n, s)
    ensures i >= |s.verdicts| ==> s.replies[i] == 0
    ensures i < |s.verdicts| ==>
              match s.verdicts[i]
              case BadHeader(_) => s.replies[i] == 1
              case Answered(_) => s.replies[i] == 1
              case Refused(sync, _) => s.replies[i] == if sync then 1 else 0
              case Taken(sync, p) =>
                p < |s.plugins| && s.replies[i] == if sync && Entry(i, sync) in s.plugins[p].processed then 1 else 0
  {
    ReachableInv(n, s);
    assert s.replies[i] == Due(s, i);
  }

  // ---------- conservation ----------

  // How many times entry x of plugin p is to be found anywhere.
  function Places(s: State, p: nat, x: Entry): nat
    requires p < |s.plugins|
  {
    var pl := s.plugins[p];
    multiset(InHand(s.net, p))[x] + multiset(pl.queue)[x] + Held(pl.worker)[x]
    + multiset(pl.freed)[x] + multiset(pl.discarded)[x]
  }

  lemma MultisetOfSum(xs: seq<Entry>, ys: seq<Entry>, x: Entry)
    ensures multiset(xs + ys)[x] == multiset(xs)[x] + multiset(ys)[x]
  {
  }

  /** Each request taken for a plugin is in exactly one place, once: still with the network
      thread, queued, with the worker, freed after processing, or freed by queue_free.
      Nothing else is anywhere. */
  lemma EachInOnePlace(n: nat, s: State, p: nat, x: Entry)
    requires Reachable(n, s) && p < |s.plugins|
    ensures Places(s, p, x) == if x.serial < |s.verdicts| && s.verdicts[x.serial] == Taken(x.sync, p) then 1 else 0
  {
    ReachableInv(n, s);
    assert PluginFits(s, p);
    PlacesOfTaken(s, p, x);
    TakenOnce(s.verdicts, p, x);
  }

  lemma PlacesOfTaken(s: State, p: nat, x: Entry)
    requires p < |s.plugins| && Conserved(s.plugins[p])
    requires s.plugins[p].enqueued + InHand(s.net, p) == TakenFor(s.verdicts, p)
    ensures Places(s, p, x) == multiset(TakenFor(s.verdicts, p))[x]
  {
    MultisetOfSum(s.plugins[p].enqueued, InHand(s.net, p), x);
  }

  lemma TakenOnce(vs: seq<Verdict>, p: nat, x: Entry)
    ensures multiset(TakenFor(vs, p))[x] == if x.serial < |vs| && vs[x.serial] == Taken(x.sync, p) then 1 else 0
  {
    var all := TakenFor(vs, p);
    TakenForEntry(vs, p, x);
    RisingTaken(vs, p);
    RisingOnce(all, x);
    InMultiset(all, x);
  }

  /** No request is processed twice, and what has been processed is never discarded. */
  lemma ProcessedOnce(n: nat, s: State, p: nat, x: Entry)
    requires Reachable(n, s) && p < |s.plugins|
    ensures multiset(s.plugins[p].processed)[x] <= 1
    ensures x in s.plugins[p].processed ==> x !in s.plugins[p].queue && x !in s.plugins[p].discarded
  {
    ReachableInv(n, s);
    assert PluginFits(s, p);
    var pl := s.plugins[p];
    RisingOnce(pl.enqueued, x);
    MultisetOfSum(pl.freed, Done(pl.worker), x);
    if x in pl.processed {
      ProcessedWasEnqueued(pl, x);
    }
  }

  // ---------- shutdown ----------

  lemma SplitMultiset(xs: seq<Entry>, k: nat)
    requires k <= |xs|
    ensures multiset(xs) == multiset(xs[..k]) + multiset(xs[k..])
  {
    assert xs == xs[..k] + xs[k..];
  }

  lemma Cancel(a: multiset<Entry>, b: multiset<Entry>, c: multiset<Entry>, d: multiset<Entry>)
    requires a + c == b + d && c == d
    ensures a == b
  {
    assert (a + c) - c == a && (b + d) - d == b;
  }

  /** When a plugin has been shut down, exactly what was enqueued before its worker last found
      the queue empty has been processed, and exactly what came after that was discarded. */
  lemma ShutdownSplitsAtLastEmpty(n: nat, s: State, p: nat)
    requires Reachable(n, s) && p < |s.plugins| && s.plugins[p].released
    ensures var pl := s.plugins[p];
            && pl.lastEmpty <= |pl.enqueued|
            && multiset(pl.processed) == multiset(pl.freed) == multiset(pl.enqueued[..pl.lastEmpty])
            && multiset(pl.discarded) == multiset(pl.enqueued[pl.lastEmpty..])
  {
    ReachableInv(n, s);
    assert PluginFits(s, p);
    var pl := s.plugins[p];
    SplitMultiset(pl.enqueued, pl.lastEmpty);
    var early, late := multiset(pl.enqueued[..pl.lastEmpty]), multiset(pl.enqueued[pl.lastEmpty..]);
    assert multiset(pl.queue) == multiset{};
    Cancel(early, multiset(pl.freed), late, multiset(pl.discarded));
  }

  lemma DiscardedExactly(n: nat, s: State, i: nat, p: nat)
    requires Reachable(n, s) && p < |s.plugins| && s.plugins[p].released
    requires i < |s.verdicts| && s.verdicts[i] == Taken(true, p)
    ensures s.replies[i] == 0 <==> Entry(i, true) in s.plugins[p].discarded
  {
    OneReply(n, s, i);
    ReachableInv(n, s);
    var x, pl := Entry(i, true), s.plugins[p];
    assert PluginFits(s, p);
    assert InHand(s.net, p) == [];
    EachInOnePlace(n, s, p, x);
    InMultiset(pl.freed, x);
    InMultiset(pl.discarded, x);
    assert pl.processed == pl.freed;
  }

  /** Once its plugin has been shut down a synchronous request is without a reply exactly if it
      was enqueued after the worker last found the queue empty. */
  lemma UnansweredExactly(n: nat, s: State, i: nat, p: nat)
    requires Reachable(n, s) && p < |s.plugins| && s.plugins[p].released
    requires i < |s.verdicts| && s.verdicts[i] == Taken(true, p)
    ensures var pl := s.plugins[p];
            s.replies[i] == 0 <==> exists k :: pl.lastEmpty <= k < |pl.enqueued| && pl.enqueued[k] == Entry(i, true)
  {
    DiscardedExactly(n, s, i, p);
    ShutdownSplitsAtLastEmpty(n, s, p);
    var pl, x := s.plugins[p], Entry(i, true);
    InMultiset(pl.discarded, x);
    InMultiset(pl.enqueued[pl.lastEmpty..], x);
  }

  // ---------- the bound on a queue ----------

  /** Whatever happens between the unlocked busy test and the put, no queue ever exceeds the
      first multiple of 100 above MAX_QUEUE_ENTRY. */
  lemma QueueBounded(n: nat, s: State, p: nat)
    requires Reachable(n, s) && p < |s.plugins|
    ensures |s.plugins[p].queue| <= QUEUE_LIMIT
  {
    ReachableInv(n, s);
    assert PluginFits(s, p);
  }

  lemma LimitIsFirstBusySize(k: nat)
    ensures TestsBusy(QUEUE_LIMIT)
    ensures TestsBusy(k) ==> QUEUE_LIMIT <= k
  {
  }

  predicate Filled(s: State, size: nat) {
    s.looping && s.net.Idle? && |s.plugins| == 1 && |s.plugins[0].queue| == size
  }

  lemma AcceptOne(s: State, size: nat)
    requires Filled(s, size) && size < QUEUE_LIMIT
    ensures var l := Arrive(Event(false, ForPlugin(0)), true);
            Enabled(s, l) && Next(s, l).net == Holding(Entry(|s.verdicts|, false), 0)
            && Next(s, l).looping && Next(s, l).plugins == s.plugins
  {
    assert !TestsBusy(size);
  }

  lemma FillOne(run: seq<Label>, s: State, size: nat) returns (longer: seq<Label>, t: State)
    requires Reached(1, run) == Some(s) && Filled(s, size) && size < QUEUE_LIMIT
    ensures Reached(1, longer) == Some(t) && Filled(t, size + 1)
  {
    var arrive := Arrive(Event(false, ForPlugin(0)), true);
    AcceptOne(s, size);
    longer := Extend(1, run, s, arrive);
    t := Next(s, arrive);
    longer := Extend(1, longer, t, Enqueue);
    t := Next(t, Enqueue);
  }

  lemma {:induction false} Fill(size: nat) returns (run: seq<Label>, s: State)
    requires size <= QUEUE_LIMIT
    ensures Reached(1, run) == Some(s) && Filled(s, size)
    decreases size
  {
    if size == 0 {
      run, s := [], Initial(1);
    } else {
      run, s := Fill(size - 1);
      run, s := FillOne(run, s, size - 1);
    }
  }

  /** The bound is attained, and every length below it occurs. */
  lemma QueueBoundAttained(size: nat)
    ensures (exists s :: Reachable(1, s) && |s.plugins| == 1 && |s.plugins[0].queue| == size) <==> size <= QUEUE_LIMIT
  {
    if size <= QUEUE_LIMIT {
      var run, s := Fill(size);
      assert Reachable(1, s);
    }
    forall s | Reachable(1, s) && |s.plugins| == 1 && |s.plugins[0].queue| == size
      ensures size <= QUEUE_LIMIT
    {
      QueueBounded(1, s, 0);
    }
  }

  // ---------- a request lost to the shutdown ----------

  /** The worker's queue_get and its stop test are separate steps, so a synchronous request
      can be queued between them and never be answered. */
  lemma LostRequest()
    ensures exists s :: Reachable(1, s) && |s.plugins| == 1 && s.plugins[0].released
                        && s.verdicts == [Taken(true, 0)] && s.replies[0] == 0
  {
    var run, s := [], Initial(1);
    run := Extend(1, run, s, Get(0));
    s := Next(s, Get(0));
    var arrive := Arrive(Event(true, ForPlugin(0)), true);
    run := Extend(1, run, s, arrive);
    s := Next(s, arrive);
    run := Extend(1, run, s, Enqueue);
    s := Next(s, Enqueue);
    run := Extend(1, run, s, EndLoop);
    s := Next(s, EndLoop);
    run := Extend(1, run, s, Stop(0));
    s := Next(s, Stop(0));
    run := Extend(1, run, s, TestStop(0));
    s := Next(s, TestStop(0));
    run := Extend(1, run, s, Release(0));
    s := Next(s, Release(0));
    assert Reachable(1, s);
  }

  // ---------- order ----------

  /** The worker's next request is the newest waiting synchronous one or, when there is none,
      the oldest waiting asynchronous one. */
  lemma NextTaken(n: nat, s: State, p: nat, x: Entry)
    requires Reachable(n, s) && p < |s.plugins| && x in s.plugins[p].queue
    ensures var e := s.plugins[p].queue[0];
            if e.sync then x.sync ==> x.serial <= e.serial else !x.sync && e.serial <= x.serial
  {
    ReachableInv(n, s);
    assert PluginFits(s, p);
    var q := s.plugins[p].queue;
    var i :| 0 <= i < |q| && q[i] == x;
    if i > 0 {
      assert Ahead(q[0], q[i]);
    }
  }

  lemma SameFirst(q: seq<Entry>, r: seq<Entry>)
    requires InOrder(q) && InOrder(r) && q != [] && r != []
    requires q[0] in r && r[0] in q
    ensures q[0] == r[0]
  {
    var i :| 0 <= i < |r| && r[i] == q[0];
    var j :| 0 <= j < |q| && q[j] == r[0];
    assert i > 0 ==> Ahead(r[0], r[i]);
    assert j > 0 ==> Ahead(q[0], q[j]);
  }

  lemma RestOfOrder(q: seq<Entry>)
    requires InOrder(q) && q != []
    ensures InOrder(q[1..]) && multiset(q[1..]) == multiset(q) - multiset{q[0]}
  {
    assert q == [q[0]] + q[1..];
  }

  lemma InEither(q: seq<Entry>, r: seq<Entry>)
    requires multiset(q) == multiset(r)
    ensures |q| == |r|
    ensures forall x :: x in q <==> x in r
  {
    assert |q| == |multiset(q)| && |r| == |multiset(r)|;
    assert forall x :: x in q <==> x in multiset(q);
    assert forall x :: x in r <==> x in multiset(r);
  }

  /** The order leaves nothing open: two queues of the same entries in order are the same. */
  lemma {:induction false} OrderDetermines(q: seq<Entry>, r: seq<Entry>)
    requires InOrder(q) && InOrder(r) && multiset(q) == multiset(r)
    ensures q == r
    decreases |q|
  {
    InEither(q, r);
    if q != [] {
      SameFirst(q, r);
      RestOfOrder(q);
      RestOfOrder(r);
      OrderDetermines(q[1..], r[1..]);
      assert q == [q[0]] + q[1..] && r == [r[0]] + r[1..];
    }
  }

  // ---------- counters ----------

  predicate IsAnswered(v: Verdict) { v.Answered? }
  predicate IsNoMemory(v: Verdict) { v.Refused? && v.reason == NoMemory }
  predicate IsTaken(v: Verdict) { v.Taken? }

  lemma {:induction false} VerdictsPartition(vs: seq<Verdict>)
    ensures |vs| == Count(vs, IsMismatch) + Count(vs, IsBroken) + Count(vs, IsUnknown) + Count(vs, IsBusy)
                    + Count(vs, IsAnswered) + Count(vs, IsNoMemory) + Count(vs, IsTaken)
    decreases |vs|
  {
    if vs != [] {
      VerdictsPartition(vs[..|vs| - 1]);
    }
  }

  function TakenBelow(vs: seq<Verdict>, p: nat): nat {
    if p == 0 then 0 else TakenBelow(vs, p - 1) + |TakenFor(vs, p - 1)|
  }

  lemma {:induction false} TakenBelowOneMore(vs: seq<Verdict>, v: Verdict, p: nat)
    ensures TakenBelow(vs + [v], p) == TakenBelow(vs, p) + if v.Taken? && v.p < p then 1 else 0
    decreases p
  {
    if p > 0 {
      TakenBelowOneMore(vs, v, p - 1);
      TakenOneMore(vs, v, p - 1);
    }
  }

  lemma {:induction false} TakenBelowNothing(p: nat)
    ensures TakenBelow([], p) == 0
    decreases p
  {
    if p > 0 {
      TakenBelowNothing(p - 1);
    }
  }

  lemma {:induction false} TakenPerPlugin(vs: seq<Verdict>, n: nat)
    requires forall i :: 0 <= i < |vs| && vs[i].Taken? ==> vs[i].p < n
    ensures Count(vs, IsTaken) == TakenBelow(vs, n)
    decreases |vs|
  {
    if vs == [] {
      TakenBelowNothing(n);
    } else {
      var k := |vs| - 1;
      assert vs == vs[..k] + [vs[k]];
      TakenPerPlugin(vs[..k], n);
      TakenBelowOneMore(vs[..k], vs[k], n);
    }
  }

  function EnqueuedBelow(s: State, p: nat): nat
    requires p <= |s.plugins|
  {
    if p == 0 then 0 else EnqueuedBelow(s, p - 1) + |s.plugins[p - 1].enqueued|
  }

  lemma {:induction false} EnqueuedAndInHand(s: State, p: nat)
    requires Inv(s) && p <= |s.plugins|
    ensures TakenBelow(s.verdicts, p) == EnqueuedBelow(s, p) + if s.net.Holding? && s.net.p < p then 1 else 0
    decreases p
  {
    if p > 0 {
      EnqueuedAndInHand(s, p - 1);
      TakenOfOne(s, p - 1);
    }
  }

  lemma TakenOfOne(s: State, p: nat)
    requires Inv(s) && p < |s.plugins|
    ensures |TakenFor(s.verdicts, p)| == |s.plugins[p].enqueued| + if s.net.Holding? && s.net.p == p then 1 else 0
  {
    assert PluginFits(s, p);
  }

  /** The message counter is the sum of the ways a message can end: four counted by the
      server itself, status answers, allocation failures, what has been enqueued, and the
      one request the network thread may be holding. */
  lemma CountersAddUp(n: nat, s: State)
    requires Reachable(n, s)
    ensures |s.plugins| == n
    ensures s.stats.msgTcp == s.stats.versionMismatch + s.stats.brokenReq + s.stats.unkReq + s.stats.proBusy
                              + Count(s.verdicts, IsAnswered) + Count(s.verdicts, IsNoMemory)
                              + EnqueuedBelow(s, n) + if s.net.Holding? then 1 else 0
  {
    ReachableInv(n, s);
    VerdictsPartition(s.verdicts);
    TakenPerPlugin(s.verdicts, n);
    EnqueuedAndInHand(s, n);
  }
}
