/** The daemon as a whole: one dispatcher, a real queue and a worker for each plugin
    (event/daemon/mevent.c), taken through any run of steps its threads can make. */
module Daemon {
  import opened Wrappers
  import opened Bytes
  import opened Server
  import opened ServerInvariant
  import opened Requests
  import opened LinkedQueue
  import opened Dispatch

  // A step of some thread, with what the outside brings to it.
  datatype Turn =
    | Receive(m: Message, memory: bool, pack: Packing)
    | PutInQueue
    | TakeJob(p: nat)
    | RunDriver(p: nat, ret: Code, pack: Packing)
    | FreeAll(p: nat)
    | Move(l: Label)

  function LabelOf(c: Config, t: Turn): Label {
    match t
    case Receive(m, memory, _) => Arrive(Classify(c, m), memory)
    case PutInQueue => Enqueue
    case TakeJob(p) => Get(p)
    case RunDriver(p, _, _) => Process(p)
    case FreeAll(p) => Release(p)
    case Move(l) => l
  }

  predicate CanTurn(c: Config, s: State, t: Turn) {
    Enabled(s, LabelOf(c, t)) && (t.Move? ==> Quiet(t.l))
  }

  // Every turn is possible when it comes.
  predicate CanRun(c: Config, s: State, ts: seq<Turn>)
    decreases |ts|
  {
    ts == [] || (CanTurn(c, s, ts[0]) && CanRun(c, Next(s, LabelOf(c, ts[0])), ts[1..]))
  }

  function AfterRun(c: Config, s: State, ts: seq<Turn>): State
    requires CanRun(c, s, ts)
    decreases |ts|
  {
    if ts == [] then s else AfterRun(c, Next(s, LabelOf(c, ts[0])), ts[1..])
  }

  function MessagesOf(ts: seq<Turn>): seq<Message> {
    if ts == [] then [] else (if ts[0].Receive? then [ts[0].m] else []) + MessagesOf(ts[1..])
  }

  lemma NextTurn(ts: seq<Turn>, i: nat, received: seq<Message>)
    requires i < |ts|
    ensures ts[i..][0] == ts[i] && ts[i..][1..] == ts[i + 1..]
    ensures received + MessagesOf(ts[i..]) == received + MessagesOf([ts[i]]) + MessagesOf(ts[i + 1..])
  {
    assert ts[i..][1..] == ts[i + 1..];
    assert [ts[i]][1..] == [];
    assert MessagesOf([ts[i]]) == if ts[i].Receive? then [ts[i].m] else [];
  }

  // ---------- what the threads hold ----------

  // What a worker was given is the job it works on.
  predicate WorkerRight(c: Config, received: seq<Message>, job: Option<Job>, w: Worker) {
    w.Working? ==> job.Some? && job.value.entry == w.e && RightId(c, received, job.value)
  }

  // The jobs in the queues, in the network thread's hand and with the workers are those of the
  // server's state.
  ghost predicate Fit(c: Config, received: seq<Message>, s: State, jobs: seq<seq<Job>>, inHand: Option<(nat, Job)>,
                      working: seq<Option<Job>>)
  {
    && |jobs| == |working| == |s.plugins|
    && (forall p :: 0 <= p < |jobs| ==> Queued(c, received, jobs[p], s, p))
    && InHandRight(c, received, inHand, s.net)
    && (forall p :: 0 <= p < |working| ==> WorkerRight(c, received, working[p], s.plugins[p].worker))
  }

  lemma FitInitially(c: Config, n: nat, jobs: seq<seq<Job>>, working: seq<Option<Job>>)
    requires |jobs| == |working| == n && forall p :: 0 <= p < n ==> jobs[p] == []
    ensures Fit(c, [], Initial(n), jobs, None, working)
  {
  }

  lemma FitReceive(c: Config, received: seq<Message>, s: State, jobs: seq<seq<Job>>, inHand: Option<(nat, Job)>,
                   working: seq<Option<Job>>, m: Message, t: State, taken: Option<(nat, Job)>)
    requires Fit(c, received, s, jobs, inHand, working) && t.plugins == s.plugins
    requires InHandRight(c, received + [m], taken, t.net)
    ensures Fit(c, received + [m], t, jobs, taken, working)
  {
    forall p | 0 <= p < |jobs|
      ensures Queued(c, received + [m], jobs[p], t, p)
    {
      StillQueued(c, s, t, p, received, received + [m], jobs[p]);
    }
    forall p | 0 <= p < |working|
      ensures WorkerRight(c, received + [m], working[p], t.plugins[p].worker)
    {
      assert WorkerRight(c, received, working[p], s.plugins[p].worker);
    }
  }

  lemma ArriveKeepsPlugins(s: State, a: Arrival, memory: bool)
    requires Enabled(s, Arrive(a, memory))
    ensures Next(s, Arrive(a, memory)).plugins == s.plugins
  {
  }

  // A step that changes plugin p's queue to js and leaves its worker with job.
  lemma FitAt(c: Config, received: seq<Message>, s: State, jobs: seq<seq<Job>>, inHand: Option<(nat, Job)>,
              working: seq<Option<Job>>, l: Label, p: nat, js: seq<Job>, job: Option<Job>, hand: Option<(nat, Job)>)
    requires Fit(c, received, s, jobs, inHand, working) && Enabled(s, l) && p < |jobs|
    requires l == Get(p) || l == Release(p) || l == Process(p) || (l == Enqueue && s.net.p == p)
    requires Queued(c, received, js, Next(s, l), p) && InHandRight(c, received, hand, Next(s, l).net)
    requires WorkerRight(c, received, job, Next(s, l).plugins[p].worker)
    ensures Fit(c, received, Next(s, l), jobs[p := js], hand, working[p := job])
  {
    var t, after := Next(s, l), jobs[p := js];
    forall i | 0 <= i < |jobs|
      ensures Queued(c, received, after[i], t, i)
    {
      if i != p {
        QueueElsewhere(s, l, i);
        StillQueued(c, s, t, i, received, received, jobs[i]);
      }
    }
  }

  lemma FitQuiet(c: Config, received: seq<Message>, s: State, jobs: seq<seq<Job>>, inHand: Option<(nat, Job)>,
                 working: seq<Option<Job>>, l: Label)
    requires Fit(c, received, s, jobs, inHand, working) && Enabled(s, l) && Quiet(l)
    ensures Fit(c, received, Next(s, l), jobs, inHand, working)
  {
    var t := Next(s, l);
    forall i | 0 <= i < |jobs|
      ensures Queued(c, received, jobs[i], t, i)
    {
      QueueElsewhere(s, l, i);
      StillQueued(c, s, t, i, received, received, jobs[i]);
    }
  }

  // ---------- the threads and their queues ----------

  method NewQueues(n: nat) returns (qs: seq<Queue<Job>>)
    ensures |qs| == n
    ensures forall p :: 0 <= p < n ==> fresh(qs[p]) && qs[p].Valid() && qs[p].Entries == []
    ensures forall p, i :: 0 <= p < i < n ==> qs[p] != qs[i]
  {
    qs := [];
    for k := 0 to n
      invariant |qs| == k
      invariant forall p :: 0 <= p < k ==> fresh(qs[p]) && qs[p].Valid() && qs[p].Entries == []
      invariant forall p, i :: 0 <= p < i < k ==> qs[p] != qs[i]
    {
      var q := new Queue<Job>();
      qs := qs + [q];
    }
  }

  class Threads {
    const dispatcher: Dispatcher
    const queues: seq<Queue<Job>>
    // What the network thread is about to put in a queue.
    var inHand: Option<(nat, Job)>
    // What each worker last took.
    var working: seq<Option<Job>>
    // What is in the queues, and all their entries.
    ghost var Jobs: seq<seq<Job>>
    ghost var Linked: set<QueueEntry<Job>>

    ghost predicate Apart()
      reads queues
    {
      && (forall p, i :: 0 <= p < i < |queues| ==> queues[p] != queues[i])
      && (forall p, x, i, j ::
            0 <= p < x < |queues| && 0 <= i < |queues[p].Entries| && 0 <= j < |queues[x].Entries| ==>
              queues[p].Entries[i] != queues[x].Entries[j])
    }

    ghost predicate Holds(p: nat, js: seq<Job>)
      requires p < |queues|
      reads this`Linked, queues, Linked
    {
      && (forall i :: 0 <= i < |queues[p].Entries| ==> queues[p].Entries[i] in Linked)
      && queues[p].Valid()
      && queues[p].Contents() == js
    }

    ghost predicate Linking(jobs: seq<seq<Job>>)
      reads this`Linked, queues, Linked
    {
      |queues| == |jobs| && Apart() && forall p :: 0 <= p < |queues| ==> Holds(p, jobs[p])
    }

    ghost predicate Fitting()
      reads this, dispatcher
    {
      dispatcher.Valid() && Fit(dispatcher.config, dispatcher.received, dispatcher.model, Jobs, inHand, working)
    }

    ghost predicate Valid()
      reads this, dispatcher, queues, Linked
    {
      Linking(Jobs) && Fitting()
    }

    lemma LinkingInitially()
      requires |queues| == |Jobs| && (forall p, i :: 0 <= p < i < |queues| ==> queues[p] != queues[i])
      requires forall p :: 0 <= p < |queues| ==> queues[p].Entries == [] && queues[p].Valid() && Jobs[p] == []
      ensures Linking(Jobs)
    {
    }

    constructor (config: Config, plugins: nat)
      ensures Valid() && fresh(dispatcher) && (forall p :: 0 <= p < |queues| ==> fresh(queues[p])) && Linked == {}
      ensures dispatcher.config == config && dispatcher.model == Initial(plugins) && dispatcher.received == []
    {
      var qs := NewQueues(plugins);
      dispatcher := new Dispatcher(config, plugins);
      queues := qs;
      inHand, working := None, seq(plugins, _ => None);
      Jobs, Linked := seq(plugins, _ => []), {};
      new;
      FitInitially(config, plugins, Jobs, working);
      LinkingInitially();
    }

    // ---------- the queues ----------

    // What is in plugin p's queue was there before or was in no queue.
    twostate predicate OldOrNew(p: nat)
      requires p < |queues|
      reads this, queues
    {
      forall i :: 0 <= i < |queues[p].Entries| ==>
        queues[p].Entries[i] in old(queues[p].Entries) || queues[p].Entries[i] !in old(Linked)
    }

    // A step that changed plugin p's queue only.
    twostate lemma LinkingAfter(p: nat, new jobs: seq<seq<Job>>, new js: seq<Job>)
      requires old(Linking(jobs)) && p < |queues| && old(Linked) <= Linked
      requires forall i :: 0 <= i < |queues| && i != p ==> unchanged(queues[i]) && unchanged(queues[i].Entries)
      requires OldOrNew(p) && Holds(p, js)
      ensures Linking(jobs[p := js])
    {
      forall x, y, i, j | 0 <= x < y < |queues| && 0 <= i < |queues[x].Entries| && 0 <= j < |queues[y].Entries|
        ensures queues[x].Entries[i] != queues[y].Entries[j]
      {
        assert old(Holds(x, jobs[x])) && old(Holds(y, jobs[y]));
      }
      forall i | 0 <= i < |queues| && i != p
        ensures Holds(i, jobs[i])
      {
        assert old(Holds(i, jobs[i]));
      }
    }

    twostate lemma OldAfterGet(p: nat)
      requires p < |queues|
      requires queues[p].Entries == if old(queues[p].Entries) == [] then [] else old(queues[p].Entries)[1..]
      ensures OldOrNew(p)
    {
    }

    twostate lemma OldAfterPut(p: nat, new e: QueueEntry<Job>)
      requires p < |queues| && e !in old(Linked)
      requires queues[p].Entries == [e] + old(queues[p].Entries) || queues[p].Entries == old(queues[p].Entries) + [e]
      ensures OldOrNew(p)
    {
    }

    // The end of put_in_queue_long, on plugin p's queue.
    method InsertAt(p: nat, job: Job, ghost jobs: seq<seq<Job>>)
      requires Linking(jobs) && p < |queues|
      modifies this`Linked, queues[p], queues[p].Entries
      ensures Linking(jobs[p := Joined(jobs[p], job)]) && fresh(Linked - old(Linked))
    {
      assert Holds(p, jobs[p]);
      var e := new QueueEntry(job);
      Linked := Linked + {e};
      PutOrCas(queues[p], e);
      OldAfterPut(p, e);
      LinkingAfter(p, jobs, Joined(jobs[p], job));
    }

    // queue_get on plugin p's queue.
    method TakeAt(p: nat, ghost jobs: seq<seq<Job>>) returns (job: Option<Job>)
      requires Linking(jobs) && p < |queues|
      modifies queues[p]
      ensures Linking(jobs[p := Others(jobs[p])]) && job == First(jobs[p])
    {
      assert Holds(p, jobs[p]);
      job := GetLocked(queues[p]);
      OldAfterGet(p);
      LinkingAfter(p, jobs, Others(jobs[p]));
    }

    // queue_free on plugin p's queue.
    method DrainAt(p: nat, ghost jobs: seq<seq<Job>>)
      requires Linking(jobs) && p < |queues|
      modifies queues[p]
      ensures Linking(jobs[p := []])
    {
      assert Holds(p, jobs[p]);
      var _ := queues[p].Drain();
      LinkingAfter(p, jobs, []);
    }

    // ---------- turns ----------

    method SizeFor(m: Message) returns (size: nat)
      requires Valid()
      ensures var a := Classify(dispatcher.config, m);
              a.Event? && a.body.ForPlugin? && a.body.p < |queues| ==> size == |dispatcher.model.plugins[a.body.p].queue|
    {
      var a := Classify(dispatcher.config, m);
      size := 0;
      if a.Event? && a.body.ForPlugin? && a.body.p < |queues| {
        assert Holds(a.body.p, Jobs[a.body.p]);
        size := queues[a.body.p].size;
      }
    }

    // A message is judged; size is what the unlocked read of its plugin's queue size gave.
    method Judged(m: Message, size: nat, memory: bool, pack: Packing)
      requires Fitting()
      requires var a := Classify(dispatcher.config, m);
               && Enabled(dispatcher.model, Arrive(a, memory))
               && (a.Event? && a.body.ForPlugin? ==> size == |dispatcher.model.plugins[a.body.p].queue|)
      modifies this`inHand, dispatcher
      ensures Fitting() && dispatcher.received == old(dispatcher.received) + [m]
      ensures dispatcher.model == Next(old(dispatcher.model), Arrive(Classify(dispatcher.config, m), memory))
    {
      ghost var s, before, hand := dispatcher.model, dispatcher.received, inHand;
      var _, taken := dispatcher.ParseMessage(m, size, memory, pack);
      inHand := taken;
      ArriveKeepsPlugins(s, Classify(dispatcher.config, m), memory);
      FitReceive(dispatcher.config, before, s, Jobs, hand, working, m, dispatcher.model, taken);
    }

    method Hear(m: Message, memory: bool, pack: Packing)
      requires Valid() && Enabled(dispatcher.model, Arrive(Classify(dispatcher.config, m), memory))
      modifies this`inHand, dispatcher
      ensures Valid() && dispatcher.received == old(dispatcher.received) + [m]
      ensures dispatcher.model == Next(old(dispatcher.model), Arrive(Classify(dispatcher.config, m), memory))
    {
      var size := SizeFor(m);
      Judged(m, size, memory, pack);
    }

    // The network thread lets go of the job.
    method LetGo(p: nat, job: Job)
      requires Fitting() && inHand == Some((p, job)) && Enabled(dispatcher.model, Enqueue)
      modifies this`inHand, this`Jobs, dispatcher`model
      ensures Fitting() && dispatcher.model == Next(old(dispatcher.model), Enqueue)
      ensures Jobs == old(Jobs)[p := Joined(old(Jobs)[p], job)]
    {
      ghost var s, jobs := dispatcher.model, Jobs;
      dispatcher.Enqueued(jobs[p], p, job);
      FitAt(dispatcher.config, dispatcher.received, s, jobs, inHand, working, Enqueue, p, Joined(jobs[p], job), working[p], None);
      inHand := None;
      Jobs := jobs[p := Joined(jobs[p], job)];
    }

    method Insert()
      requires Valid() && Enabled(dispatcher.model, Enqueue)
      modifies this`inHand, this`Jobs, this`Linked, dispatcher`model, queues, Linked
      ensures Valid() && fresh(Linked - old(Linked)) && dispatcher.model == Next(old(dispatcher.model), Enqueue)
    {
      var (p, job) := inHand.value;
      ghost var jobs := Jobs;
      assert Holds(p, jobs[p]);
      LetGo(p, job);
      InsertAt(p, job, jobs);
    }

    // The worker of plugin p gets the job that TakeAt takes from its queue.
    method Begin(p: nat, job: Option<Job>)
      requires Fitting() && Enabled(dispatcher.model, Get(p)) && job == First(Jobs[p])
      modifies this`working, this`Jobs, dispatcher`model
      ensures Fitting() && dispatcher.model == Next(old(dispatcher.model), Get(p))
      ensures Jobs == old(Jobs)[p := Others(old(Jobs)[p])]
    {
      ghost var s, jobs, before := dispatcher.model, Jobs, working;
      dispatcher.Got(jobs[p], p);
      FitAt(dispatcher.config, dispatcher.received, s, jobs, inHand, before, Get(p), p, Others(jobs[p]), job, inHand);
      working := working[p := job];
      Jobs := jobs[p := Others(jobs[p])];
    }

    method Take(p: nat)
      requires Valid() && Enabled(dispatcher.model, Get(p))
      modifies this`working, this`Jobs, dispatcher`model, queues
      ensures Valid() && dispatcher.model == Next(old(dispatcher.model), Get(p))
    {
      ghost var jobs := Jobs;
      var job := TakeAt(p, jobs);
      Begin(p, job);
    }

    method Drive(p: nat, ret: Code, pack: Packing)
      requires Valid() && Enabled(dispatcher.model, Process(p))
      modifies dispatcher`replies, dispatcher`model
      ensures Valid() && dispatcher.model == Next(old(dispatcher.model), Process(p))
    {
      ghost var s := dispatcher.model;
      dispatcher.ProcessDriver(p, working[p].value, ret, pack);
      FitAt(dispatcher.config, dispatcher.received, s, Jobs, inHand, working, Process(p), p, Jobs[p], working[p], inHand);
      assert Jobs[p := Jobs[p]] == Jobs && working[p := working[p]] == working;
    }

    ghost method Forget(p: nat)
      requires Fitting() && Enabled(dispatcher.model, Release(p))
      modifies this`Jobs, dispatcher`model
      ensures Fitting() && dispatcher.model == Next(old(dispatcher.model), Release(p))
      ensures Jobs == old(Jobs)[p := []]
    {
      ghost var s, jobs := dispatcher.model, Jobs;
      dispatcher.Released(p);
      FitAt(dispatcher.config, dispatcher.received, s, jobs, inHand, working, Release(p), p, [], working[p], inHand);
      assert working[p := working[p]] == working;
      Jobs := jobs[p := []];
    }

    method Discard(p: nat)
      requires Valid() && Enabled(dispatcher.model, Release(p))
      modifies this`Jobs, dispatcher`model, queues
      ensures Valid() && dispatcher.model == Next(old(dispatcher.model), Release(p))
    {
      ghost var jobs := Jobs;
      DrainAt(p, jobs);
      Forget(p);
    }

    ghost method MoveOn(l: Label)
      requires Valid() && Enabled(dispatcher.model, l) && Quiet(l)
      modifies dispatcher`model
      ensures Valid() && dispatcher.model == Next(old(dispatcher.model), l)
    {
      ghost var s := dispatcher.model;
      dispatcher.Pass(l);
      FitQuiet(dispatcher.config, dispatcher.received, s, Jobs, inHand, working, l);
    }

    method Step(t: Turn)
      requires Valid() && CanTurn(dispatcher.config, dispatcher.model, t)
      modifies this, dispatcher, queues, Linked
      ensures Valid() && fresh(Linked - old(Linked))
      ensures dispatcher.model == Next(old(dispatcher.model), LabelOf(dispatcher.config, t))
      ensures dispatcher.received == old(dispatcher.received) + MessagesOf([t])
    {
      match t
      case Receive(m, memory, pack) => Hear(m, memory, pack);
      case PutInQueue => Insert();
      case TakeJob(p) => Take(p);
      case RunDriver(p, ret, pack) => Drive(p, ret, pack);
      case FreeAll(p) => Discard(p);
      case Move(l) => MoveOn(l);
    }

    /** Whatever steps the threads take, in whatever order they can be taken, the queues, workers,
        counters and replies go through the run of the server that these steps are. */
    method Run(ts: seq<Turn>)
      requires Valid() && CanRun(dispatcher.config, dispatcher.model, ts)
      modifies this, dispatcher, queues, Linked
      ensures Valid() && fresh(Linked - old(Linked))
      ensures dispatcher.model == AfterRun(dispatcher.config, old(dispatcher.model), ts)
      ensures dispatcher.received == old(dispatcher.received) + MessagesOf(ts)
    {
      var i := 0;
      while i < |ts|
        invariant i <= |ts| && Valid() && fresh(Linked - old(Linked))
        invariant CanRun(dispatcher.config, dispatcher.model, ts[i..])
        invariant AfterRun(dispatcher.config, dispatcher.model, ts[i..]) == AfterRun(dispatcher.config, old(dispatcher.model), ts)
        invariant dispatcher.received + MessagesOf(ts[i..]) == old(dispatcher.received) + MessagesOf(ts)
      {
        ghost var received := dispatcher.received;
        Step(ts[i]);
        NextTurn(ts, i, received);
        i := i + 1;
      }
    }
  }

  // From a new server on.
  method RunFromStart(config: Config, plugins: nat, ts: seq<Turn>) returns (threads: Threads)
    requires CanRun(config, Initial(plugins), ts)
    ensures fresh(threads) && threads.Valid() && threads.dispatcher.config == config
    ensures threads.dispatcher.model == AfterRun(config, Initial(plugins), ts)
    ensures threads.dispatcher.received == MessagesOf(ts)
  {
    threads := new Threads(config, plugins);
    threads.Run(ts);
  }
}
