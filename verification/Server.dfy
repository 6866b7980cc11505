/** The event server as its threads see it (event/daemon): one network thread that judges
    each message and puts accepted ones into plugin queues, one worker per plugin, and the
    shutdown that follows the network loop.  Every label below is one indivisible step; any
    interleaving of steps is a run. */
module Server {
  import opened Wrappers

  // ---------- judging a message ----------

  const MAX_QUEUE_ENTRY: nat := 1048576

  // What put_in_queue_long makes of the event name: the plugin found for it, or none.
  datatype Body = Undecodable | ForPlugin(p: nat) | StatusQuery | NoPlugin

  datatype Arrival = TooShort | OtherVersion | Event(sync: bool, body: Body)

  datatype Reason = Broken | Unknown | Busy | NoMemory

  // Exactly one of these happens to each message.
  datatype Verdict =
    | BadHeader(short: bool)
    | Refused(sync: bool, reason: Reason)
    | Answered(sync: bool)
    | Taken(sync: bool, p: nat)

  // The busy test only bites at multiples of 100.
  predicate TestsBusy(size: nat) {
    size > MAX_QUEUE_ENTRY && size % 100 == 0
  }

  // size: what the unlocked read of the plugin's queue size returns.
  function Judge(a: Arrival, size: nat, memory: bool): Verdict {
    match a
    case TooShort => BadHeader(true)
    case OtherVersion => BadHeader(false)
    case Event(sync, body) =>
      match body
      case Undecodable => Refused(sync, Broken)
      case NoPlugin => Refused(sync, Unknown)
      case StatusQuery => if memory then Answered(sync) else Refused(sync, NoMemory)
      case ForPlugin(p) =>
        if TestsBusy(size) then Refused(sync, Busy)
        else if memory then Taken(sync, p) else Refused(sync, NoMemory)
  }

  // Whether the network thread itself replies to a message so judged.
  predicate RepliesAtOnce(v: Verdict) {
    match v
    case BadHeader(_) => true
    case Refused(sync, _) => sync
    case Answered(_) => true
    case Taken(_, _) => false
  }

  // The counters of struct stats that parse.c and tcp.c bump.
  datatype Stats = Stats(msgTcp: nat, versionMismatch: nat, brokenReq: nat, unkReq: nat, proBusy: nat)

  function Bump(s: Stats, v: Verdict): Stats {
    var s := s.(msgTcp := s.msgTcp + 1);
    match v
    case BadHeader(true) => s.(brokenReq := s.brokenReq + 1)
    case BadHeader(false) => s.(versionMismatch := s.versionMismatch + 1)
    case Refused(_, Broken) => s.(brokenReq := s.brokenReq + 1)
    case Refused(_, Unknown) => s.(unkReq := s.unkReq + 1)
    case Refused(_, Busy) => s.(proBusy := s.proBusy + 1)
    case _ => s
  }

  // ---------- state ----------

  // A queued request: the number of the message it came from, and its sync flag.
  datatype Entry = Entry(serial: nat, sync: bool)

  datatype Worker =
    | Waiting                 // about to lock the queue and get
    | Working(e: Entry)       // process_driver is running
    | Finished(e: Entry)      // about to free the entry
    | SawEmpty                // queue_get returned NULL; about to test loop_should_stop
    | Exited

  // enqueued, processed, freed and discarded record what has happened so far; lastEmpty is
  // how much had been enqueued when the worker last found the queue empty.
  datatype Plugin = Plugin(
    queue: seq<Entry>, worker: Worker, stop: bool, released: bool,
    enqueued: seq<Entry>, processed: seq<Entry>, freed: seq<Entry>, discarded: seq<Entry>, lastEmpty: nat)

  // The network thread between two messages, or between the busy test and the lock.
  datatype Net = Idle | Holding(e: Entry, p: nat)

  datatype State = State(
    looping: bool, net: Net, plugins: seq<Plugin>, stats: Stats,
    verdicts: seq<Verdict>, replies: multiset<nat>)

  function Initial(n: nat): State {
    State(true, Idle, seq(n, _ => Plugin([], Waiting, false, false, [], [], [], [], 0)),
          Stats(0, 0, 0, 0, 0), [], multiset{})
  }

  // ---------- steps ----------

  datatype Label =
    | Arrive(a: Arrival, memory: bool)
    | Enqueue
    | Get(p: nat)
    | TestStop(p: nat)
    | Process(p: nat)
    | Free(p: nat)
    | EndLoop
    | Stop(p: nat)
    | Release(p: nat)

  predicate Enabled(s: State, l: Label) {
    match l
    case Arrive(a, _) =>
      s.looping && s.net.Idle? && (a.Event? && a.body.ForPlugin? ==> a.body.p < |s.plugins|)
    case Enqueue => s.net.Holding? && s.net.p < |s.plugins|
    case Get(p) => p < |s.plugins| && s.plugins[p].worker.Waiting?
    case TestStop(p) => p < |s.plugins| && s.plugins[p].worker.SawEmpty?
    case Process(p) => p < |s.plugins| && s.plugins[p].worker.Working?
    case Free(p) => p < |s.plugins| && s.plugins[p].worker.Finished?
    case EndLoop => s.looping && s.net.Idle?
    case Stop(p) => !s.looping && p < |s.plugins|
    case Release(p) => p < |s.plugins| && s.plugins[p].stop && s.plugins[p].worker.Exited? && !s.plugins[p].released
  }

  // queue_cas for a synchronous entry, queue_put for an asynchronous one.
  function Insert(q: seq<Entry>, e: Entry): seq<Entry> {
    if e.sync then [e] + q else q + [e]
  }

  function AfterEnqueue(pl: Plugin, e: Entry): Plugin {
    pl.(queue := Insert(pl.queue, e), enqueued := pl.enqueued + [e])
  }

  function AfterGet(pl: Plugin): Plugin {
    if pl.queue == [] then pl.(worker := SawEmpty, lastEmpty := |pl.enqueued|)
    else pl.(queue := pl.queue[1..], worker := Working(pl.queue[0]))
  }

  function AfterTestStop(pl: Plugin): Plugin {
    pl.(worker := if pl.stop then Exited else Waiting)
  }

  function AfterProcess(pl: Plugin): Plugin
    requires pl.worker.Working?
  {
    pl.(worker := Finished(pl.worker.e), processed := pl.processed + [pl.worker.e])
  }

  function AfterFree(pl: Plugin): Plugin
    requires pl.worker.Finished?
  {
    pl.(worker := Waiting, freed := pl.freed + [pl.worker.e])
  }

  // queue_free gets and frees what is left.
  function AfterRelease(pl: Plugin): Plugin {
    pl.(queue := [], discarded := pl.discarded + pl.queue, released := true)
  }

  function AfterArrive(s: State, a: Arrival, memory: bool): State
    requires Enabled(s, Arrive(a, memory))
  {
    var size := if a.Event? && a.body.ForPlugin? then |s.plugins[a.body.p].queue| else 0;
    var v := Judge(a, size, memory);
    var i := |s.verdicts|;
    s.(verdicts := s.verdicts + [v],
       stats := Bump(s.stats, v),
       replies := if RepliesAtOnce(v) then s.replies + multiset{i} else s.replies,
       net := if v.Taken? then Holding(Entry(i, v.sync), v.p) else Idle)
  }

  function With(s: State, p: nat, pl: Plugin): State
    requires p < |s.plugins|
  {
    s.(plugins := s.plugins[p := pl])
  }

  function Next(s: State, l: Label): (t: State)
    requires Enabled(s, l)
    ensures |t.plugins| == |s.plugins|
  {
    match l
    case Arrive(a, memory) => AfterArrive(s, a, memory)
    case Enqueue => With(s, s.net.p, AfterEnqueue(s.plugins[s.net.p], s.net.e)).(net := Idle)
    case Get(p) => With(s, p, AfterGet(s.plugins[p]))
    case TestStop(p) => With(s, p, AfterTestStop(s.plugins[p]))
    case Process(p) =>
      var e := s.plugins[p].worker.e;
      With(s, p, AfterProcess(s.plugins[p])).(replies := if e.sync then s.replies + multiset{e.serial} else s.replies)
    case Free(p) => With(s, p, AfterFree(s.plugins[p]))
    case EndLoop => s.(looping := false)
    case Stop(p) => With(s, p, s.plugins[p].(stop := true))
    case Release(p) => With(s, p, AfterRelease(s.plugins[p]))
  }

  // ---------- runs ----------

  // The state a run leads to, if every step of it is possible when its turn comes.
  function Reached(n: nat, run: seq<Label>): Option<State> {
    if run == [] then Some(Initial(n))
    else
      var before := Reached(n, run[..|run| - 1]);
      var l := run[|run| - 1];
      if before.Some? && Enabled(before.value, l) then Some(Next(before.value, l)) else None
  }

  ghost predicate Reachable(n: nat, s: State) {
    exists run :: Reached(n, run) == Some(s)
  }

  lemma Extend(n: nat, run: seq<Label>, s: State, l: Label) returns (longer: seq<Label>)
    requires Reached(n, run) == Some(s) && Enabled(s, l)
    ensures Reached(n, longer) == Some(Next(s, l))
  {
    longer := run + [l];
    assert longer[..|longer| - 1] == run;
  }

  // s is a state of some run, whatever the number of its plugins.
  ghost predicate Lived(s: State) {
    forall n: nat :: n == |s.plugins| ==> Reachable(n, s)
  }

  lemma LivedNext(s: State, l: Label)
    requires Lived(s) && Enabled(s, l)
    ensures Lived(Next(s, l))
  {
    var n := |s.plugins|;
    assert Reachable(n, s);
    var run :| Reached(n, run) == Some(s);
    var _ := Extend(n, run, s, l);
    assert Reachable(n, Next(s, l));
  }

  lemma LivedInitially(n: nat)
    ensures Lived(Initial(n))
  {
    assert Reached(n, []) == Some(Initial(n));
  }
}
