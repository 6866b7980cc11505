/** The code of event/daemon/parse.c and of a worker's turn and end (event/daemon/mevent.c,
    event/plugin/mevent_skeleton.c, event/daemon/reply.c) run against real linked queues and
    counters.  The methods are proved to be the arrive, enqueue, get, process and release steps
    of Server, and the replies to carry the id of the request they answer. */
module Dispatch {
  import opened Wrappers
  import opened Bytes
  import opened Server
  import opened ServerInvariant
  import opened Requests
  import opened LinkedQueue

  // struct queue_entry with its copy of struct req_info.
  datatype Job = Job(entry: Entry, id: seq<Byte>)

  // Reply codes by their names; a plugin has its own.
  datatype Code = RepOk | ErrBroken | ErrVer | ErrUnkReq | ErrBusy | ErrMem | ErrPack | PluginCode(n: nat)

  // Through reply_mini, or through reply_long with packed data.
  datatype Answer = Short(code: Code) | WithData(code: Code)

  // A reply: the message it answers, the four id bytes it carries, and what it says.
  datatype Sent = Sent(serial: nat, id: seq<Byte>, answer: Answer)

  // What reply_trigger meets: something to pack, memory for it, and packing that works.
  datatype Packing = Packing(data: bool, memory: bool, packs: bool)

  function Triggered(code: Code, pack: Packing): Answer {
    if !pack.data then Short(code)
    else if !pack.memory then Short(ErrMem)
    else if !pack.packs then Short(ErrPack)
    else WithData(code)
  }

  // What the network thread says to a message so judged, when it replies.
  function AnswerTo(v: Verdict, pack: Packing): Answer {
    match v
    case BadHeader(short) => Short(if short then ErrBroken else ErrVer)
    case Refused(_, reason) =>
      Short(match reason
            case Broken => ErrBroken
            case Unknown => ErrUnkReq
            case Busy => ErrBusy
            case NoMemory => ErrMem)
    case Answered(_) => Triggered(RepOk, pack)
    case Taken(_, _) => Triggered(RepOk, pack)
  }

  /** What becomes of a request and what is said to it, by what stands in it: in this order, too
      short, another version, broken, for nobody, the status query, a busy plugin, no memory. */
  lemma RequestJudged(c: Config, r: Request, size: nat, memory: bool, pack: Packing)
    requires r.Fits()
    ensures var v := Judge(Classify(c, r.Head() + r.Payload()), size, memory);
            var sync := c.isSync(r.flags);
            if r.version != c.protoVer then
              v == BadHeader(false) && AnswerTo(v, pack) == Short(ErrVer)
            else if Asked(c, r).Undecodable? then
              v == Refused(sync, Broken) && AnswerTo(v, pack) == Short(ErrBroken)
            else if c.lookup(r.name).None? && !(r.name <= STATUS_BYTES || STATUS_BYTES <= r.name) then
              v == Refused(sync, Unknown) && AnswerTo(v, pack) == Short(ErrUnkReq)
            else if c.lookup(r.name).Some? && size > 1048576 && size % 100 == 0 then
              v == Refused(sync, Busy) && AnswerTo(v, pack) == Short(ErrBusy)
            else if !memory then
              v == Refused(sync, NoMemory) && AnswerTo(v, pack) == Short(ErrMem)
            else if c.lookup(r.name).Some? then v == Taken(sync, c.lookup(r.name).value)
            else v == Answered(sync) && AnswerTo(v, pack) == Triggered(RepOk, pack)
  {
    RequestIsRead(c, r);
  }

  lemma ShortJudged(c: Config, m: Message, size: nat, memory: bool, pack: Packing)
    requires |m| <= 16
    ensures var v := Judge(Classify(c, m), size, memory);
            v == BadHeader(true) && AnswerTo(v, pack) == Short(ErrBroken)
  {
    ShortExactly(c, m);
  }

  /** Data is sent exactly if there is some, memory for it, and packing works; if not, the code
      itself is sent exactly if there is none. */
  lemma DataIsSent(n: nat, pack: Packing)
    ensures Triggered(RepOk, pack) == WithData(RepOk) <==> pack.data && pack.memory && pack.packs
    ensures Triggered(PluginCode(n), pack) == WithData(PluginCode(n)) <==> pack.data && pack.memory && pack.packs
    ensures Triggered(PluginCode(n), pack) == Short(PluginCode(n)) <==> !pack.data
    ensures Triggered(PluginCode(n), pack) == Short(ErrMem) <==> pack.data && !pack.memory
    ensures Triggered(PluginCode(n), pack) == Short(ErrPack) <==> pack.data && pack.memory && !pack.packs
  {
  }

  function Serials(replies: seq<Sent>): (m: multiset<nat>)
    decreases |replies|
  {
    if replies == [] then multiset{}
    else Serials(replies[..|replies| - 1]) + multiset{replies[|replies| - 1].serial}
  }

  // A job carries the id of the message it was made from.
  predicate RightId(c: Config, received: seq<Message>, job: Job) {
    && job.entry.serial < |received|
    && HeaderOk(c, received[job.entry.serial])
    && job.id == MaskedId(received[job.entry.serial])
  }

  predicate JobsRight(c: Config, received: seq<Message>, jobs: seq<Job>) {
    forall i :: 0 <= i < |jobs| ==> RightId(c, received, jobs[i])
  }

  // The id the reply to message m carries: its own, or its own reversed if it has another
  // version; a message too short for a header leaves it open.
  predicate CarriesId(c: Config, m: Message, id: seq<Byte>) {
    && |id| == 4
    && (HeaderOk(c, m) ==> id == MaskedId(m))
    && (OtherVersioned(c, m) ==> id == Reversed(MaskedId(m)))
  }

  predicate RepliesRight(c: Config, received: seq<Message>, replies: seq<Sent>) {
    forall i :: 0 <= i < |replies| ==>
      replies[i].serial < |received| && CarriesId(c, received[replies[i].serial], replies[i].id)
  }

  /** Of the replies sent, those to messages of another version carry the right id exactly if
      it reads the same both ways. */
  lemma MismatchReplies(c: Config, received: seq<Message>, replies: seq<Sent>, i: nat)
    requires RepliesRight(c, received, replies) && i < |replies|
    requires OtherVersioned(c, received[replies[i].serial])
    ensures var m := received[replies[i].serial];
            replies[i].id == MaskedId(m) <==> m[0] % 16 == m[3] && m[1] == m[2]
  {
    MismatchReplyId(received[replies[i].serial]);
    var _ := IdBytes(received[replies[i].serial]);
  }

  lemma SerialsSnoc(replies: seq<Sent>, r: Sent)
    ensures Serials(replies + [r]) == Serials(replies) + multiset{r.serial}
  {
    var longer := replies + [r];
    assert longer[..|longer| - 1] == replies;
  }

  lemma LastSerial(replies: seq<Sent>, i: nat)
    requires replies != []
    ensures var k := |replies| - 1;
            Serials(replies)[i] == Serials(replies[..k])[i] + if replies[k].serial == i then 1 else 0
  {
  }

  lemma {:induction false} SerialSent(replies: seq<Sent>, i: nat) returns (j: nat)
    requires Serials(replies)[i] > 0
    ensures j < |replies| && replies[j].serial == i
    decreases |replies|
  {
    LastSerial(replies, i);
    j := |replies| - 1;
    if replies[j].serial != i {
      j := SerialSent(replies[..j], i);
    }
  }

  lemma {:induction false} SentSerial(replies: seq<Sent>, j: nat)
    requires j < |replies|
    ensures Serials(replies)[replies[j].serial] > 0
    decreases |replies|
  {
    var last := |replies| - 1;
    LastSerial(replies, replies[j].serial);
    if j < last {
      SentSerial(replies[..last], j);
    }
  }

  lemma {:induction false} SerialTwice(replies: seq<Sent>, j: nat, k: nat)
    requires j < k < |replies| && replies[j].serial == replies[k].serial
    ensures Serials(replies)[replies[j].serial] > 1
    decreases |replies|
  {
    var last := |replies| - 1;
    LastSerial(replies, replies[j].serial);
    if k < last {
      SerialTwice(replies[..last], j, k);
    } else {
      SentSerial(replies[..last], j);
    }
  }

  lemma RepliesSnoc(c: Config, received: seq<Message>, replies: seq<Sent>, r: Sent)
    requires RepliesRight(c, received, replies)
    requires r.serial < |received| && CarriesId(c, received[r.serial], r.id)
    ensures RepliesRight(c, received, replies + [r])
  {
  }

  lemma RepliesLater(c: Config, received: seq<Message>, m: Message, replies: seq<Sent>)
    requires RepliesRight(c, received, replies)
    ensures RepliesRight(c, received + [m], replies)
  {
  }

  // ---------- a plugin's queue ----------

  function Entries(jobs: seq<Job>): seq<Entry> {
    seq(|jobs|, i requires 0 <= i < |jobs| => jobs[i].entry)
  }

  function Joined(jobs: seq<Job>, job: Job): seq<Job> {
    if job.entry.sync then [job] + jobs else jobs + [job]
  }

  lemma OneEntryMore(jobs: seq<Job>, job: Job)
    ensures Entries(Joined(jobs, job)) == Insert(Entries(jobs), job.entry)
  {
  }

  lemma OneJobMoreRight(c: Config, received: seq<Message>, jobs: seq<Job>, job: Job)
    requires JobsRight(c, received, jobs) && RightId(c, received, job)
    ensures JobsRight(c, received, Joined(jobs, job))
  {
  }

  lemma OneJobLess(c: Config, received: seq<Message>, jobs: seq<Job>)
    requires JobsRight(c, received, jobs) && jobs != []
    ensures Entries(jobs)[0] == jobs[0].entry && Entries(jobs[1..]) == Entries(jobs)[1..]
    ensures RightId(c, received, jobs[0]) && JobsRight(c, received, jobs[1..])
  {
  }

  // What a get gives, and what it leaves.
  function First(jobs: seq<Job>): Option<Job> {
    if jobs == [] then None else Some(jobs[0])
  }

  function Others(jobs: seq<Job>): seq<Job> {
    if jobs == [] then [] else jobs[1..]
  }

  lemma SyncGoesFirst(jobs: seq<Job>, job: Job)
    requires job.entry.sync
    ensures First(Joined(jobs, job)) == Some(job) && Others(Joined(jobs, job)) == jobs
  {
  }

  // The locked section of put_in_queue_long.
  method PutOrCas(q: Queue<Job>, e: QueueEntry<Job>)
    requires q.Valid() && e !in q.Entries && e.prev == null
    modifies q, q.Entries, e
    ensures q.Valid() && q.Contents() == Joined(old(q.Contents()), e.request)
    ensures q.Entries == if e.request.entry.sync then [e] + old(q.Entries) else old(q.Entries) + [e]
  {
    OneRequestMore(q.Entries, e);
    if e.request.entry.sync {
      q.Cas(e);
    } else {
      q.Put(e);
    }
  }

  // The end of put_in_queue_long: the entry is made and put in the queue.
  method InsertLocked(q: Queue<Job>, job: Job) returns (ghost e: QueueEntry<Job>)
    requires q.Valid()
    modifies q, q.Entries
    ensures q.Valid()
    ensures q.Contents() == Joined(old(q.Contents()), job)
    ensures Entries(q.Contents()) == Insert(old(Entries(q.Contents())), job.entry)
    ensures fresh(e) && q.Entries == if job.entry.sync then [e] + old(q.Entries) else old(q.Entries) + [e]
  {
    var x := new QueueEntry(job);
    OneEntryMore(q.Contents(), job);
    PutOrCas(q, x);
    e := x;
  }

  method GetLocked(q: Queue<Job>) returns (job: Option<Job>)
    requires q.Valid()
    modifies q
    ensures q.Valid()
    ensures job == First(old(q.Contents())) && q.Contents() == Others(old(q.Contents()))
    ensures q.Entries == if old(q.Entries) == [] then [] else old(q.Entries)[1..]
  {
    if q.Entries != [] {
      OneRequestLess(q.Entries);
    }
    var e := q.Get();
    job := if e == null then None else Some(e.request);
  }

  // The verdicts there can be on such an arrival.
  predicate CanJudge(a: Arrival, v: Verdict) {
    v == Judge(a, 0, true) || v == Judge(a, 0, false) || v == Judge(a, QUEUE_LIMIT, true)
  }

  lemma JudgeCan(a: Arrival, size: nat, memory: bool)
    ensures CanJudge(a, Judge(a, size, memory))
  {
  }

  predicate VerdictsRight(c: Config, received: seq<Message>, vs: seq<Verdict>)
    requires |received| == |vs|
  {
    forall i :: 0 <= i < |vs| ==> CanJudge(Classify(c, received[i]), vs[i])
  }

  // What a reply can say to a message so judged; a plugin may say anything.
  predicate Says(v: Verdict, a: Answer) {
    match v
    case Answered(_) => a == WithData(RepOk) || a == Short(RepOk) || a == Short(ErrMem) || a == Short(ErrPack)
    case Taken(_, _) => true
    case _ => a == AnswerTo(v, Packing(false, false, false))
  }

  lemma SaysAnswer(v: Verdict, pack: Packing)
    ensures Says(v, AnswerTo(v, pack))
  {
  }

  predicate AnswersRight(vs: seq<Verdict>, replies: seq<Sent>) {
    forall j :: 0 <= j < |replies| ==> replies[j].serial < |vs| && Says(vs[replies[j].serial], replies[j].answer)
  }

  lemma AnswersSnoc(vs: seq<Verdict>, replies: seq<Sent>, r: Sent)
    requires AnswersRight(vs, replies) && r.serial < |vs| && Says(vs[r.serial], r.answer)
    ensures AnswersRight(vs, replies + [r])
  {
  }

  lemma AnswersLater(vs: seq<Verdict>, v: Verdict, replies: seq<Sent>)
    requires AnswersRight(vs, replies)
    ensures AnswersRight(vs + [v], replies)
  {
    forall j | 0 <= j < |replies|
      ensures (vs + [v])[replies[j].serial] == vs[replies[j].serial]
    {
    }
  }

  // Counters, verdicts and replies are those of the server's state, and the replies carry the
  // right ids and say what the verdicts ask for.
  predicate Consistent(c: Config, counters: Stats, received: seq<Message>, replies: seq<Sent>, s: State) {
    && s.stats == counters
    && |received| == |s.verdicts| == counters.msgTcp
    && VerdictsRight(c, received, s.verdicts)
    && AnswersRight(s.verdicts, replies)
    && Serials(replies) == s.replies
    && RepliesRight(c, received, replies)
  }

  lemma BumpCountsOne(s: Stats, v: Verdict)
    ensures Bump(s, v).msgTcp == s.msgTcp + 1
  {
  }

  lemma OneMoreVerdict(c: Config, received: seq<Message>, m: Message, vs: seq<Verdict>, v: Verdict)
    requires |received| == |vs| && VerdictsRight(c, received, vs) && CanJudge(Classify(c, m), v)
    ensures VerdictsRight(c, received + [m], vs + [v])
  {
  }

  lemma OneMoreConsistent(c: Config, s: State, t: State, v: Verdict, received: seq<Message>, replies: seq<Sent>,
                          m: Message, r: Sent)
    requires Consistent(c, s.stats, received, replies, s) && r.serial == s.stats.msgTcp && CarriesId(c, m, r.id)
    requires t.stats == Bump(s.stats, v) && t.verdicts == s.verdicts + [v] && CanJudge(Classify(c, m), v)
    requires t.replies == if RepliesAtOnce(v) then s.replies + multiset{|s.verdicts|} else s.replies
    requires Says(v, r.answer)
    ensures Consistent(c, t.stats, received + [m], if RepliesAtOnce(v) then replies + [r] else replies, t)
  {
    BumpCountsOne(s.stats, v);
    RepliesLater(c, received, m, replies);
    OneMoreVerdict(c, received, m, s.verdicts, v);
    AnswersLater(s.verdicts, v, replies);
    if RepliesAtOnce(v) {
      assert (received + [m])[r.serial] == m;
      RepliesSnoc(c, received + [m], replies, r);
      AnswersSnoc(t.verdicts, replies, r);
      SerialsSnoc(replies, r);
    }
  }

  // What the network thread has in hand is the job made of message m.
  predicate InHandRight(c: Config, received: seq<Message>, taken: Option<(nat, Job)>, net: Net) {
    match taken
    case None => net.Idle?
    case Some((p, job)) => net == Holding(job.entry, p) && RightId(c, received, job)
  }

  lemma TakenIsRight(c: Config, m: Message, size: nat, memory: bool, v: Verdict)
    requires v == Judge(Classify(c, m), size, memory) && v.Taken?
    ensures HeaderOk(c, m)
  {
  }

  lemma ArriveConsistent(c: Config, s: State, received: seq<Message>, before: seq<Sent>, after: seq<Sent>, m: Message,
                         size: nat, memory: bool, r: Sent, v: Verdict, taken: Option<(nat, Job)>)
    returns (t: State)
    requires Lived(s) && Consistent(c, s.stats, received, before, s) && r.serial == s.stats.msgTcp && CarriesId(c, m, r.id)
    requires var a := Classify(c, m);
             && Enabled(s, Arrive(a, memory))
             && (a.Event? && a.body.ForPlugin? ==> size == |s.plugins[a.body.p].queue|)
    requires v == Judge(Classify(c, m), size, memory)
    requires Says(v, r.answer) && after == if RepliesAtOnce(v) then before + [r] else before
    requires taken == if v.Taken? then Some((v.p, Job(Entry(s.stats.msgTcp, v.sync), r.id))) else None
    ensures t == Next(s, Arrive(Classify(c, m), memory)) && Lived(t)
    ensures Consistent(c, Bump(s.stats, v), received + [m], after, t) && InHandRight(c, received + [m], taken, t.net)
  {
    var a := Classify(c, m);
    t := Next(s, Arrive(a, memory));
    LivedNext(s, Arrive(a, memory));
    ArriveShape(s, a, memory, size);
    JudgeCan(a, size, memory);
    OneMoreConsistent(c, s, t, v, received, before, m, r);
    if v.Taken? {
      TakenIsRight(c, m, size, memory, v);
    }
  }

  // Only a plugin's own enqueue, get and release steps change its queue.
  lemma QueueElsewhere(s: State, l: Label, p: nat)
    requires Enabled(s, l) && p < |s.plugins|
    requires l != Get(p) && l != Release(p) && (l.Enqueue? ==> s.net.p != p)
    ensures Next(s, l).plugins[p].queue == s.plugins[p].queue
  {
  }

  // The jobs are those of plugin p's queue, and each carries its message's id.
  ghost predicate Queued(c: Config, received: seq<Message>, jobs: seq<Job>, s: State, p: nat) {
    p < |s.plugins| && Entries(jobs) == s.plugins[p].queue && JobsRight(c, received, jobs)
  }

  lemma StillQueued(c: Config, s: State, t: State, p: nat, received: seq<Message>, more: seq<Message>, jobs: seq<Job>)
    requires Queued(c, received, jobs, s, p) && received <= more
    requires p < |t.plugins| && t.plugins[p].queue == s.plugins[p].queue
    ensures Queued(c, more, jobs, t, p)
  {
    forall i | 0 <= i < |jobs|
      ensures RightId(c, more, jobs[i])
    {
      assert RightId(c, received, jobs[i]);
    }
  }

  // The steps that touch neither queues nor counters nor replies.
  predicate Quiet(l: Label) {
    l.TestStop? || l.Free? || l.EndLoop? || l.Stop?
  }

  lemma QuietConsistent(c: Config, s: State, l: Label, received: seq<Message>, replies: seq<Sent>)
    requires Consistent(c, s.stats, received, replies, s) && Enabled(s, l) && Quiet(l)
    ensures Consistent(c, s.stats, received, replies, Next(s, l))
  {
  }

  predicate AtWork(c: Config, received: seq<Message>, job: Option<Job>, w: Worker) {
    match job
    case None => w == SawEmpty
    case Some(j) => w == Working(j.entry) && RightId(c, received, j)
  }

  lemma EnqueueConsistent(c: Config, s: State, p: nat, received: seq<Message>, replies: seq<Sent>, jobs: seq<Job>, job: Job)
    returns (t: State)
    requires Lived(s) && Consistent(c, s.stats, received, replies, s) && Queued(c, received, jobs, s, p)
    requires s.net == Holding(job.entry, p) && RightId(c, received, job)
    ensures t == Next(s, Enqueue) && Lived(t)
    ensures Consistent(c, s.stats, received, replies, t) && Queued(c, received, Joined(jobs, job), t, p)
  {
    t := Next(s, Enqueue);
    LivedNext(s, Enqueue);
    OneEntryMore(jobs, job);
    OneJobMoreRight(c, received, jobs, job);
  }

  lemma GetConsistent(c: Config, s: State, p: nat, received: seq<Message>, replies: seq<Sent>, jobs: seq<Job>)
    requires Consistent(c, s.stats, received, replies, s) && Enabled(s, Get(p)) && Queued(c, received, jobs, s, p)
    ensures var t := Next(s, Get(p));
            && Consistent(c, s.stats, received, replies, t)
            && Queued(c, received, Others(jobs), t, p)
            && AtWork(c, received, First(jobs), t.plugins[p].worker)
  {
    if jobs != [] {
      OneJobLess(c, received, jobs);
    }
  }

  lemma ReleaseConsistent(c: Config, s: State, p: nat, received: seq<Message>, replies: seq<Sent>)
    requires Consistent(c, s.stats, received, replies, s) && Enabled(s, Release(p))
    ensures var t := Next(s, Release(p));
            Consistent(c, s.stats, received, replies, t) && Queued(c, received, [], t, p)
  {
  }

  lemma ProcessConsistent(c: Config, s: State, p: nat, received: seq<Message>, replies: seq<Sent>, job: Job, answer: Answer)
    returns (t: State)
    requires Lived(s) && Consistent(c, s.stats, received, replies, s)
    requires Enabled(s, Process(p)) && s.plugins[p].worker == Working(job.entry)
    requires RightId(c, received, job)
    ensures t == Next(s, Process(p)) && Lived(t)
    ensures Consistent(c, s.stats, received,
                       replies + (if job.entry.sync then [Sent(job.entry.serial, job.id, answer)] else []), t)
  {
    t := Next(s, Process(p));
    LivedNext(s, Process(p));
    assert replies + [] == replies;
    if job.entry.sync {
      assert Reachable(|s.plugins|, s);
      WorkingWasTaken(|s.plugins|, s, p);
      RepliesSnoc(c, received, replies, Sent(job.entry.serial, job.id, answer));
      AnswersSnoc(s.verdicts, replies, Sent(job.entry.serial, job.id, answer));
      SerialsSnoc(replies, Sent(job.entry.serial, job.id, answer));
    }
  }

  // ---------- the network thread's and the workers' shared state ----------

  class Dispatcher {
    const config: Config

    // req->id as it lies in memory.
    var reqId: seq<Byte>
    var msgTcp: nat
    var versionMismatch: nat
    var brokenReq: nat
    var unkReq: nat
    var proBusy: nat
    var replies: seq<Sent>

    ghost var received: seq<Message>
    // What the server as a whole has been through.
    ghost var model: State

    constructor (config: Config, plugins: nat)
      ensures Valid() && this.config == config && model == Initial(plugins) && received == []
    {
      this.config := config;
      reqId := [0, 0, 0, 0];
      msgTcp, versionMismatch, brokenReq, unkReq, proBusy := 0, 0, 0, 0, 0;
      replies, received := [], [];
      model := Initial(plugins);
      LivedInitially(plugins);
    }

    // Queue q is plugin p's.
    ghost predicate Shows(q: Queue<Job>, p: nat)
      reads this, q, q.Entries
    {
      q.Valid() && Queued(config, received, q.Contents(), model, p)
    }

    // A queue that showed plugin p's still does after steps that leave that queue alone.
    lemma StillShows(q: Queue<Job>, p: nat, s: State, before: seq<Message>)
      requires q.Valid() && Queued(config, before, q.Contents(), s, p) && before <= received
      requires p < |model.plugins| && model.plugins[p].queue == s.plugins[p].queue
      ensures Shows(q, p)
    {
      StillQueued(config, s, model, p, before, received, q.Contents());
    }

    ghost predicate Valid()
      reads this
    {
      && |reqId| == 4
      && Lived(model)
      && Consistent(config, Counters(), received, replies, model)
    }

    // Each reply carries the id of the message it answers and says what its verdict asks for.
    lemma RepliesTell(j: nat)
      requires Valid() && j < |replies|
      ensures replies[j].serial < |received| == |model.verdicts|
      ensures CarriesId(config, received[replies[j].serial], replies[j].id)
      ensures CanJudge(Classify(config, received[replies[j].serial]), model.verdicts[replies[j].serial])
      ensures Says(model.verdicts[replies[j].serial], replies[j].answer)
    {
    }

    /** In every state the dispatcher gets into, no message has been answered twice, those answered
        are the ones whose verdict and processing ask for it, and each reply carries the id of the
        message it answers. */
    lemma AnsweredOnce()
      requires Valid()
      ensures forall i, j :: 0 <= i < j < |replies| ==> replies[i].serial != replies[j].serial
      ensures forall i: nat :: i < |received| ==>
                (Due(model, i) == 1 <==> exists j :: 0 <= j < |replies| && replies[j].serial == i)
      ensures forall j :: 0 <= j < |replies| ==>
                replies[j].serial < |received| && CarriesId(config, received[replies[j].serial], replies[j].id)
    {
      forall j | 0 <= j < |replies|
        ensures replies[j].serial < |received| && CarriesId(config, received[replies[j].serial], replies[j].id)
      {
        RepliesTell(j);
      }
      ReachableInv(|model.plugins|, model);
      forall i, j | 0 <= i < j < |replies|
        ensures replies[i].serial != replies[j].serial
      {
        assert model.replies[replies[i].serial] == Due(model, replies[i].serial) <= 1;
        if replies[i].serial == replies[j].serial {
          SerialTwice(replies, i, j);
        }
      }
      forall i: nat | i < |received|
        ensures Due(model, i) == 1 <==> exists j :: 0 <= j < |replies| && replies[j].serial == i
      {
        assert model.replies[i] == Due(model, i) <= 1;
        if Due(model, i) == 1 {
          var j := SerialSent(replies, i);
          assert replies[j].serial == i;
        } else {
          forall j | 0 <= j < |replies|
            ensures replies[j].serial != i
          {
            SentSerial(replies, j);
          }
        }
      }
    }

    // req->reply_mini for the message just counted.
    method ReplyMini(code: Code)
      requires msgTcp > 0
      modifies this`replies
      ensures replies == old(replies) + [Sent(msgTcp - 1, reqId, Short(code))]
    {
      replies := replies + [Sent(msgTcp - 1, reqId, Short(code))];
    }

    // reply_trigger: each of its four exits replies once.
    method ReplyTrigger(job: Job, code: Code, pack: Packing) returns (ok: bool)
      modifies this`replies
      ensures replies == old(replies) + [Sent(job.entry.serial, job.id, Triggered(code, pack))]
      ensures ok <==> (pack.data ==> pack.memory && pack.packs)
      ensures var said := replies[|old(replies)|].answer;
              && (pack.data && ok ==> said == WithData(code))
              && (!pack.data ==> said == Short(code))
              && (pack.data && !ok ==> said == Short(if pack.memory then ErrPack else ErrMem))
    {
      if !pack.data {
        replies := replies + [Sent(job.entry.serial, job.id, Short(code))];
        return true;
      }
      if !pack.memory {
        replies := replies + [Sent(job.entry.serial, job.id, Short(ErrMem))];
        return false;
      }
      if !pack.packs {
        replies := replies + [Sent(job.entry.serial, job.id, Short(ErrPack))];
        return false;
      }
      replies := replies + [Sent(job.entry.serial, job.id, WithData(code))];
      ok := true;
    }

    // put_in_queue_long up to the lock: size is what the unlocked read of the plugin's queue
    // size gives, memory whether allocation works.  taken is set if an entry was made.
    method Admit(sync: bool, body: Body, size: nat, memory: bool, pack: Packing)
      returns (ok: bool, taken: Option<(nat, Job)>)
      requires msgTcp > 0 && !body.Undecodable?
      modifies this`unkReq, this`proBusy, this`replies
      ensures var v := Judge(Event(sync, body), size, memory);
              && ok == !(v.Refused? && v.reason == NoMemory)
              && unkReq == old(unkReq) + (if v == Refused(sync, Unknown) then 1 else 0)
              && proBusy == old(proBusy) + (if v == Refused(sync, Busy) then 1 else 0)
              && replies == (if ok && RepliesAtOnce(v) then old(replies) + [Sent(msgTcp - 1, reqId, AnswerTo(v, pack))]
                             else old(replies))
              && taken == if v.Taken? then Some((v.p, Job(Entry(msgTcp - 1, sync), reqId))) else None
    {
      match body
      case StatusQuery =>
        if !memory {
          return false, None;
        }
        var _ := ReplyTrigger(Job(Entry(msgTcp - 1, sync), reqId), RepOk, pack);
        return true, None;
      case NoPlugin =>
        unkReq := unkReq + 1;
        if sync {
          ReplyMini(ErrUnkReq);
        }
        return true, None;
      case ForPlugin(p) =>
        if size > 1048576 && size % 100 == 0 {
          proBusy := proBusy + 1;
          if sync {
            ReplyMini(ErrBusy);
          }
          return true, None;
        }
        if !memory {
          return false, None;
        }
        return true, Some((p, Job(Entry(msgTcp - 1, sync), reqId)));
    }

    method ParseEvent(sync: bool, body: Body, size: nat, memory: bool, pack: Packing)
      returns (taken: Option<(nat, Job)>)
      requires msgTcp > 0
      modifies this`brokenReq, this`unkReq, this`proBusy, this`replies
      ensures var v := Judge(Event(sync, body), size, memory);
              && brokenReq == old(brokenReq) + (if v == Refused(sync, Broken) then 1 else 0)
              && unkReq == old(unkReq) + (if v == Refused(sync, Unknown) then 1 else 0)
              && proBusy == old(proBusy) + (if v == Refused(sync, Busy) then 1 else 0)
              && replies == (if RepliesAtOnce(v) then old(replies) + [Sent(msgTcp - 1, reqId, AnswerTo(v, pack))]
                             else old(replies))
              && taken == if v.Taken? then Some((v.p, Job(Entry(msgTcp - 1, sync), reqId))) else None
    {
      if body.Undecodable? {
        brokenReq := brokenReq + 1;
        if sync {
          ReplyMini(ErrBroken);
        }
        return None;
      }
      var ok;
      ok, taken := Admit(sync, body, size, memory, pack);
      if !ok {
        if sync {
          ReplyMini(ErrMem);
        }
      }
    }

    function Counters(): Stats
      reads this
    {
      Stats(msgTcp, versionMismatch, brokenReq, unkReq, proBusy)
    }

    // tcp.c's counter and the beginning of parse_message, up to parse_event.
    method ReadHeader(m: Message, ghost pack: Packing) returns (ok: bool)
      requires |reqId| == 4
      modifies this`reqId, this`msgTcp, this`versionMismatch, this`brokenReq, this`replies
      ensures |reqId| == 4 && CarriesId(config, m, reqId)
      ensures ok == HeaderOk(config, m)
      ensures var v := BadHeader(|m| < 17);
              && Counters() == (if ok then old(Counters()).(msgTcp := old(msgTcp) + 1) else Bump(old(Counters()), v))
              && replies == if ok then old(replies) else old(replies) + [Sent(old(msgTcp), reqId, AnswerTo(v, pack))]
    {
      msgTcp := msgTcp + 1;
      if |m| < 17 {
        brokenReq := brokenReq + 1;
        ReplyMini(ErrBroken);
        return false;
      }
      var id := IdOf(m);
      ghost var _ := IdBytes(m);
      reqId := Reversed(Htonl(id));
      if VersionOf(m) != config.protoVer {
        versionMismatch := versionMismatch + 1;
        ReplyMini(ErrVer);
        return false;
      }
      reqId := Htonl(id);
      ok := true;
    }

    // parse_message, up to the lock of a plugin's queue.
    method HandleMessage(m: Message, size: nat, memory: bool, pack: Packing)
      returns (ok: bool, taken: Option<(nat, Job)>)
      requires |reqId| == 4
      modifies this`reqId, this`msgTcp, this`versionMismatch, this`brokenReq, this`unkReq, this`proBusy, this`replies
      ensures |reqId| == 4 && CarriesId(config, m, reqId)
      ensures ok == HeaderOk(config, m)
      ensures var v := Judge(Classify(config, m), size, memory);
              && Counters() == Bump(old(Counters()), v)
              && replies == (if RepliesAtOnce(v) then old(replies) + [Sent(old(msgTcp), reqId, AnswerTo(v, pack))]
                             else old(replies))
              && taken == if v.Taken? then Some((v.p, Job(Entry(old(msgTcp), v.sync), reqId))) else None
    {
      ok := ReadHeader(m, pack);
      if !ok {
        return false, None;
      }
      taken := ParseEvent(config.isSync(Ntohs(m, 6)), ReadBody(config, m[8..]), size, memory, pack);
    }

    // The same, as the step of the server it is.
    method ParseMessage(m: Message, size: nat, memory: bool, pack: Packing)
      returns (ok: bool, taken: Option<(nat, Job)>)
      requires Valid()
      requires var a := Classify(config, m);
               && Enabled(model, Arrive(a, memory))
               && (a.Event? && a.body.ForPlugin? ==> size == |model.plugins[a.body.p].queue|)
      modifies this
      ensures Valid() && received == old(received) + [m]
      ensures model == Next(old(model), Arrive(Classify(config, m), memory))
      ensures ok == HeaderOk(config, m)
      ensures var v := Judge(Classify(config, m), size, memory);
              replies == if RepliesAtOnce(v) then old(replies) + [Sent(old(msgTcp), reqId, AnswerTo(v, pack))] else old(replies)
      ensures InHandRight(config, received, taken, model.net)
    {
      ghost var a := Classify(config, m);
      ghost var v := Judge(a, size, memory);
      ok, taken := HandleMessage(m, size, memory, pack);
      SaysAnswer(v, pack);
      model := ArriveConsistent(config, model, received, old(replies), replies, m, size, memory,
                                Sent(old(msgTcp), reqId, AnswerTo(v, pack)), v, taken);
      received := received + [m];
    }

    // The enqueue step as the state sees it, whatever holds the jobs.
    ghost method Enqueued(jobs: seq<Job>, p: nat, job: Job)
      requires Valid() && Queued(config, received, jobs, model, p)
      requires model.net == Holding(job.entry, p) && RightId(config, received, job)
      modifies this`model
      ensures Valid() && model == Next(old(model), Enqueue)
      ensures Queued(config, received, Joined(jobs, job), model, p)
    {
      var t := EnqueueConsistent(config, model, p, received, replies, jobs, job);
      model := t;
    }

    // The end of put_in_queue_long.
    method EnqueueLocked(q: Queue<Job>, p: nat, job: Job) returns (ghost e: QueueEntry<Job>)
      requires Valid() && Shows(q, p)
      requires model.net == Holding(job.entry, p) && RightId(config, received, job)
      modifies this`model, q, q.Entries
      ensures Valid() && model == Next(old(model), Enqueue) && Shows(q, p)
      ensures q.Contents() == Joined(old(q.Contents()), job)
      ensures fresh(e) && q.Entries == if job.entry.sync then [e] + old(q.Entries) else old(q.Entries) + [e]
    {
      Enqueued(q.Contents(), p, job);
      e := InsertLocked(q, job);
    }

    // What the threads do without touching a queue, a counter or a reply.
    ghost method Pass(l: Label)
      requires Valid() && Enabled(model, l) && Quiet(l)
      modifies this`model
      ensures Valid() && model == Next(old(model), l)
    {
      LivedNext(model, l);
      QuietConsistent(config, model, l, received, replies);
      model := Next(model, l);
    }

    // The get step, likewise.
    ghost method Got(jobs: seq<Job>, p: nat)
      requires Valid() && Queued(config, received, jobs, model, p) && Enabled(model, Get(p))
      modifies this`model
      ensures Valid() && model == Next(old(model), Get(p))
      ensures Queued(config, received, Others(jobs), model, p)
      ensures AtWork(config, received, First(jobs), model.plugins[p].worker)
    {
      LivedNext(model, Get(p));
      GetConsistent(config, model, p, received, replies, jobs);
      model := Next(model, Get(p));
    }

    // queue_get in a worker's loop.
    method TakeNext(q: Queue<Job>, p: nat) returns (job: Option<Job>)
      requires Valid() && Shows(q, p) && Enabled(model, Get(p))
      modifies this`model, q
      ensures Valid() && model == Next(old(model), Get(p)) && Shows(q, p)
      ensures AtWork(config, received, job, model.plugins[p].worker)
      ensures job == First(old(q.Contents())) && q.Contents() == Others(old(q.Contents()))
      ensures q.Entries == if old(q.Entries) == [] then [] else old(q.Entries)[1..]
    {
      Got(q.Contents(), p);
      job := GetLocked(q);
    }

    // process_driver, with the plugin's result.
    method ProcessDriver(p: nat, job: Job, ret: Code, pack: Packing)
      requires Valid() && Enabled(model, Process(p)) && model.plugins[p].worker == Working(job.entry)
      requires RightId(config, received, job)
      modifies this`replies, this`model
      ensures Valid() && model == Next(old(model), Process(p))
      ensures replies == old(replies) + if job.entry.sync then [Sent(job.entry.serial, job.id, Triggered(ret, pack))] else []
    {
      model := ProcessConsistent(config, model, p, received, replies, job, Triggered(ret, pack));
      if job.entry.sync {
        var _ := ReplyTrigger(job, ret, pack);
      }
    }

    // The release step, likewise.
    ghost method Released(p: nat)
      requires Valid() && Enabled(model, Release(p))
      modifies this`model
      ensures Valid() && model == Next(old(model), Release(p)) && Queued(config, received, [], model, p)
    {
      LivedNext(model, Release(p));
      ReleaseConsistent(config, model, p, received, replies);
      model := Next(model, Release(p));
    }

    // queue_free in mevent_stop_driver, once the worker has ended: what is freed is what the
    // server discards.
    method FreeQueue(q: Queue<Job>, p: nat) returns (freed: seq<QueueEntry<Job>>)
      requires Valid() && Shows(q, p) && Enabled(model, Release(p))
      modifies this`model, q
      ensures Valid() && model == Next(old(model), Release(p)) && Shows(q, p) && q.Entries == []
      ensures freed == old(q.Entries)
      ensures |freed| == |old(model).plugins[p].queue|
      ensures forall i :: 0 <= i < |freed| ==> freed[i].request.entry == old(model).plugins[p].queue[i]
    {
      assert Entries(q.Contents()) == model.plugins[p].queue;
      Released(p);
      freed := q.Drain();
    }

    /** A synchronous request that comes while its plugin's worker waits is processed before all
        that is queued, and its reply carries its id and the plugin's result. */
    method AnswerNow(q: Queue<Job>, p: nat, m: Message, size: nat, ret: Code, pack: Packing)
      requires Valid() && Shows(q, p) && model.looping && model.net.Idle? && model.plugins[p].worker.Waiting?
      requires Classify(config, m) == Event(true, ForPlugin(p))
      requires size == |model.plugins[p].queue| && !TestsBusy(size)
      modifies this, q, q.Entries
      ensures Valid() && Shows(q, p) && q.Contents() == old(q.Contents())
      ensures replies == old(replies) + [Sent(old(msgTcp), MaskedId(m), Triggered(ret, pack))]
    {
      var job := TakeIn(q, p, m, size, pack);
      var next := ThroughQueue(q, p, job);
      ProcessHere(q, p, next, ret, pack);
    }

    // parse_message, as plugin p's queue sees it, for a request it takes.
    method TakeIn(q: Queue<Job>, p: nat, m: Message, size: nat, pack: Packing) returns (job: Job)
      requires Valid() && Shows(q, p) && model.looping && model.net.Idle?
      requires Classify(config, m) == Event(true, ForPlugin(p))
      requires size == |model.plugins[p].queue| && !TestsBusy(size)
      modifies this
      ensures Valid() && Shows(q, p) && model == Next(old(model), Arrive(Event(true, ForPlugin(p)), true))
      ensures replies == old(replies)
      ensures job == Job(Entry(old(msgTcp), true), MaskedId(m))
      ensures model.net == Holding(job.entry, p) && RightId(config, received, job)
    {
      ghost var s, before := model, received;
      ArriveShape(s, Event(true, ForPlugin(p)), true, size);
      var _, taken := ParseMessage(m, size, true, pack);
      StillShows(q, p, s, before);
      job := taken.value.1;
    }

    // Put in the queue and got at once.
    method ThroughQueue(q: Queue<Job>, p: nat, job: Job) returns (next: Job)
      requires Valid() && Shows(q, p) && job.entry.sync
      requires model.net == Holding(job.entry, p) && RightId(config, received, job)
      requires model.plugins[p].worker.Waiting?
      modifies this`model, q, q.Entries
      ensures Valid() && Shows(q, p) && q.Contents() == old(q.Contents())
      ensures next == job && model.plugins[p].worker == Working(job.entry)
    {
      ghost var jobs := q.Contents();
      ghost var _ := EnqueueLocked(q, p, job);
      SyncGoesFirst(jobs, job);
      var taken := TakeNext(q, p);
      next := taken.value;
    }

    // process_driver, as plugin p's queue sees it.
    method ProcessHere(q: Queue<Job>, p: nat, job: Job, ret: Code, pack: Packing)
      requires Valid() && Shows(q, p) && Enabled(model, Process(p)) && model.plugins[p].worker == Working(job.entry)
      requires RightId(config, received, job)
      modifies this`replies, this`model
      ensures Valid() && model == Next(old(model), Process(p)) && Shows(q, p)
      ensures replies == old(replies) + if job.entry.sync then [Sent(job.entry.serial, job.id, Triggered(ret, pack))] else []
    {
      ghost var s := model;
      QueueElsewhere(s, Process(p), p);
      ProcessDriver(p, job, ret, pack);
      StillShows(q, p, s, received);
    }
  }
}
