/** From the requests a client writes to the replies it reads (event/daemon): the parts put
    together, over any cutting of the bytes on the way there and on the way back. */
module Conversation {
  import opened Wrappers
  import opened Bytes
  import opened Server
  import opened ServerInvariant
  import opened Requests
  import opened TcpFraming
  import opened Dispatch
  import opened Replies
  import opened TcpSocket
  import opened Daemon

  // What parse_message returns, as the connection sees it.
  function Accepts(c: Config): TcpFraming.Verdict {
    m => HeaderOk(c, m)
  }

  // How a reply is written: reply codes are numbers, and packed data is some bytes.
  datatype Wire = Wire(number: Code -> nat, packed: nat -> seq<Byte>) {
    function Written(r: Sent): Reply {
      match r.answer
      case Short(code) => Mini(r.id, number(code))
      case WithData(code) => Long(r.id, number(code), packed(r.serial))
    }

    function WrittenAll(rs: seq<Sent>): (ws: seq<Reply>)
      ensures |ws| == |rs| && forall i :: 0 <= i < |rs| ==> ws[i] == Written(rs[i])
    {
      seq(|rs|, i requires 0 <= i < |rs| => Written(rs[i]))
    }
  }

  /** The connection's chunks received on a real socket, and the threads run on the messages that
      come out of it: what the dispatcher has received are the frames of the stream. */
  method Serve(config: Config, plugins: nat, chunks: seq<seq<Byte>>, ts: seq<Turn>)
    returns (socket: Socket, threads: Threads)
    requires CanHappen(AsIntended, Accepts(config), chunks) && CanRun(config, Initial(plugins), ts)
    requires MessagesOf(ts) == ReceiveAll(AsIntended, Accepts(config), chunks).messages
    ensures threads.Valid() && threads.dispatcher.config == config
    ensures threads.dispatcher.model == AfterRun(config, Initial(plugins), ts)
    ensures threads.dispatcher.received == socket.messages == Frames(Accepts(config), Concat(chunks)).messages
  {
    var staticBuf := new Byte[BUFFER_SIZE];
    socket := new Socket(AsIntended, Accepts(config), staticBuf);
    socket.RecvAll(chunks);
    threads := RunFromStart(config, plugins, ts);
  }

  // The replies sent so far, written to the wire.
  method WriteReplies(d: Dispatcher, w: Wire, schedules: seq<Schedule>) returns (connection: Connection)
    requires var ws := w.WrittenAll(d.replies);
             && |schedules| == |ws|
             && forall i :: 0 <= i < |ws| ==> ws[i].Fits() && Room(schedules[i]) >= |ws[i].Layout()|
    ensures forall r :: r in w.WrittenAll(d.replies) ==> r.Fits()
    ensures connection.sent == WireBytes(w.WrittenAll(d.replies))
  {
    connection := new Connection();
    connection.ReplyAll(w.WrittenAll(d.replies), schedules);
  }

  /** Whatever a client sends and however it is cut, the replies it reads are those that were sent,
      and each carries the id of the message it answers, counted among the frames of the stream,
      and says what a verdict on that message asks for. */
  lemma RepliesReachClient(d: Dispatcher, sent: seq<seq<Byte>>, w: Wire, got: seq<seq<Byte>>)
    requires d.Valid() && d.received == ReceiveAll(AsIntended, Accepts(d.config), sent).messages
    requires forall r :: r in w.WrittenAll(d.replies) ==> r.Fits()
    requires Concat(got) == WireBytes(w.WrittenAll(d.replies))
    ensures var ms := Frames(Accepts(d.config), Concat(sent)).messages;
            var read := ReceiveAll(AsIntended, _ => true, got);
            && read.fate == Open([])
            && |read.messages| == |d.replies|
            && forall j :: 0 <= j < |d.replies| ==>
                 && d.replies[j].serial < |ms| == |d.model.verdicts|
                 && CanJudge(Classify(d.config, ms[d.replies[j].serial]), d.model.verdicts[d.replies[j].serial])
                 && Says(d.model.verdicts[d.replies[j].serial], d.replies[j].answer)
                 && Decode(read.messages[j]) == Some(w.Written(d.replies[j]))
                 && CarriesId(d.config, ms[d.replies[j].serial], Decode(read.messages[j]).value.id)
  {
    ReceivingIsFraming(Accepts(d.config), sent);
    RepliesRoundTrip(w.WrittenAll(d.replies), got);
    forall j | 0 <= j < |d.replies|
      ensures d.replies[j].serial < |d.received|
      ensures CarriesId(d.config, d.received[d.replies[j].serial], w.Written(d.replies[j]).id)
    {
      d.RepliesTell(j);
    }
  }

  // A client's messages: they can be framed, have the right version, and differ in their ids.
  predicate WellSent(c: Config, ms: seq<Message>) {
    && (forall i :: 0 <= i < |ms| ==> Sendable(ms[i]) && HeaderOk(c, ms[i]))
    && (forall i, j :: 0 <= i < j < |ms| ==> MaskedId(ms[i]) != MaskedId(ms[j]))
  }

  lemma RequestsArrive(c: Config, ms: seq<Message>, sent: seq<seq<Byte>>)
    requires WellSent(c, ms) && Concat(sent) == EncodeAll(ms)
    ensures ReceiveAll(AsIntended, Accepts(c), sent) == Outcome(ms, Open([]))
  {
    var ok := Accepts(c);
    assert forall m :: m in ms ==> ok(m);
    FramesOfEncoded(ok, ms, []);
    assert EncodeAll(ms) + [] == EncodeAll(ms);
    ReceivingIsFraming(ok, sent);
  }

  // Message j of those read is a reply with that id.
  predicate Answers(read: seq<Message>, j: nat, id: seq<Byte>) {
    j < |read| && Decode(read[j]).Some? && Decode(read[j]).value.id == id
  }

  lemma AnswersBySerial(c: Config, ms: seq<Message>, replies: seq<Sent>, read: seq<Message>, i: nat, j: nat)
    requires WellSent(c, ms) && i < |ms| && |read| == |replies|
    requires j < |replies| ==>
               && replies[j].serial < |ms| && Decode(read[j]).Some?
               && CarriesId(c, ms[replies[j].serial], Decode(read[j]).value.id)
    ensures Answers(read, j, MaskedId(ms[i])) <==> j < |replies| && replies[j].serial == i
  {
    if j < |replies| {
      var k := replies[j].serial;
      assert HeaderOk(c, ms[k]);
      assert k < i ==> MaskedId(ms[k]) != MaskedId(ms[i]);
      assert i < k ==> MaskedId(ms[i]) != MaskedId(ms[k]);
    }
  }

  // A message and the replies to it, where these are told by its id.
  lemma MatchedById(replies: seq<Sent>, read: seq<Message>, i: nat, id: seq<Byte>, due: bool)
    requires forall j: nat :: Answers(read, j, id) <==> j < |replies| && replies[j].serial == i
    requires forall j, k :: 0 <= j < k < |replies| ==> replies[j].serial != replies[k].serial
    requires due <==> exists j :: 0 <= j < |replies| && replies[j].serial == i
    ensures due <==> exists j: nat :: Answers(read, j, id)
    ensures forall j: nat, k: nat :: Answers(read, j, id) && Answers(read, k, id) ==> j == k
  {
    if due {
      var j :| 0 <= j < |replies| && replies[j].serial == i;
      assert Answers(read, j, id);
    }
  }

  /** A client that gives its requests different ids finds, by the id, exactly one reply to each
      request that is due one by then, and none to any other. */
  lemma ClientMatchesById(d: Dispatcher, ms: seq<Message>, sent: seq<seq<Byte>>, w: Wire, got: seq<seq<Byte>>, i: nat)
    requires WellSent(d.config, ms) && Concat(sent) == EncodeAll(ms) && i < |ms|
    requires d.Valid() && d.received == ReceiveAll(AsIntended, Accepts(d.config), sent).messages
    requires forall r :: r in w.WrittenAll(d.replies) ==> r.Fits()
    requires Concat(got) == WireBytes(w.WrittenAll(d.replies))
    ensures var read := ReceiveAll(AsIntended, _ => true, got).messages;
            && (Due(d.model, i) == 1 <==> exists j: nat :: Answers(read, j, MaskedId(ms[i])))
            && forall j: nat, k: nat :: Answers(read, j, MaskedId(ms[i])) && Answers(read, k, MaskedId(ms[i])) ==> j == k
  {
    RequestsArrive(d.config, ms, sent);
    RepliesReachClient(d, sent, w, got);
    ReceivingIsFraming(Accepts(d.config), sent);
    d.AnsweredOnce();
    var read := ReceiveAll(AsIntended, _ => true, got).messages;
    forall j: nat
      ensures Answers(read, j, MaskedId(ms[i])) <==> j < |d.replies| && d.replies[j].serial == i
    {
      AnswersBySerial(d.config, ms, d.replies, read, i, j);
    }
    MatchedById(d.replies, read, i, MaskedId(ms[i]), Due(d.model, i) == 1);
  }
}
