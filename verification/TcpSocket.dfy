/** struct tcp_socket and its buffers (event/daemon/tcp.c), updated in place as the source
    does, and proved to do to a connection what TcpFraming says. */
module TcpSocket {
  import opened Bytes
  import opened TcpFraming

  // What recv can return: some bytes, EAGAIN, or end of stream and other errors.
  datatype Received = Data(bytes: seq<Byte>) | Again | Lost

  lemma OneMore(before: seq<Message>, m: Message, rest: Outcome)
    requires before != [] && before[|before| - 1] == m
    ensures before + rest.messages == before[..|before| - 1] + rest.After(m).messages
  {
    assert before == before[..|before| - 1] + [m];
  }

  lemma {:induction false} CanHappenBefore(v: Version, ok: Verdict, chunks: seq<seq<Byte>>, i: nat)
    requires CanHappen(v, ok, chunks) && i <= |chunks|
    ensures CanHappen(v, ok, chunks[..i])
    decreases |chunks|
  {
    var before := chunks[..|chunks|];
    assert before == chunks;
    if i < |chunks| {
      CanHappenBefore(v, ok, chunks[..|chunks| - 1], i);
      assert chunks[..|chunks| - 1][..i] == chunks[..i];
    }
  }

  lemma NextChunk(v: Version, ok: Verdict, chunks: seq<seq<Byte>>, i: nat)
    requires CanHappen(v, ok, chunks) && i < |chunks|
    ensures var c := ReceiveAll(v, ok, chunks[..i]);
            && c.fate.Open? && 0 < |chunks[i]| <= RecvLimit(c.fate.saved)
            && ReceiveAll(v, ok, chunks[..i + 1]) == Receive(v, ok, c, chunks[i])
  {
    CanHappenBefore(v, ok, chunks, i + 1);
    LastChunk(v, ok, chunks[..i + 1]);
    assert chunks[..i + 1][..i] == chunks[..i];
  }

  lemma LastChunk(v: Version, ok: Verdict, chunks: seq<seq<Byte>>)
    requires CanHappen(v, ok, chunks) && chunks != []
    ensures var chunk := chunks[|chunks| - 1]; var c := ReceiveAll(v, ok, chunks[..|chunks| - 1]);
            && c.fate.Open? && 0 < |chunk| <= RecvLimit(c.fate.saved)
            && ReceiveAll(v, ok, chunks) == Receive(v, ok, c, chunk)
  {
  }

  class Socket {
    const version: Version
    const parses: Verdict
    const staticBuf: array<Byte>

    var buf: array?<Byte>
    var pktsize: nat
    var len: nat
    var excess: nat
    var closed: bool
    // Every message handed to parse_message, in order.
    var messages: seq<Message>

    constructor (version: Version, parses: Verdict, staticBuf: array<Byte>)
      requires staticBuf.Length == BUFFER_SIZE
      ensures AtRest() && State() == NEW_CONNECTION && buf == null
      ensures this.version == version && this.parses == parses && this.staticBuf == staticBuf
    {
      this.version, this.parses, this.staticBuf := version, parses, staticBuf;
      buf, pktsize, len, excess := null, 0, 0, 0;
      closed, messages := false, [];
    }

    ghost predicate Shaped()
      reads this
    {
      && staticBuf.Length == BUFFER_SIZE
      && (buf != null ==> buf.Length == BUFFER_SIZE && buf != staticBuf)
    }

    // Between two events: the saved bytes are the beginning of one frame, pktsize says how
    // many bytes to wait for, and no leftovers are pending.
    ghost predicate AtRest()
      reads this, buf
    {
      !closed ==>
        && Shaped() && excess == 0
        && (buf != null ==>
              && 0 < len < pktsize <= MAX_FRAME
              && IsPartial(buf[..len])
              && pktsize == if len < 4 then 4 else SizeField(buf[..len]))
    }

    ghost function State(): Outcome
      requires AtRest()
      reads this, buf
    {
      if closed then Outcome(messages, Closed)
      else Outcome(messages, Open(if buf == null then [] else buf[..len]))
    }

    method Close()
      modifies this`closed
      ensures closed
    {
      closed := true;
    }

    method MoveToFront(b: array<Byte>, from: nat, count: nat)
      requires from + count <= b.Length
      modifies b
      ensures b[..from + count] == Moved(old(b[..from + count]), from)
    {
      forall i | 0 <= i < count {
        b[i] := b[from + i];
      }
    }

    // Keep the n bytes of b as the beginning of a frame of size wanted.
    method SavePartial(b: array<Byte>, n: nat, wanted: nat, memory: bool)
      requires !closed && Shaped() && excess == 0
      requires b == (if buf == null then staticBuf else buf) && 0 < n < wanted <= MAX_FRAME
      requires IsPartial(b[..n]) && wanted == if n < 4 then 4 else SizeField(b[..n])
      modifies this`buf, this`len, this`pktsize, this`closed
      ensures AtRest()
      ensures closed || buf == old(buf) || fresh(buf)
      ensures State().fate == if memory || old(buf) != null then Open(b[..n]) else Closed
    {
      ghost var kept := b[..n];
      if buf == null {
        if !memory {
          Close();
          return;
        }
        buf := new Byte[BUFFER_SIZE];
        forall i | 0 <= i < n {
          buf[i] := b[i];
        }
        assert buf[..n] == b[..n];
      }
      len := n;
      pktsize := wanted;
      assert buf[..len] == kept;
    }

    // The bytes to wait for: the frame size once its field is there, the field itself before.
    method TotalToGet(b: array<Byte>, n: nat) returns (total: nat)
      requires n <= b.Length
      ensures total == if n < 4 then 4 else SizeField(b[..n])
    {
      total := 4;
      if n >= 4 {
        total := Ntohl(b[..4]);
        assert b[..n][..4] == b[..4];
      }
    }

    // Log the message at the front of b and hand it to parse_message.
    method ParseFirst(b: array<Byte>, n: nat) returns (ok: bool)
      requires n <= b.Length && HasWholeFrame(b[..n])
      modifies this`messages
      ensures messages == old(messages) + [FirstMessage(b[..n])] && ok == parses(FirstMessage(b[..n]))
    {
      var total := TotalToGet(b, n);
      var message := b[4..total];
      assert message == FirstMessage(b[..n]);
      messages := messages + [message];
      ok := parses(message);
    }

    // b holds n bytes to be taken as the start of a frame; memory says whether malloc works.
    method ProcessBuf(b: array<Byte>, n: nat, memory: bool)
      requires !closed && Shaped() && excess == 0
      requires b == (if buf == null then staticBuf else buf) && 0 < n <= BUFFER_SIZE
      modifies this, b
      ensures AtRest()
      ensures closed || buf == null || buf == old(buf) || fresh(buf)
      ensures var r := Process(version, parses, memory || old(buf) != null, old(b[..n]));
              messages == old(messages) + r.messages && State().fate == r.fate
      decreases n, 2
    {
      ghost var d := b[..n];
      var totaltoget := TotalToGet(b, n);
      if n >= 4 && (totaltoget > 64 * 1024 || totaltoget <= 8) {
        Close();
        return;
      }
      if totaltoget > n {
        SavePartial(b, n, totaltoget, memory);
        return;
      }
      if totaltoget < n {
        excess := n - totaltoget;
      }
      var ok := ParseFirst(b, n);
      if !ok {
        Close();
        return;
      }
      if totaltoget < n {
        OneMore(messages, FirstMessage(d),
                Process(version, parses, memory || buf != null, NextCall(version, d, totaltoget)));
      }
      Finish(b, n, totaltoget, memory);
    }

    // There are leftovers behind the message: move them to the front and go on.
    method Leftovers(b: array<Byte>, n: nat, total: nat, memory: bool)
      requires !closed && Shaped() && excess == n - total
      requires b == (if buf == null then staticBuf else buf) && 0 < total < n <= BUFFER_SIZE
      modifies this, b
      ensures AtRest()
      ensures closed || buf == null || buf == old(buf) || fresh(buf)
      ensures var r := Process(version, parses, memory || old(buf) != null, NextCall(version, old(b[..n]), total));
              messages == old(messages) + r.messages && State().fate == r.fate
      decreases n, 0
    {
      MoveToFront(b, total, excess);
      len := excess;
      excess := 0;
      var next := match version case AsWritten => total case AsIntended => len;
      assert b[..next] == b[..n][..next];
      ProcessBuf(b, next, memory);
    }

    // The first total of the n bytes of b were a message, parsed and accepted.
    method Finish(b: array<Byte>, n: nat, total: nat, memory: bool)
      requires !closed && Shaped() && excess == n - total
      requires b == (if buf == null then staticBuf else buf) && 0 < total <= n <= BUFFER_SIZE
      modifies this, b
      ensures AtRest()
      ensures closed || buf == null || buf == old(buf) || fresh(buf)
      ensures total == n ==> messages == old(messages) && State().fate == Open([])
      ensures total < n ==>
                var r := Process(version, parses, memory || old(buf) != null, NextCall(version, old(b[..n]), total));
                messages == old(messages) + r.messages && State().fate == r.fate
      decreases n, 1
    {
      if excess != 0 {
        Leftovers(b, n, total, memory);
        return;
      }
      if buf != null {
        buf := null;
        len, pktsize, excess := 0, 0, 0;
      }
    }

    // A new incoming message: recv filled the common buffer.
    method RecvFirst(bytes: seq<Byte>, memory: bool)
      requires !closed && AtRest() && buf == null && 0 < |bytes| <= BUFFER_SIZE
      modifies this, staticBuf
      ensures AtRest()
      ensures closed || buf == null || buf == old(buf) || fresh(buf)
      ensures var p := Process(version, parses, memory, bytes);
              State() == Outcome(old(messages) + p.messages, p.fate)
    {
      forall i | 0 <= i < |bytes| {
        staticBuf[i] := bytes[i];
      }
      assert staticBuf[..|bytes|] == bytes;
      ProcessBuf(staticBuf, |bytes|, memory);
    }

    // A partial message goes on: recv filled up the connection's own buffer.
    method RecvMore(bytes: seq<Byte>, memory: bool)
      requires !closed && AtRest() && buf != null && 0 < |bytes| <= pktsize - len
      modifies this, buf
      ensures AtRest()
      ensures closed || buf == null || buf == old(buf) || fresh(buf)
      ensures var p := Process(version, parses, true, old(buf[..len]) + bytes);
              State() == Outcome(old(messages) + p.messages, p.fate)
    {
      ghost var saved := buf[..len];
      forall i | 0 <= i < |bytes| {
        buf[len + i] := bytes[i];
      }
      assert buf[..len + |bytes|] == saved + bytes;
      len := len + |bytes|;
      ProcessBuf(buf, len, memory);
    }

    method Recv(r: Received, memory: bool)
      requires !closed && AtRest()
      requires r.Data? ==> 0 < |r.bytes| <= RecvLimit(State().fate.saved)
      modifies this, buf, staticBuf
      ensures AtRest()
      ensures closed || buf == null || buf == old(buf) || fresh(buf)
      ensures r.Again? ==> State() == old(State())
      ensures r.Lost? ==> State() == old(State()).(fate := Closed)
      ensures r.Data? && (memory || old(buf) != null) ==>
                State() == Receive(version, parses, old(State()), r.bytes)
      ensures r.Data? && !memory && old(buf) == null ==>
                var p := Process(version, parses, false, r.bytes);
                State() == Outcome(old(messages) + p.messages, p.fate)
    {
      match r
      case Again =>
      case Lost => Close();
      case Data(bytes) =>
        if buf == null {
          assert [] + bytes == bytes;
          RecvFirst(bytes, memory);
        } else {
          RecvMore(bytes, memory);
        }
    }

    /** The events of a new connection, one chunk after the other: what is parsed and saved is
        what receiving the chunks gives, and with the leftover length the frames of the stream. */
    method RecvAll(chunks: seq<seq<Byte>>)
      requires AtRest() && State() == NEW_CONNECTION && CanHappen(version, parses, chunks)
      modifies this, buf, staticBuf
      ensures AtRest() && State() == ReceiveAll(version, parses, chunks)
      ensures version.AsIntended? ==> State() == Frames(parses, Concat(chunks))
    {
      for i := 0 to |chunks|
        invariant AtRest() && State() == ReceiveAll(version, parses, chunks[..i])
        invariant closed || buf == null || buf == old(buf) || fresh(buf)
      {
        NextChunk(version, parses, chunks, i);
        Recv(Data(chunks[i]), true);
      }
      assert chunks[..|chunks|] == chunks;
      if version.AsIntended? {
        ReceivingIsFraming(parses, chunks);
      }
    }
  }
}
