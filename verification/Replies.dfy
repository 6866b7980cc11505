/** Replies on a TCP connection (event/daemon/tcp.c): their layout, the send loop, and the
    round trip back through the framing rule. */
module Replies {
  import opened Wrappers
  import opened Bytes
  import opened TcpFraming

  datatype Reply =
    | Mini(id: seq<Byte>, code: nat)
    | Long(id: seq<Byte>, code: nat, val: seq<Byte>)
  {
    // Four id bytes, a 32-bit code, and a frame of at most 64 KiB.
    predicate Fits() {
      |id| == 4 && code < TWO_32 && (Long? ==> 16 + |val| <= MAX_FRAME)
    }

    // What tcp_reply_mini and tcp_reply_long put in the buffer they send.
    function Layout(): (buf: seq<Byte>)
      requires Fits()
    {
      match this
      case Mini(id, code) => Htonl(12) + id + Htonl(code)
      case Long(id, code, val) => Htonl(4 + 4 + 4 + 4 + |val|) + id + Htonl(code) + Htonl(|val|) + val
    }
  }

  // The bytes of a reply, place by place: its length in all, the id, the code, and then nothing or
  // the value with its length before it.
  predicate Carries(b: seq<Byte>, id: seq<Byte>, code: nat, val: Option<seq<Byte>>) {
    && |b| == 12 + (if val.Some? then 4 + |val.value| else 0)
    && Ntohl(b[0..4]) == |b|
    && b[4..8] == id
    && Ntohl(b[8..12]) == code
    && (val.Some? ==> Ntohl(b[12..16]) == |val.value| && b[16..] == val.value)
  }

  lemma Number(n: nat) returns (b: seq<Byte>)
    requires n < TWO_32
    ensures b == Htonl(n) && |b| == 4 && Ntohl(b) == n
  {
    NtohlHtonl(n);
    b := Htonl(n);
  }

  lemma Places(len: seq<Byte>, id: seq<Byte>, code: seq<Byte>, more: seq<Byte>)
    requires |len| == |id| == |code| == 4
    ensures var b := len + id + code + more;
            |b| == 12 + |more| && b[0..4] == len && b[4..8] == id && b[8..12] == code && b[12..] == more
  {
  }

  lemma ValuePlaces(b: seq<Byte>, size: seq<Byte>, val: seq<Byte>)
    requires |b| >= 12 && |size| == 4 && b[12..] == size + val
    ensures |b| == 16 + |val| && b[12..16] == size && b[16..] == val
  {
    assert |b| == 12 + |b[12..]|;
    assert b[12..][..4] == b[12..16] && b[12..][4..] == b[16..];
    assert (size + val)[..4] == size && (size + val)[4..] == val;
  }

  lemma Together(a: seq<Byte>, b: seq<Byte>, c: seq<Byte>)
    ensures a + b + c == a + (b + c) && a + [] == a
  {
  }

  /** Every byte of a reply has its place. */
  lemma LayoutPlaces(r: Reply)
    requires r.Fits()
    ensures Carries(r.Layout(), r.id, r.code, if r.Long? then Some(r.val) else None)
  {
    var code := Number(r.code);
    if r.Long? {
      var len := Number(4 + 4 + 4 + 4 + |r.val|);
      var size := Number(|r.val|);
      Together(len + r.id + code, size, r.val);
      Places(len, r.id, code, size + r.val);
      ValuePlaces(r.Layout(), size, r.val);
    } else {
      var len := Number(12);
      Together(len + r.id + code, [], []);
      Places(len, r.id, code, []);
    }
  }

  /** A frame's contents are read by those places. */
  lemma DecodePlaces(m: Message, id: seq<Byte>, code: nat, val: Option<seq<Byte>>)
    requires Sendable(m) && Carries(Encode(m), id, code, val)
    ensures Decode(m) == Some(if val.Some? then Long(id, code, val.value) else Mini(id, code))
  {
    var b := Encode(m);
    assert m[..4] == b[4..8] && m[4..8] == b[8..12];
    if val.Some? {
      assert m[8..12] == b[12..16] && m[12..] == b[16..];
    }
  }

  // Reading a frame's contents back as a reply.
  function Decode(m: Message): Option<Reply> {
    if |m| == 8 then Some(Mini(m[..4], Ntohl(m[4..8])))
    else if |m| >= 12 && Ntohl(m[8..12]) == |m| - 12 then Some(Long(m[..4], Ntohl(m[4..8]), m[12..]))
    else None
  }

  function Body(r: Reply): Message
    requires r.Fits()
  {
    match r
    case Mini(id, code) => id + Htonl(code)
    case Long(id, code, val) => id + Htonl(code) + Htonl(|val|) + val
  }

  lemma LayoutIsFrame(r: Reply)
    requires r.Fits()
    ensures Sendable(Body(r)) && r.Layout() == Encode(Body(r))
  {
    match r
    case Mini(id, code) => assert Htonl(12) + id + Htonl(code) == Htonl(12) + (id + Htonl(code));
    case Long(id, code, val) =>
      assert Htonl(16 + |val|) + id + Htonl(code) + Htonl(|val|) + val
          == Htonl(16 + |val|) + (id + Htonl(code) + Htonl(|val|) + val);
  }

  lemma DecodeBody(r: Reply)
    requires r.Fits()
    ensures Decode(Body(r)) == Some(r)
  {
    var m := Body(r);
    NtohlHtonl(r.code);
    assert m[..4] == r.id && m[4..8] == Htonl(r.code);
    if r.Long? {
      NtohlHtonl(|r.val|);
      assert m[8..12] == Htonl(|r.val|) && m[12..] == r.val;
    }
  }

  // ---------- a connection's outgoing bytes ----------

  function WireBytes(rs: seq<Reply>): seq<Byte>
    requires forall r :: r in rs ==> r.Fits()
    decreases |rs|
  {
    if rs == [] then [] else WireBytes(rs[..|rs| - 1]) + rs[|rs| - 1].Layout()
  }

  lemma WireSnoc(out: seq<Byte>, rs: seq<Reply>, i: nat)
    requires i < |rs| && forall r :: r in rs ==> r.Fits()
    ensures out + WireBytes(rs[..i]) + rs[i].Layout() == out + WireBytes(rs[..i + 1])
  {
    assert rs[..i + 1][..i] == rs[..i];
  }

  function Bodies(rs: seq<Reply>): (ms: seq<Message>)
    requires forall r :: r in rs ==> r.Fits()
    ensures |ms| == |rs|
    ensures forall i :: 0 <= i < |rs| ==> ms[i] == Body(rs[i])
  {
    seq(|rs|, i requires 0 <= i < |rs| => Body(rs[i]))
  }

  lemma {:induction false} EncodeAllSnoc(ms: seq<Message>, m: Message)
    requires Sendable(m) && forall x :: x in ms ==> Sendable(x)
    ensures EncodeAll(ms + [m]) == EncodeAll(ms) + Encode(m)
    decreases |ms|
  {
    var all := ms + [m];
    if ms == [] {
      assert all[1..] == [];
    } else {
      assert all[0] == ms[0] && all[1..] == ms[1..] + [m];
      EncodeAllSnoc(ms[1..], m);
    }
  }

  lemma BodiesSnoc(rs: seq<Reply>, r: Reply)
    requires r.Fits() && forall x :: x in rs ==> x.Fits()
    ensures Bodies(rs + [r]) == Bodies(rs) + [Body(r)]
  {
  }

  lemma BodiesSendable(rs: seq<Reply>)
    requires forall r :: r in rs ==> r.Fits()
    ensures forall m :: m in Bodies(rs) ==> Sendable(m)
  {
    forall i | 0 <= i < |rs|
      ensures Sendable(Bodies(rs)[i])
    {
      LayoutIsFrame(rs[i]);
    }
  }

  lemma {:induction false} WireIsFrames(rs: seq<Reply>)
    requires forall r :: r in rs ==> r.Fits()
    ensures forall m :: m in Bodies(rs) ==> Sendable(m)
    ensures WireBytes(rs) == EncodeAll(Bodies(rs))
    decreases |rs|
  {
    BodiesSendable(rs);
    if rs != [] {
      var before, r := rs[..|rs| - 1], rs[|rs| - 1];
      assert rs == before + [r];
      WireIsFrames(before);
      LayoutIsFrame(r);
      BodiesSnoc(before, r);
      EncodeAllSnoc(Bodies(before), Body(r));
    }
  }

  /** Any list of replies, written out and cut again by the framing rule however the bytes
      arrive, gives back the same replies in the same order with nothing left over. */
  lemma RepliesRoundTrip(rs: seq<Reply>, chunks: seq<seq<Byte>>)
    requires forall r :: r in rs ==> r.Fits()
    requires Concat(chunks) == WireBytes(rs)
    ensures var r := ReceiveAll(AsIntended, _ => true, chunks);
            && r.fate == Open([])
            && |r.messages| == |rs|
            && forall i :: 0 <= i < |rs| ==> Decode(r.messages[i]) == Some(rs[i])
  {
    WireIsFrames(rs);
    var ok: Verdict := _ => true;
    FramesOfEncoded(ok, Bodies(rs), []);
    assert EncodeAll(Bodies(rs)) + [] == WireBytes(rs);
    ReceivingIsFraming(ok, chunks);
    forall i | 0 <= i < |rs|
      ensures Decode(Bodies(rs)[i]) == Some(rs[i])
    {
      DecodeBody(rs[i]);
    }
  }

  // ---------- the send loop ----------

  // What the kernel does with successive sends: 0 stands for EAGAIN, n > 0 for room for n
  // more bytes.
  type Schedule = seq<nat>

  function Room(s: Schedule): nat {
    if s == [] then 0 else s[0] + Room(s[1..])
  }

  class Connection {
    // The bytes the kernel has taken so far.
    var sent: seq<Byte>

    constructor ()
      ensures sent == []
    {
      sent := [];
    }

    // One send() of the bytes in b, given the room there is.
    method Send(b: seq<Byte>, room: nat) returns (rv: int)
      modifies this
      ensures room == 0 ==> rv == -1 && sent == old(sent)
      ensures room > 0 ==> rv == (if room < |b| then room else |b|) && sent == old(sent) + b[..rv]
    {
      if room == 0 {
        return -1;
      }
      rv := if room < |b| then room else |b|;
      sent := sent + b[..rv];
    }

    // rep_send: retries while sends would block, goes on after short ones.
    method RepSend(buf: seq<Byte>, schedule: Schedule)
      requires Room(schedule) >= |buf|
      modifies this
      ensures sent == old(sent) + buf
    {
      var left := schedule;
      var c := 0;
      while c < |buf|
        invariant 0 <= c <= |buf| && sent == old(sent) + buf[..c]
        invariant Room(left) >= |buf| - c
        decreases |left|
      {
        var rv := Send(buf[c..], left[0]);
        left := left[1..];
        if rv == |buf| {
          assert c == 0 && buf[0..] == buf;
          return;
        } else if rv < 0 {
          continue;
        }
        assert buf[..c + rv] == buf[..c] + buf[c..][..rv];
        c := c + rv;
      }
    }

    method ReplyMini(id: seq<Byte>, code: nat, schedule: Schedule)
      requires Mini(id, code).Fits() && Room(schedule) >= 12
      modifies this
      ensures sent == old(sent) + Mini(id, code).Layout()
      ensures Carries(sent[|old(sent)|..], id, code, None)
    {
      LayoutPlaces(Mini(id, code));
      var minibuf := Htonl(12) + id + Htonl(code);
      RepSend(minibuf, schedule);
    }

    // val is absent for a miss.
    method ReplyLong(id: seq<Byte>, code: nat, val: Option<seq<Byte>>, schedule: Schedule)
      requires Mini(id, code).Fits() && (val.Some? ==> Long(id, code, val.value).Fits())
      requires Room(schedule) >= if val.Some? then 16 + |val.value| else 12
      modifies this
      ensures sent == old(sent) + match val case None => Mini(id, code).Layout() case Some(v) => Long(id, code, v).Layout()
      ensures Carries(sent[|old(sent)|..], id, code, val)
    {
      LayoutPlaces(match val case None => Mini(id, code) case Some(v) => Long(id, code, v));
      if val.None? {
        ReplyMini(id, code, schedule);
      } else {
        var bsize := 4 + 4 + 4 + 4 + |val.value|;
        var buf := Htonl(bsize) + id + Htonl(code) + Htonl(|val.value|) + val.value;
        RepSend(buf, schedule);
      }
    }

    // One reply after another, each under its own schedule.
    method ReplyAll(rs: seq<Reply>, schedules: seq<Schedule>)
      requires |schedules| == |rs|
      requires forall i :: 0 <= i < |rs| ==> rs[i].Fits() && Room(schedules[i]) >= |rs[i].Layout()|
      modifies this
      ensures sent == old(sent) + WireBytes(rs)
    {
      assert forall r :: r in rs ==> r.Fits();
      for i := 0 to |rs|
        invariant sent == old(sent) + WireBytes(rs[..i])
      {
        WireSnoc(old(sent), rs, i);
        match rs[i] {
          case Mini(id, code) => ReplyMini(id, code, schedules[i]);
          case Long(id, code, val) => ReplyLong(id, code, Some(val), schedules[i]);
        }
      }
      assert rs[..|rs|] == rs;
    }
  }
}
