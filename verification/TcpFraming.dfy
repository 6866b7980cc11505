/** Cutting a TCP byte stream into messages (event/daemon/tcp.c): what the stream means,
    and what receiving it piece by piece makes of it.  process_buf is stated in two
    versions, which differ in the length handed to its recursive call. */
module TcpFraming {
  import opened Bytes

  // parse_message's verdict: false makes the caller close the connection.
  type Verdict = Message -> bool

  const MAX_FRAME: nat := 64 * 1024
  // SBSIZE, the size of the receive buffers.
  const BUFFER_SIZE: nat := 68 * 1024

  datatype Fate = Open(saved: seq<Byte>) | Closed

  // The messages handed to parse_message, and how the connection stands after them.
  datatype Outcome = Outcome(messages: seq<Message>, fate: Fate) {
    function After(m: Message): Outcome {
      Outcome([m] + messages, fate)
    }
  }

  predicate LegalSize(n: nat) {
    8 < n <= MAX_FRAME
  }

  function SizeField(d: seq<Byte>): nat
    requires |d| >= 4
  {
    Ntohl(d[..4])
  }

  predicate HasWholeFrame(d: seq<Byte>) {
    |d| >= 4 && LegalSize(SizeField(d)) && SizeField(d) <= |d|
  }

  function FirstMessage(d: seq<Byte>): Message
    requires HasWholeFrame(d)
  {
    d[4..SizeField(d)]
  }

  // ---------- what a stream means ----------

  function Frames(ok: Verdict, d: seq<Byte>): Outcome
    decreases |d|
  {
    if |d| >= 4 && !LegalSize(SizeField(d)) then Outcome([], Closed)
    else if !HasWholeFrame(d) then Outcome([], Open(d))
    else if !ok(FirstMessage(d)) then Outcome([FirstMessage(d)], Closed)
    else Frames(ok, d[SizeField(d)..]).After(FirstMessage(d))
  }

  lemma SizeByBytes(d: seq<Byte>) returns (n: nat)
    requires |d| >= 4
    ensures n == SizeField(d) && n == BigEndian(d[0], d[1], d[2], d[3])
  {
    n := FourBytes(d[..4]);
  }

  /** A stream goes on exactly if the number its first four bytes make, high byte first, is from 9
      to 65536; that many bytes are then its first frame, and its message is what follows the four. */
  lemma SizesExactly(ok: Verdict, d: seq<Byte>)
    requires |d| >= 4
    ensures var n := BigEndian(d[0], d[1], d[2], d[3]);
            && (Frames(ok, d) == Outcome([], Closed) <==> !(9 <= n <= 65536))
            && (9 <= n <= 65536 && n <= |d| ==> Frames(ok, d).messages != [] && Frames(ok, d).messages[0] == d[4..n])
            && (9 <= n <= 65536 && n > |d| ==> Frames(ok, d) == Outcome([], Open(d)))
  {
    var _ := SizeByBytes(d);
  }

  predicate Sendable(m: Message) {
    LegalSize(|m| + 4)
  }

  function Encode(m: Message): seq<Byte>
    requires Sendable(m)
  {
    Htonl(|m| + 4) + m
  }

  function EncodeAll(ms: seq<Message>): seq<Byte>
    requires forall m :: m in ms ==> Sendable(m)
  {
    if ms == [] then [] else Encode(ms[0]) + EncodeAll(ms[1..])
  }

  // The beginning of a frame of legal size.
  predicate IsPartial(d: seq<Byte>) {
    |d| < 4 || (LegalSize(SizeField(d)) && |d| < SizeField(d))
  }

  lemma FrameOfEncoded(m: Message, rest: seq<Byte>)
    requires Sendable(m)
    ensures var d := Encode(m) + rest;
            HasWholeFrame(d) && FirstMessage(d) == m && SizeField(d) == |m| + 4 && d[|m| + 4..] == rest
  {
    var d := Encode(m) + rest;
    assert d[..4] == Htonl(|m| + 4);
    NtohlHtonl(|m| + 4);
  }

  lemma Reassembled(d: seq<Byte>, m: Message, n: nat)
    requires LegalSize(n) && n <= |d| && m == d[4..n] && Htonl(n) == d[..4]
    ensures Sendable(m) && Encode(m) + d[n..] == d
  {
    assert |m| + 4 == n;
    assert d[..4] + d[4..n] + d[n..] == d;
  }

  lemma EncodedFrame(d: seq<Byte>)
    requires HasWholeFrame(d)
    ensures Sendable(FirstMessage(d)) && Encode(FirstMessage(d)) + d[SizeField(d)..] == d
  {
    HtonlNtohl(d[..4]);
    Reassembled(d, FirstMessage(d), SizeField(d));
  }

  lemma EncodeAllCons(m: Message, ms: seq<Message>, rest: seq<Byte>)
    requires Sendable(m) && forall x :: x in ms ==> Sendable(x)
    ensures forall x :: x in [m] + ms ==> Sendable(x)
    ensures EncodeAll([m] + ms) + rest == Encode(m) + (EncodeAll(ms) + rest)
  {
    assert ([m] + ms)[1..] == ms;
  }

  /** Writing messages as frames and cutting the result again gives the messages back, and
      whatever incomplete frame follows them is kept. */
  lemma {:induction false} FramesOfEncoded(ok: Verdict, ms: seq<Message>, part: seq<Byte>)
    requires forall m :: m in ms ==> Sendable(m) && ok(m)
    requires IsPartial(part)
    ensures Frames(ok, EncodeAll(ms) + part) == Outcome(ms, Open(part))
    decreases |ms|
  {
    if ms == [] {
      assert EncodeAll(ms) + part == part;
    } else {
      assert ms[0] in ms && [ms[0]] + ms[1..] == ms;
      EncodeAllCons(ms[0], ms[1..], part);
      FrameOfEncoded(ms[0], EncodeAll(ms[1..]) + part);
      FramesOfEncoded(ok, ms[1..], part);
    }
  }

  /** An open stream is exactly its accepted messages, framed, and the saved rest. */
  lemma {:induction false} FramesLoseNothing(ok: Verdict, d: seq<Byte>)
    ensures var r := Frames(ok, d);
            r.fate.Open? ==>
              && (forall m :: m in r.messages ==> Sendable(m) && ok(m))
              && IsPartial(r.fate.saved)
              && EncodeAll(r.messages) + r.fate.saved == d
    decreases |d|
  {
    if HasWholeFrame(d) && ok(FirstMessage(d)) {
      var rest := d[SizeField(d)..];
      FramesLoseNothing(ok, rest);
      EncodedFrame(d);
      var r := Frames(ok, rest);
      if r.fate.Open? {
        EncodeAllCons(FirstMessage(d), r.messages, r.fate.saved);
      }
    }
  }

  // ---------- process_buf ----------

  // The recursive call as the source has it, with the length of the message just parsed,
  // and as its comment intends it, with the length of the leftovers.
  datatype Version = AsWritten | AsIntended

  // The first |d| bytes of the buffer once the leftovers have been moved to its front.
  function Moved(d: seq<Byte>, n: nat): seq<Byte>
    requires n <= |d|
  {
    d[n..] + d[|d| - n..]
  }

  function NextCall(v: Version, d: seq<Byte>, n: nat): seq<Byte>
    requires n <= |d|
  {
    Moved(d, n)[..if v.AsWritten? then n else |d| - n]
  }

  // room: the bytes are in the connection's own buffer already, or one can be allocated.
  function Process(v: Version, ok: Verdict, room: bool, d: seq<Byte>): Outcome
    decreases |d|
  {
    if |d| >= 4 && !LegalSize(SizeField(d)) then Outcome([], Closed)
    else if !HasWholeFrame(d) then Outcome([], if room then Open(d) else Closed)
    else if !ok(FirstMessage(d)) then Outcome([FirstMessage(d)], Closed)
    else if SizeField(d) == |d| then Outcome([FirstMessage(d)], Open([]))
    else Process(v, ok, room, NextCall(v, d, SizeField(d))).After(FirstMessage(d))
  }

  lemma {:induction false} ProcessIntended(ok: Verdict, d: seq<Byte>)
    ensures Process(AsIntended, ok, true, d) == Frames(ok, d)
    decreases |d|
  {
    if HasWholeFrame(d) && ok(FirstMessage(d)) {
      var n := SizeField(d);
      assert NextCall(AsIntended, d, n) == d[n..];
      if n < |d| {
        ProcessIntended(ok, d[n..]);
      } else {
        assert Frames(ok, d[n..]) == Outcome([], Open([]));
      }
    }
  }

  // ---------- receiving ----------

  // A connection at rest: the messages it has produced, and its fate so far.
  function Receive(v: Version, ok: Verdict, c: Outcome, chunk: seq<Byte>): Outcome {
    if c.fate.Closed? then c
    else
      var r := Process(v, ok, true, c.fate.saved + chunk);
      Outcome(c.messages + r.messages, r.fate)
  }

  const NEW_CONNECTION := Outcome([], Open([]))

  function ReceiveAll(v: Version, ok: Verdict, chunks: seq<seq<Byte>>): Outcome {
    if chunks == [] then NEW_CONNECTION
    else Receive(v, ok, ReceiveAll(v, ok, chunks[..|chunks| - 1]), chunks[|chunks| - 1])
  }

  lemma SameFrame(d: seq<Byte>, more: seq<Byte>)
    ensures |d| >= 4 ==> SizeField(d + more) == SizeField(d)
    ensures HasWholeFrame(d) ==>
              && HasWholeFrame(d + more) && FirstMessage(d + more) == FirstMessage(d)
              && (d + more)[SizeField(d)..] == d[SizeField(d)..] + more
  {
    assert |d| >= 4 ==> (d + more)[..4] == d[..4];
  }

  function Then(r: Outcome, s: Outcome): Outcome {
    if r.fate.Closed? then r else Outcome(r.messages + s.messages, s.fate)
  }

  lemma AfterThen(m: Message, r: Outcome, s: Outcome)
    ensures Then(r, s).After(m) == Then(r.After(m), s)
  {
    assert [m] + (r.messages + s.messages) == [m] + r.messages + s.messages;
  }

  function ThenFrames(ok: Verdict, r: Outcome, more: seq<Byte>): Outcome {
    if r.fate.Closed? then r else Then(r, Frames(ok, r.fate.saved + more))
  }

  // Cutting a stream in two and saving the incomplete end of the first part is harmless.
  lemma {:induction false} FramesInTwo(ok: Verdict, d: seq<Byte>, more: seq<Byte>) returns (all: Outcome)
    ensures all == Frames(ok, d + more)
    ensures all == ThenFrames(ok, Frames(ok, d), more)
    decreases |d|
  {
    SameFrame(d, more);
    all := Frames(ok, d + more);
    var r := Frames(ok, d);
    if HasWholeFrame(d) && ok(FirstMessage(d)) {
      var rest := d[SizeField(d)..];
      var _ := FramesInTwo(ok, rest, more);
      var tail := Frames(ok, rest);
      if tail.fate.Open? {
        AfterThen(FirstMessage(d), tail, Frames(ok, tail.fate.saved + more));
      }
    } else if r.fate.Open? {
      assert r == Outcome([], Open(d));
      assert [] + all.messages == all.messages;
    }
  }

  /** However the network cuts the stream, the messages parsed are those of the stream, and
      what is saved is its unconsumed end: for the recursive call as intended. */
  lemma {:induction false} ReceivingIsFraming(ok: Verdict, chunks: seq<seq<Byte>>)
    ensures ReceiveAll(AsIntended, ok, chunks) == Frames(ok, Concat(chunks))
    decreases |chunks|
  {
    if chunks != [] {
      var before, chunk := chunks[..|chunks| - 1], chunks[|chunks| - 1];
      ReceivingIsFraming(ok, before);
      var _ := FramesInTwo(ok, Concat(before), chunk);
      var c := Frames(ok, Concat(before));
      if c.fate.Open? {
        ProcessIntended(ok, c.fate.saved + chunk);
      }
    }
  }

  // ---------- the recursive call as written ----------

  // What recv may return next: anything up to the room it is given, which is the whole
  // static buffer, or just enough to complete the size field or the message.
  function RecvLimit(saved: seq<Byte>): int {
    if saved == [] then BUFFER_SIZE
    else (if |saved| < 4 then 4 else SizeField(saved)) - |saved|
  }

  /** The first recv may fill 68 KiB; a later one stops at the end of the size field or the frame. */
  lemma RecvLimits(saved: seq<Byte>)
    ensures saved == [] ==> RecvLimit(saved) == 69632
    ensures 0 < |saved| < 4 ==> RecvLimit(saved) == 4 - |saved|
    ensures |saved| >= 4 ==>
              RecvLimit(saved) == BigEndian(saved[0], saved[1], saved[2], saved[3]) - |saved|
  {
    if |saved| >= 4 {
      var _ := SizeByBytes(saved);
    }
  }

  ghost predicate CanHappen(v: Version, ok: Verdict, chunks: seq<seq<Byte>>) {
    chunks == [] ||
    (var before, chunk := chunks[..|chunks| - 1], chunks[|chunks| - 1];
     && CanHappen(v, ok, before)
     && var c := ReceiveAll(v, ok, before);
        c.fate.Open? && 0 < |chunk| <= RecvLimit(c.fate.saved))
  }

  // At every moment of every run on the stream d, the connection is where it should be.
  ghost predicate HandlesEveryCut(v: Version, ok: Verdict, d: seq<Byte>) {
    forall chunks :: CanHappen(v, ok, chunks) && Concat(chunks) <= d ==>
      ReceiveAll(v, ok, chunks) == Frames(ok, Concat(chunks))
  }

  // Something follows the first message, and that message is accepted.
  predicate Continues(ok: Verdict, d: seq<Byte>) {
    HasWholeFrame(d) && ok(FirstMessage(d)) && SizeField(d) < |d|
  }

  lemma RestOf(p: seq<Byte>, d: seq<Byte>) returns (rest: seq<Byte>)
    requires p <= d
    ensures p + rest == d && (rest == [] ==> p == d)
  {
    rest := d[|p|..];
  }

  lemma PrefixOfLone(ok: Verdict, p: seq<Byte>, rest: seq<Byte>)
    requires !Continues(ok, p + rest) && HasWholeFrame(p) && ok(FirstMessage(p))
    ensures rest == [] && SizeField(p) == |p|
  {
    SameFrame(p, rest);
  }

  lemma {:induction false} LoneMessageIsSafe(ok: Verdict, d: seq<Byte>, chunks: seq<seq<Byte>>)
    requires !Continues(ok, d) && CanHappen(AsWritten, ok, chunks) && Concat(chunks) <= d
    ensures ReceiveAll(AsWritten, ok, chunks) == Frames(ok, Concat(chunks))
    decreases |chunks|
  {
    if chunks != [] {
      var before, chunk := chunks[..|chunks| - 1], chunks[|chunks| - 1];
      var p, e := Concat(before), Concat(chunks);
      assert e == p + chunk && e[..|p|] == p;
      LoneMessageIsSafe(ok, d, before);
      if HasWholeFrame(p) && ok(FirstMessage(p)) {
        var rest := RestOf(p, d);
        PrefixOfLone(ok, p, rest);
      }
      assert Frames(ok, p) == Outcome([], Open(p));
      if HasWholeFrame(e) && ok(FirstMessage(e)) {
        var rest := RestOf(e, d);
        PrefixOfLone(ok, e, rest);
        assert Frames(ok, e[SizeField(e)..]) == Outcome([], Open([]));
      }
      assert [] + Process(AsWritten, ok, true, e).messages == Process(AsWritten, ok, true, e).messages;
    }
  }

  // One byte of the next message in the same recv as the whole of the first.
  lemma OneByteMore(ok: Verdict, d: seq<Byte>) returns (e: seq<Byte>)
    requires Continues(ok, d)
    ensures e <= d && |e| == SizeField(d) + 1
    ensures HasWholeFrame(e) && FirstMessage(e) == FirstMessage(d) && SizeField(e) == SizeField(d)
    ensures Frames(ok, e) == Outcome([FirstMessage(d)], Open([d[SizeField(d)]]))
  {
    var n := SizeField(d);
    e := d[..n + 1];
    assert e[..4] == d[..4];
    assert FirstMessage(e) == FirstMessage(d);
    assert e[n..] == [d[n]];
    assert Frames(ok, e[n..]) == Outcome([], Open([d[n]]));
  }

  lemma OneChunk(v: Version, ok: Verdict, e: seq<Byte>)
    requires 0 < |e| <= BUFFER_SIZE
    ensures CanHappen(v, ok, [e]) && Concat([e]) == e && ReceiveAll(v, ok, [e]) == Process(v, ok, true, e)
  {
    var chunks := [e];
    assert chunks[..0] == [] && chunks[0] == e;
    assert CanHappen(v, ok, chunks[..0]);
    assert ReceiveAll(v, ok, chunks[..0]) == NEW_CONNECTION && Concat(chunks[..0]) == [];
    assert [] + e == e;
    var r := Process(v, ok, true, e);
    assert [] + r.messages == r.messages;
  }

  lemma WrittenMisreads(ok: Verdict, e: seq<Byte>, extra: Byte)
    requires HasWholeFrame(e) && ok(FirstMessage(e)) && |e| == SizeField(e) + 1
    ensures Process(AsWritten, ok, true, e) != Outcome([FirstMessage(e)], Open([extra]))
  {
    var again := NextCall(AsWritten, e, SizeField(e));
    assert |again| == SizeField(e) > 1;
    var r := Process(AsWritten, ok, true, again);
    assert Process(AsWritten, ok, true, e) == r.After(FirstMessage(e));
    if r.messages == [] && r.fate.Open? {
      assert r.fate.saved == again;
    }
  }

  lemma WrittenGoesWrong(ok: Verdict, d: seq<Byte>)
    requires Continues(ok, d)
    ensures !HandlesEveryCut(AsWritten, ok, d)
  {
    var e := OneByteMore(ok, d);
    OneChunk(AsWritten, ok, e);
    WrittenMisreads(ok, e, d[SizeField(d)]);
  }

  /** As written, the call handles a stream however it is cut exactly when nothing follows
      the first accepted message. */
  lemma WrittenHandlesExactly(ok: Verdict, d: seq<Byte>)
    ensures HandlesEveryCut(AsWritten, ok, d) <==> !Continues(ok, d)
  {
    if Continues(ok, d) {
      WrittenGoesWrong(ok, d);
    } else {
      forall chunks | CanHappen(AsWritten, ok, chunks) && Concat(chunks) <= d
        ensures ReceiveAll(AsWritten, ok, chunks) == Frames(ok, Concat(chunks))
      {
        LoneMessageIsSafe(ok, d, chunks);
      }
    }
  }

  lemma SmallSize(b: seq<Byte>)
    requires |b| == 4 && Ntohl(b) <= MAX_FRAME
    ensures b[0] == 0
  {
    var _ := FourBytes(b);
  }

  lemma OneAndZero(ok: Verdict, d: seq<Byte>)
    requires HasWholeFrame(d) && ok(FirstMessage(d)) && |d| == SizeField(d) + 1 && d[SizeField(d)] == 0
    ensures Frames(ok, d) == Outcome([FirstMessage(d)], Open([0]))
  {
    var rest := d[SizeField(d)..];
    assert rest == [0];
    assert Frames(ok, rest) == Outcome([], Open([0]));
  }

  // The same bytes but the last, for which the first byte of the frame, a zero, stands.
  lemma SameAgain(d: seq<Byte>) returns (again: seq<Byte>)
    requires HasWholeFrame(d) && |d| == SizeField(d) + 1 && d[SizeField(d)] == 0
    ensures again == NextCall(AsWritten, d, SizeField(d))
    ensures HasWholeFrame(again) && FirstMessage(again) == FirstMessage(d) && SizeField(again) == |again|
  {
    var n := SizeField(d);
    SmallSize(d[..4]);
    again := NextCall(AsWritten, d, n);
    assert again == d[..n];
    assert again[..4] == d[..4];
  }

  /** What goes wrong: when the first byte of the next frame arrives together with an accepted
      message, that message is parsed twice and the byte is lost. */
  lemma WrittenParsesTwice(ok: Verdict, d: seq<Byte>)
    requires HasWholeFrame(d) && ok(FirstMessage(d)) && |d| == SizeField(d) + 1
    requires d[SizeField(d)] == 0
    ensures Process(AsWritten, ok, true, d) == Outcome([FirstMessage(d), FirstMessage(d)], Open([]))
    ensures Frames(ok, d) == Outcome([FirstMessage(d)], Open([0]))
  {
    OneAndZero(ok, d);
    var again := SameAgain(d);
    assert Process(AsWritten, ok, true, again) == Outcome([FirstMessage(d)], Open([]));
  }

  // ---------- where the two calls do the same ----------

  // What process_buf is called with, one call after the other.
  function CallsOf(v: Version, ok: Verdict, d: seq<Byte>): seq<seq<Byte>>
    decreases |d|
  {
    if HasWholeFrame(d) && ok(FirstMessage(d)) && SizeField(d) < |d|
    then [d] + CallsOf(v, ok, NextCall(v, d, SizeField(d)))
    else [d]
  }

  // Each buffer ends with its message, or its leftovers are as long as the message.
  predicate Halves(ok: Verdict, d: seq<Byte>)
    decreases |d|
  {
    HasWholeFrame(d) && ok(FirstMessage(d)) && SizeField(d) < |d| ==>
      |d| == 2 * SizeField(d) && Halves(ok, d[SizeField(d)..])
  }

  lemma SameCall(d: seq<Byte>, n: nat)
    requires n <= |d|
    ensures NextCall(AsIntended, d, n) == d[n..]
    ensures |d| == 2 * n ==> NextCall(AsWritten, d, n) == d[n..]
    ensures |NextCall(AsWritten, d, n)| == n
  {
  }

  /** The recursion as written is called with the same bytes as the intended one exactly then. */
  lemma {:induction false} SameCallsExactly(ok: Verdict, d: seq<Byte>)
    ensures CallsOf(AsWritten, ok, d) == CallsOf(AsIntended, ok, d) <==> Halves(ok, d)
    decreases |d|
  {
    if HasWholeFrame(d) && ok(FirstMessage(d)) && SizeField(d) < |d| {
      var n := SizeField(d);
      SameCall(d, n);
      var written, intended := CallsOf(AsWritten, ok, d), CallsOf(AsIntended, ok, d);
      assert written[1..] == CallsOf(AsWritten, ok, NextCall(AsWritten, d, n));
      assert intended[1..] == CallsOf(AsIntended, ok, d[n..]);
      if |d| == 2 * n {
        SameCallsExactly(ok, d[n..]);
        assert written == intended <==> written[1..] == intended[1..];
      } else {
        assert |written[1]| == n && |intended[1]| == |d| - n;
      }
    }
  }

  lemma {:induction false} HalvesProcess(ok: Verdict, d: seq<Byte>)
    requires Halves(ok, d)
    ensures Process(AsWritten, ok, true, d) == Frames(ok, d)
    decreases |d|
  {
    ProcessIntended(ok, d);
    if HasWholeFrame(d) && ok(FirstMessage(d)) && SizeField(d) < |d| {
      SameCall(d, SizeField(d));
      HalvesProcess(ok, d[SizeField(d)..]);
      ProcessIntended(ok, d[SizeField(d)..]);
    }
  }

  // Every buffer of the run is like that.
  predicate RunHalves(ok: Verdict, chunks: seq<seq<Byte>>) {
    chunks == [] ||
    (var before, chunk := chunks[..|chunks| - 1], chunks[|chunks| - 1];
     && RunHalves(ok, before)
     && var c := Frames(ok, Concat(before));
        c.fate.Open? ==> Halves(ok, c.fate.saved + chunk))
  }

  /** A run in which the two never differ parses the messages of the stream, as written. */
  lemma {:induction false} WrittenRunIsFraming(ok: Verdict, chunks: seq<seq<Byte>>)
    requires RunHalves(ok, chunks)
    ensures ReceiveAll(AsWritten, ok, chunks) == Frames(ok, Concat(chunks))
    decreases |chunks|
  {
    if chunks != [] {
      var before, chunk := chunks[..|chunks| - 1], chunks[|chunks| - 1];
      WrittenRunIsFraming(ok, before);
      var _ := FramesInTwo(ok, Concat(before), chunk);
      var c := Frames(ok, Concat(before));
      if c.fate.Open? {
        HalvesProcess(ok, c.fate.saved + chunk);
      }
    }
  }
}
