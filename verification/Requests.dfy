/** Reading a request (event/daemon/parse.c): header, name and body, and which of the
    server's arrivals the message is. */
module Requests {
  import opened Wrappers
  import opened Bytes
  import opened Server

  // What the sources leave to headers and libraries not shown: the protocol version, the
  // packet limit, the sync bit of the flags, unpack_hdf, and the table of plugins.
  datatype Config = Config(
    protoVer: nat,
    maxPacket: nat,
    isSync: nat -> bool,
    unpack: (seq<Byte>, nat) -> nat,
    lookup: seq<Byte> -> Option<nat>)

  // hdr & 0x0FFFFFFF and its top four bits.
  const ID_RANGE: nat := 0x1000_0000

  function IdOf(m: Message): (id: nat)
    requires |m| >= 4
    ensures id < ID_RANGE
  {
    Ntohl(m[..4]) % ID_RANGE
  }

  function VersionOf(m: Message): nat
    requires |m| >= 4
  {
    Ntohl(m[..4]) / ID_RANGE
  }

  function Ntohs(m: Message, at: nat): nat
    requires at + 2 <= |m|
  {
    Push(m[at], m[at + 1])
  }

  predicate HeaderOk(c: Config, m: Message) {
    |m| >= 17 && VersionOf(m) == c.protoVer
  }

  predicate OtherVersioned(c: Config, m: Message) {
    |m| >= 17 && VersionOf(m) != c.protoVer
  }

  function NameLength(payload: seq<Byte>): nat
    requires |payload| >= 4
  {
    Ntohl(payload[..4])
  }

  // ---------- the status request ----------

  const STATUS_NAME: string := "Reserve.Status"

  // The name's bytes, with the terminating NUL of a C string literal.
  function LiteralByte(i: nat): int
  {
    if i < |STATUS_NAME| then STATUS_NAME[i] as int else 0
  }

  // strncmp(name, "Reserve.Status", |name|) == 0, from position i on.
  predicate StrncmpEqual(name: seq<Byte>, i: nat)
    decreases |name| - i
  {
    i >= |name|
    || (name[i] == LiteralByte(i) && (name[i] == 0 || StrncmpEqual(name, i + 1)))
  }

  predicate NamesStatus(name: seq<Byte>) {
    StrncmpEqual(name, 0)
  }

  lemma {:induction false} StrncmpFrom(name: seq<Byte>, i: nat)
    requires i <= |name| && i <= |STATUS_NAME|
    ensures StrncmpEqual(name, i)
       <==> (forall j :: i <= j < |name| && j <= |STATUS_NAME| ==> name[j] == LiteralByte(j))
    decreases |name| - i
  {
    assert |STATUS_NAME| == 14;
    assert forall j :: 0 <= j < 14 ==> STATUS_NAME[j] as int != 0;
    if i < |name| && i < 14 {
      StrncmpFrom(name, i + 1);
    }
  }

  /** The status request is recognised by any prefix of its name, down to the empty name, and
      by anything that goes on after the whole name and a zero byte. */
  lemma StatusNames(name: seq<Byte>)
    ensures NamesStatus(name)
       <==> (forall j :: 0 <= j < |name| && j <= |STATUS_NAME| ==> name[j] == LiteralByte(j))
  {
    StrncmpFrom(name, 0);
  }

  // The empty name, and "R".
  lemma StatusNameExample()
    ensures NamesStatus([]) && NamesStatus([0x52])
  {
    StatusNames([]);
    StatusNames([0x52]);
  }

  // ---------- classification ----------

  // rsize + esize is added in 32 bits before the size of the length field is.
  predicate TooLong(c: Config, rsize: nat, esize: nat) {
    (rsize + esize) % TWO_32 + 4 > c.maxPacket
  }

  function ReadBody(c: Config, payload: seq<Byte>): Body
    requires |payload| >= 4
  {
    var esize := NameLength(payload);
    if 4 + esize > |payload| then Undecodable
    else
      var rsize := c.unpack(payload, esize);
      if rsize == 0 || TooLong(c, rsize, esize) || |payload| < esize then Undecodable
      else
        var name := payload[4..4 + esize];
        match c.lookup(name)
        case Some(p) => ForPlugin(p)
        case None => if NamesStatus(name) then StatusQuery else NoPlugin
  }

  function Classify(c: Config, m: Message): Arrival {
    if |m| < 17 then TooShort
    else if VersionOf(m) != c.protoVer then OtherVersion
    else Event(c.isSync(Ntohs(m, 6)), ReadBody(c, m[8..]))
  }

  // ---------- requests as they are laid out ----------

  // n in two bytes and in four, the high byte first.
  function Two(n: nat): (b: seq<Byte>)
    requires n < 0x1_0000
  {
    [n / 0x100, n % 0x100]
  }

  function Four(n: nat): (b: seq<Byte>)
    requires n < 0x1_0000_0000
  {
    Two(n / 0x1_0000) + Two(n % 0x1_0000)
  }

  // What a client puts in a request: the version above the id in four bytes, command and flags
  // in two each, the length of the event's name in four, the name, and what is packed.
  datatype Request = Request(version: nat, id: nat, command: nat, flags: nat, name: seq<Byte>, packed: seq<Byte>) {
    predicate Fits() {
      && version < 16 && id < 0x1000_0000 && command < 0x1_0000 && flags < 0x1_0000 && |name| < 0x1_0000_0000
      && |name| + |packed| >= 5
    }

    function Head(): (b: seq<Byte>)
      requires Fits()
    {
      Four(version * 0x1000_0000 + id) + Two(command) + Two(flags)
    }

    function Payload(): (b: seq<Byte>)
      requires Fits()
    {
      Four(|name|) + name + packed
    }
  }

  lemma FourIsHtonl(n: nat)
    requires n < 0x1_0000_0000
    ensures |Four(n)| == 4 && Ntohl(Four(n)) == n
  {
    var high, low := n / 0x1_0000, n % 0x1_0000;
    assert n == high * 0x1_0000 + low;
    var _ := FourBytes(Four(n));
  }

  lemma PayloadRead(r: Request)
    requires r.Fits()
    ensures var p := r.Payload();
            && |p| == 4 + |r.name| + |r.packed|
            && NameLength(p) == |r.name| && p[4..4 + |r.name|] == r.name
  {
    FourIsHtonl(|r.name|);
    assert r.Payload()[..4] == Four(|r.name|);
  }

  lemma HeadRead(r: Request, payload: seq<Byte>)
    requires r.Fits()
    ensures var m := r.Head() + payload;
            && |m| == 8 + |payload| && m[8..] == payload
            && VersionOf(m) == r.version && IdOf(m) == r.id && Ntohs(m, 6) == r.flags
  {
    var n := r.version * 0x1000_0000 + r.id;
    var m := r.Head() + payload;
    FourIsHtonl(n);
    assert |r.Head()| == 8;
    assert m[..4] == Four(n);
    Divided(n, r.version, r.id);
    assert m[6] == r.flags / 0x100 && m[7] == r.flags % 0x100;
  }

  // The name of the status request and its terminating NUL, byte by byte.
  const STATUS_BYTES: seq<Byte> := [
    0x52, 0x65, 0x73, 0x65, 0x72, 0x76, 0x65, 0x2E, 0x53, 0x74, 0x61, 0x74, 0x75, 0x73, 0x00]

  lemma StatusLiteral(j: nat)
    requires j < 15
    ensures |STATUS_NAME| == 14 && LiteralByte(j) == STATUS_BYTES[j]
  {
  }

  /** The status request is recognised by what its name and NUL begin with, and by what begins
      with them. */
  lemma StatusBytes(name: seq<Byte>)
    ensures NamesStatus(name) <==> name <= STATUS_BYTES || STATUS_BYTES <= name
  {
    StatusNames(name);
    StatusLiteral(0);
    forall j: nat | j < 15
      ensures LiteralByte(j) == STATUS_BYTES[j]
    {
      StatusLiteral(j);
    }
  }

  // What a request is for: broken if nothing can be unpacked or the sum, made in 32 bits, is
  // beyond the limit; else for the plugin of its name; else for the status, or for nobody.
  function AskedBy(c: Config, payload: seq<Byte>, name: seq<Byte>, status: bool): Body {
    var size := c.unpack(payload, |name|);
    if size == 0 || (size + |name|) % 0x1_0000_0000 + 4 > c.maxPacket then Undecodable
    else if c.lookup(name).Some? then ForPlugin(c.lookup(name).value)
    else if status then StatusQuery else NoPlugin
  }

  function Asked(c: Config, r: Request): Body
    requires r.Fits()
  {
    AskedBy(c, r.Payload(), r.name, r.name <= STATUS_BYTES || STATUS_BYTES <= r.name)
  }

  /** A request laid out so is read as what it is: refused for another version, else an event with
      the sync bit of its own flags, for what its own name stands for, and with its own id. */
  lemma RequestIsRead(c: Config, r: Request)
    requires r.Fits()
    ensures var m := r.Head() + r.Payload();
            && Classify(c, m) == (if r.version != c.protoVer then OtherVersion else Event(c.isSync(r.flags), Asked(c, r)))
            && MaskedId(m) == Four(r.id)
  {
    var p := r.Payload();
    HeadRead(r, p);
    PayloadRead(r);
    StatusBytes(r.name);
    NamedBody(c, p, r.name);
    FourOfId(r.Head() + p, r.id);
  }

  lemma NamedBody(c: Config, p: seq<Byte>, name: seq<Byte>)
    requires |p| >= 4 + |name| && NameLength(p) == |name| && p[4..4 + |name|] == name
    ensures ReadBody(c, p) == AskedBy(c, p, name, NamesStatus(name))
  {
  }

  lemma FourOfId(m: Message, id: nat)
    requires |m| >= 4 && IdOf(m) == id
    ensures MaskedId(m) == Four(id)
  {
    var _ := IdBytes(m);
    FourIsHtonl(id);
    Unpacked(Four(id), id);
  }

  /** A message is too short for a request exactly up to 16 bytes. */
  lemma ShortExactly(c: Config, m: Message)
    ensures Classify(c, m) == TooShort <==> |m| <= 16
  {
  }

  /** A request whose name would be longer than what is there is broken. */
  lemma LongNameBroken(c: Config, r: Request, n: nat, rest: seq<Byte>)
    requires r.Fits() && r.version == c.protoVer && |rest| >= 5 && |rest| < n < 0x1_0000_0000
    ensures Classify(c, r.Head() + (Four(n) + rest)) == Event(c.isSync(r.flags), Undecodable)
  {
    var payload := Four(n) + rest;
    FourIsHtonl(n);
    assert payload[..4] == Four(n);
    HeadRead(r, payload);
  }

  // ---------- the id a reply carries ----------

  function MaskedId(m: Message): seq<Byte>
    requires |m| >= 4
  {
    [m[0] % 16, m[1], m[2], m[3]]
  }

  function Reversed(b: seq<Byte>): seq<Byte>
    requires |b| == 4
  {
    [b[3], b[2], b[1], b[0]]
  }

  lemma Divided(n: nat, q: nat, low: nat)
    requires n == q * ID_RANGE + low && low < ID_RANGE
    ensures n / ID_RANGE == q && n % ID_RANGE == low
  {
  }

  // The first byte's upper half stands above the id, the rest is the id.
  lemma HeadNumber(q: nat, r: nat, b1: Byte, b2: Byte, b3: Byte)
    requires r < 16 && 16 * q + r < 256
    ensures Push(Push(Push(16 * q + r, b1), b2), b3) == q * ID_RANGE + Push(Push(Push(r, b1), b2), b3)
    ensures Push(Push(Push(r, b1), b2), b3) < ID_RANGE
  {
  }

  lemma IdAndVersion(m: Message) returns (id: nat)
    requires |m| >= 4
    ensures id == IdOf(m) && id == Ntohl(MaskedId(m))
    ensures VersionOf(m) == m[0] / 16
  {
    var q, r := m[0] / 16, m[0] % 16;
    HeadNumber(q, r, m[1], m[2], m[3]);
    var _ := FourBytes(m[..4]);
    id := FourBytes(MaskedId(m));
    Divided(Ntohl(m[..4]), q, id);
  }

  lemma Unpacked(b: seq<Byte>, n: nat)
    requires |b| == 4 && n == Ntohl(b)
    ensures Htonl(n) == b
  {
    HtonlNtohl(b);
  }

  /** Storing the masked id in network order puts the message's own four bytes back, with the
      version nibble cleared. */
  lemma IdBytes(m: Message) returns (id: nat)
    requires |m| >= 4
    ensures id == IdOf(m) && id < ID_RANGE && Htonl(id) == MaskedId(m)
    ensures VersionOf(m) == m[0] / 16
  {
    id := IdAndVersion(m);
    Unpacked(MaskedId(m), id);
  }

  /** The reply to a message of another version is sent before the id is put in network order,
      so on the little-endian hosts the server is for it comes out reversed; it is right
      exactly when the masked id reads the same both ways. */
  lemma MismatchReplyId(m: Message)
    requires |m| >= 4
    ensures Reversed(Htonl(IdOf(m))) == MaskedId(m) <==> m[0] % 16 == m[3] && m[1] == m[2]
  {
    var _ := IdBytes(m);
    var a, b := Reversed(MaskedId(m)), MaskedId(m);
    assert a == b <==> a[0] == b[0] && a[1] == b[1] && a[2] == b[2] && a[3] == b[3];
  }

  // The number 1 and version 2, where version 1 is wanted.
  lemma MismatchExample(c: Config, m: Message)
    requires |m| == 17 && m[..4] == [0x20, 0, 0, 1] && c.protoVer == 1
    ensures OtherVersioned(c, m) && MaskedId(m) == [0, 0, 0, 1] && Reversed(Htonl(IdOf(m))) == [1, 0, 0, 0]
  {
    assert m[0] == m[..4][0] && m[1] == m[..4][1] && m[2] == m[..4][2] && m[3] == m[..4][3];
    var _ := IdBytes(m);
  }
}
