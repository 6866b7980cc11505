/** The table of plugins (event/daemon/mevent.c): chains of entries, doubly linked, picked by
    a hash of the plugin's name; new entries join at the front of their chain. */
module DriverTable {
  import opened Bits
  import opened Bytes

  // ---------- the hash ----------

  function Stir(h: Word, b: Byte): Word {
    var h1 := Add32(h, b);
    var h2 := Add32(h1, ShiftLeft(h1, 10));
    Xor32(h2, ShiftRight(h2, 6))
  }

  function StirAll(key: seq<Byte>): Word {
    if key == [] then 0 else Stir(StirAll(key[..|key| - 1]), key[|key| - 1])
  }

  function HashOf(key: seq<Byte>): Word {
    var h := StirAll(key);
    var h1 := Add32(h, ShiftLeft(h, 3));
    var h2 := Xor32(h1, ShiftRight(h1, 11));
    Add32(h2, ShiftLeft(h2, 15))
  }

  lemma Shifted(h: Word, s: nat) returns (w: Word)
    requires s <= 32
    ensures w == ShiftLeft(h, s) && w == h * Pow2(s) % 0x1_0000_0000
  {
    ShiftLeftIs(h, s);
    w := ShiftLeft(h, s);
  }

  lemma OneMore(h: nat, p: nat) returns (y: nat)
    ensures y == h * p && y + h == h * (p + 1)
  {
    y := h * p;
  }

  lemma SumMod(w: nat, y: nat, h: nat)
    requires w == y % 0x1_0000_0000
    ensures (h + w) % 0x1_0000_0000 == (y + h) % 0x1_0000_0000
  {
  }

  lemma TimesPower(h: Word, s: nat, p: nat) returns (u: Word)
    requires s <= 32 && p == Pow2(s)
    ensures u == Add32(h, ShiftLeft(h, s)) && u == h * (p + 1) % 0x1_0000_0000
  {
    var w := Shifted(h, s);
    var y := OneMore(h, p);
    SumMod(w, y, h);
    u := Add32(h, w);
  }

  lemma Powers()
    ensures Pow2(3) == 8 && Pow2(6) == 64 && Pow2(10) == 1024 && Pow2(11) == 2048 && Pow2(15) == 32768
  {
  }

  /** Each byte is added, the sum multiplied by 1025, and its 64th part put over it; at the end it is
      multiplied by 9, its 2048th part put over it, and multiplied by 32769: all in 32 bits. */
  lemma HashIs(key: seq<Byte>, b: Byte) returns (u: Word, v: Word)
    ensures StirAll([]) == 0
    ensures u == (StirAll(key) + b) % 0x1_0000_0000 * 1025 % 0x1_0000_0000
    ensures StirAll(key + [b]) == Xor32(u, u / 64)
    ensures v == StirAll(key) * 9 % 0x1_0000_0000
    ensures HashOf(key) == Xor32(v, v / 2048) * 32769 % 0x1_0000_0000
  {
    Powers();
    assert (key + [b])[..|key|] == key;
    u := TimesPower(Add32(StirAll(key), b), 10, 1024);
    ShiftRightIs(u, 6);
    v := TimesPower(StirAll(key), 3, 8);
    ShiftRightIs(v, 11);
    var _ := TimesPower(Xor32(v, ShiftRight(v, 11)), 15, 32768);
  }

  method Hash(key: seq<Byte>) returns (h: Word)
    ensures h == HashOf(key)
  {
    h := 0;
    for i := 0 to |key|
      invariant h == StirAll(key[..i])
    {
      assert key[..i + 1][..i] == key[..i];
      h := Add32(h, key[i]);
      h := Add32(h, ShiftLeft(h, 10));
      h := Xor32(h, ShiftRight(h, 6));
    }
    assert key[..|key|] == key;
    h := Add32(h, ShiftLeft(h, 3));
    h := Xor32(h, ShiftRight(h, 11));
    h := Add32(h, ShiftLeft(h, 15));
  }

  // ---------- searching ----------

  class EventEntry {
    const name: seq<Byte>
    var prev: EventEntry?
    var next: EventEntry?

    constructor (name: seq<Byte>)
      ensures this.name == name && prev == null && next == null
    {
      this.name := name;
      prev, next := null, null;
    }
  }

  // The first entry of that name.
  function Search(es: seq<EventEntry>, name: seq<Byte>): EventEntry? {
    if es == [] then null else if es[0].name == name then es[0] else Search(es[1..], name)
  }

  /** Search finds the newest entry of the name, and nothing only if there is none. */
  lemma {:induction false} SearchFindsNewest(es: seq<EventEntry>, name: seq<Byte>)
    ensures Search(es, name) == null <==> forall i :: 0 <= i < |es| ==> es[i].name != name
    ensures Search(es, name) != null ==>
              exists i :: 0 <= i < |es| && es[i] == Search(es, name) && es[i].name == name && NoneBefore(es, i, name)
    decreases |es|
  {
    if es != [] && es[0].name != name {
      SearchFindsNewest(es[1..], name);
      assert forall i :: 0 < i < |es| ==> es[i] == es[1..][i - 1];
      if Search(es[1..], name) != null {
        var k :| 0 <= k < |es| - 1 && es[1..][k] == Search(es[1..], name) && es[1..][k].name == name
                 && NoneBefore(es[1..], k, name);
        assert es[k + 1] == Search(es, name) && NoneBefore(es, k + 1, name);
      }
    } else if es != [] {
      assert NoneBefore(es, 0, name);
    }
  }

  predicate NoneBefore(es: seq<EventEntry>, i: nat, name: seq<Byte>)
    requires i <= |es|
  {
    forall j :: 0 <= j < i ==> es[j].name != name
  }

  function Bucket(name: seq<Byte>, hashlen: nat): nat
    requires hashlen > 0
  {
    HashOf(name) % hashlen
  }

  // The entries whose names fall in bucket b, in the same order.
  function InBucket(es: seq<EventEntry>, hashlen: nat, b: nat): seq<EventEntry>
    requires hashlen > 0
  {
    if es == [] then []
    else if Bucket(es[0].name, hashlen) == b then [es[0]] + InBucket(es[1..], hashlen, b)
    else InBucket(es[1..], hashlen, b)
  }

  /** Looking through a name's own bucket finds what looking through everything finds. */
  lemma {:induction false} BucketSearch(es: seq<EventEntry>, hashlen: nat, name: seq<Byte>)
    requires hashlen > 0
    ensures Search(InBucket(es, hashlen, Bucket(name, hashlen)), name) == Search(es, name)
    decreases |es|
  {
    if es != [] {
      BucketSearch(es[1..], hashlen, name);
      var b := Bucket(name, hashlen);
      if Bucket(es[0].name, hashlen) == b {
        var all := InBucket(es, hashlen, b);
        assert all[0] == es[0] && all[1..] == InBucket(es[1..], hashlen, b);
      }
    }
  }

  lemma {:induction false} BucketMembers(es: seq<EventEntry>, hashlen: nat, b: nat, e: EventEntry)
    requires hashlen > 0
    ensures e in InBucket(es, hashlen, b) <==> e in es && Bucket(e.name, hashlen) == b
    decreases |es|
  {
    if es != [] {
      BucketMembers(es[1..], hashlen, b, e);
      assert e in es <==> e == es[0] || e in es[1..];
    }
  }

  lemma NotInFront(es: seq<EventEntry>, hashlen: nat, b': nat, b: nat, e: EventEntry)
    requires hashlen > 0 && b' != b
    requires e in InBucket(es, hashlen, b')
    ensures e in es
    ensures InBucket(es, hashlen, b) != [] ==> e != InBucket(es, hashlen, b)[0]
  {
    BucketMembers(es, hashlen, b', e);
    BucketMembers(es, hashlen, b, e);
  }

  lemma BucketOfOneMore(es: seq<EventEntry>, hashlen: nat, b: nat, e: EventEntry)
    requires hashlen > 0
    ensures InBucket([e] + es, hashlen, b)
         == if Bucket(e.name, hashlen) == b then [e] + InBucket(es, hashlen, b) else InBucket(es, hashlen, b)
  {
    assert ([e] + es)[1..] == es;
  }

  function TotalIn(es: seq<EventEntry>, hashlen: nat, below: nat): nat
    requires hashlen > 0
  {
    if below == 0 then 0 else TotalIn(es, hashlen, below - 1) + |InBucket(es, hashlen, below - 1)|
  }

  lemma {:induction false} TotalOneMore(es: seq<EventEntry>, hashlen: nat, below: nat)
    requires hashlen > 0 && es != []
    ensures TotalIn(es, hashlen, below)
         == TotalIn(es[1..], hashlen, below) + if Bucket(es[0].name, hashlen) < below then 1 else 0
    decreases below
  {
    if below > 0 {
      TotalOneMore(es, hashlen, below - 1);
    }
  }

  lemma {:induction false} TotalOfNone(hashlen: nat, below: nat)
    requires hashlen > 0
    ensures TotalIn([], hashlen, below) == 0
    decreases below
  {
    if below > 0 {
      TotalOfNone(hashlen, below - 1);
    }
  }

  /** The chains together hold every registered driver once. */
  lemma {:induction false} ChainsHoldAll(es: seq<EventEntry>, hashlen: nat)
    requires hashlen > 0
    ensures TotalIn(es, hashlen, hashlen) == |es|
    decreases |es|
  {
    if es == [] {
      TotalOfNone(hashlen, hashlen);
    } else {
      ChainsHoldAll(es[1..], hashlen);
      TotalOneMore(es, hashlen, hashlen);
    }
  }

  // ---------- chains ----------

  class EventChain {
    var len: nat
    var first: EventEntry?
    var last: EventEntry?
    ghost var Entries: seq<EventEntry>

    constructor ()
      ensures Valid() && Entries == []
    {
      len := 0;
      first, last := null, null;
      Entries := [];
    }

    ghost predicate Valid()
      reads this, Entries
    {
      && len == |Entries|
      && (Entries == [] ==> first == null)
      && (Entries != [] ==>
            && first == Entries[0] && first.prev == null
            && last == Entries[|Entries| - 1] && last.next == null)
      && (forall i, j :: 0 <= i < j < |Entries| ==> Entries[i] != Entries[j])
      && (forall i :: 0 <= i < |Entries| - 1 ==>
            Entries[i].next == Entries[i + 1] && Entries[i + 1].prev == Entries[i])
    }

    method AddFirst(e: EventEntry)
      requires Valid() && e !in Entries && e.prev == null && e.next == null
      modifies this, first, e
      ensures Valid() && Entries == [e] + old(Entries)
      ensures old(Entries) != [] ==> last == old(last)
    {
      if len == 0 {
        first := e;
        last := e;
        len := 1;
      } else {
        e.next := first;
        first.prev := e;
        first := e;
        len := len + 1;
      }
      Entries := [e] + Entries;
    }

    // find_in_chain
    method Find(key: seq<Byte>) returns (e: EventEntry?)
      requires Valid()
      ensures e == Search(Entries, key)
    {
      ghost var i := 0;
      e := first;
      while e != null
        invariant i <= |Entries|
        invariant e == if i < |Entries| then Entries[i] else null
        invariant Search(Entries, key) == Search(Entries[i..], key)
        decreases |Entries| - i
      {
        if |key| == |e.name| && key == e.name {
          return;
        }
        assert Entries[i..][1..] == Entries[i + 1..];
        e := e.next;
        i := i + 1;
      }
    }
  }

  // ---------- the table ----------

  class Mevent {
    const hashlen: nat
    const chainlen: nat
    const table: seq<EventChain>
    // Every driver registered, newest first.
    ghost var Registered: seq<EventEntry>

    constructor (chains: seq<EventChain>, chainlen: nat)
      requires |chains| > 0
      requires forall b :: 0 <= b < |chains| ==> chains[b].Valid() && chains[b].Entries == []
      requires forall b, c :: 0 <= b < c < |chains| ==> chains[b] != chains[c]
      ensures Valid() && Registered == [] && this.chainlen == chainlen && hashlen == |chains| && table == chains
    {
      hashlen, this.chainlen, table := |chains|, chainlen, chains;
      Registered := [];
    }

    ghost predicate Valid()
      reads this, table, Registered
    {
      && hashlen == |table| > 0
      && (forall b, c :: 0 <= b < c < hashlen ==> table[b] != table[c])
      && forall b :: 0 <= b < hashlen ==> ChainShows(b)
    }

    ghost predicate ChainShows(b: nat)
      requires hashlen == |table| > 0 && b < hashlen
      reads this, table, Registered
    {
      && (forall i :: 0 <= i < |table[b].Entries| ==> table[b].Entries[i] in Registered)
      && table[b].Valid()
      && table[b].Entries == InBucket(Registered, hashlen, b)
    }

    // The entries of the other chains are neither in front of chain b nor the new one.
    lemma OthersApart(b: nat, e: EventEntry)
      requires Valid() && b < hashlen && e !in Registered
      ensures forall b', i :: 0 <= b' < hashlen && b' != b && 0 <= i < |table[b'].Entries| ==>
                table[b'].Entries[i] != e && table[b'].Entries[i] != table[b].first
    {
      assert ChainShows(b);
      forall b', i | 0 <= b' < hashlen && b' != b && 0 <= i < |table[b'].Entries|
        ensures table[b'].Entries[i] != e && table[b'].Entries[i] != table[b].first
      {
        assert ChainShows(b');
        NotInFront(Registered, hashlen, b', b, table[b'].Entries[i]);
      }
    }

    // What ChainShows says, in terms of the registered entries.
    lemma ShownAfter(b': nat, b: nat, es: seq<EventEntry>, e: EventEntry)
      requires hashlen == |table| > 0 && b' < hashlen && b < hashlen && b == Bucket(e.name, hashlen)
      requires Registered == [e] + es && table[b'].Valid()
      requires table[b'].Entries == if b' == b then [e] + InBucket(es, hashlen, b) else InBucket(es, hashlen, b')
      ensures ChainShows(b')
    {
      BucketOfOneMore(es, hashlen, b', e);
      forall i | 0 <= i < |table[b'].Entries|
        ensures table[b'].Entries[i] in Registered
      {
        BucketMembers([e] + es, hashlen, b', table[b'].Entries[i]);
      }
    }

    // mevent_start_driver, once the driver has given its entry.
    method StartDriver(e: EventEntry) returns (ok: bool)
      requires Valid() && e !in Registered && e.prev == null && e.next == null
      modifies this, table, Registered, e
      ensures Valid()
      ensures ok <==> |InBucket(old(Registered), hashlen, Bucket(e.name, hashlen))| <= chainlen
      ensures Registered == if ok then [e] + old(Registered) else old(Registered)
    {
      var h := Hash(e.name);
      ghost var b := h % hashlen;
      assert ChainShows(b);
      var c := table[h % hashlen];
      if c.len == 0 || c.len <= chainlen {
        ghost var es := Registered;
        OthersApart(b, e);
        c.AddFirst(e);
        Registered := [e] + Registered;
        ok := true;
        forall b' | 0 <= b' < hashlen
          ensures ChainShows(b')
        {
          assert old(ChainShows(b'));
          ShownAfter(b', b, es, e);
        }
      } else {
        ok := false;
      }
    }

    // find_entry_in_table
    method FindEntry(key: seq<Byte>) returns (e: EventEntry?)
      requires Valid()
      ensures e == Search(Registered, key)
    {
      var h := Hash(key);
      var c := table[h % hashlen];
      assert ChainShows(h % hashlen);
      e := c.Find(key);
      BucketSearch(Registered, hashlen, key);
    }
  }

  lemma OneChain(e: EventEntry, name: seq<Byte>)
    ensures Bucket(name, 1) == 0 && InBucket([], 1, 0) == [] && InBucket([e], 1, 0) == [e]
    ensures Search([], name) == null && Search([e], name) == if e.name == name then e else null
  {
    assert [e][1..] == [];
  }

  // A table of one chain with limit 0, and its first driver.
  method OneDriver(name: seq<Byte>) returns (mevent: Mevent, one: EventEntry, ok: bool)
    ensures ok && fresh(mevent) && fresh(one) && one.name == name
    ensures mevent.Valid() && mevent.Registered == [one] && mevent.chainlen == 0 && mevent.hashlen == 1
    ensures fresh(mevent.table[0])
  {
    var chain := new EventChain();
    mevent := new Mevent([chain], 0);
    one := new EventEntry(name);
    OneChain(one, name);
    ok := mevent.StartDriver(one);
  }

  /** In a table of one chain with limit 0 the second driver is refused; the first stays. */
  method FullChainExample(name: seq<Byte>, other: seq<Byte>)
    returns (first: bool, second: bool, found: EventEntry?, missed: EventEntry?)
    requires other != name
    ensures first && !second
    ensures found != null && found.name == name && missed == null
  {
    var mevent, one;
    mevent, one, first := OneDriver(name);
    var two := new EventEntry(other);
    OneChain(one, other);
    second := mevent.StartDriver(two);
    found := mevent.FindEntry(name);
    missed := mevent.FindEntry(other);
  }
}
