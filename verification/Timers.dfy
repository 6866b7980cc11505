/** A plugin's timers (event/daemon/common.c, event/daemon/mevent.c): once a second the clock
    walks the list, stopping at the first timer whose timeout is no longer positive; a timer
    that does not repeat gets timeout 0 when it fires. */
module Timers {
  import opened Bytes

  // calls counts how often the timer's function has run.
  datatype Timer = Timer(timeout: int, repeat: bool, calls: nat)

  function Struck(t: Timer, now: nat): Timer
    requires t.timeout > 0
  {
    if now % t.timeout != 0 then t
    else Timer(if t.repeat then t.timeout else 0, t.repeat, t.calls + 1)
  }

  // One walk over the list when the clock shows now.
  function Tick(ts: seq<Timer>, now: nat): (us: seq<Timer>)
    ensures |us| == |ts|
  {
    if ts == [] || ts[0].timeout <= 0 then ts
    else [Struck(ts[0], now)] + Tick(ts[1..], now)
  }

  // The clock counts seconds in 32 bits.
  function Later(clock: nat): (c: nat)
    requires clock < TWO_32
    ensures c < TWO_32
  {
    if clock + 1 == TWO_32 then 0 else clock + 1
  }

  function ClockAt(n: nat): (c: nat)
    ensures c < TWO_32
  {
    if n == 0 then 0 else Later(ClockAt(n - 1))
  }

  // The list after n seconds.
  function AfterTicks(ts: seq<Timer>, n: nat): (us: seq<Timer>)
    ensures |us| == |ts|
  {
    if n == 0 then ts else Tick(AfterTicks(ts, n - 1), ClockAt(n))
  }

  // ---------- how often each timer fires ----------

  // The lesser of n and the timeouts of the timers before timer i that do not repeat.
  function Reach(ts: seq<Timer>, i: nat, n: nat): (r: nat)
    requires i <= |ts|
    requires forall j :: 0 <= j < |ts| ==> ts[j].timeout > 0
  {
    if i == 0 then n
    else
      var r := Reach(ts, i - 1, n);
      if !ts[i - 1].repeat && ts[i - 1].timeout < r then ts[i - 1].timeout else r
  }

  // How many of the clock's first n values are multiples of p.
  function Strikes(n: nat, p: nat): nat
    requires p > 0
  {
    if n == 0 then 0 else Strikes(n - 1, p) + if ClockAt(n) % p == 0 then 1 else 0
  }

  predicate Fresh(ts: seq<Timer>) {
    forall j :: 0 <= j < |ts| ==> 0 < ts[j].timeout < TWO_32 / 2 && ts[j].calls == 0
  }

  // Timer t once r seconds have counted for it.
  function Counted(t: Timer, r: nat): Timer
    requires t.timeout > 0
  {
    if t.repeat then Timer(t.timeout, true, Strikes(r, t.timeout))
    else if t.timeout <= r then Timer(0, false, 1)
    else t
  }

  function Expected(ts: seq<Timer>, i: nat, n: nat): Timer
    requires Fresh(ts) && i < |ts|
  {
    Counted(ts[i], Reach(ts, i, n))
  }

  lemma {:induction false} TickAt(ts: seq<Timer>, now: nat, i: nat)
    requires i < |ts|
    ensures Tick(ts, now)[i]
         == if forall j :: 0 <= j <= i ==> ts[j].timeout > 0 then Struck(ts[i], now) else ts[i]
    decreases i
  {
    if ts[0].timeout > 0 && i > 0 {
      TickAt(ts[1..], now, i - 1);
      assert forall j :: 0 < j <= i ==> ts[j] == ts[1..][j - 1];
    }
  }

  // us is ts with the first i timers struck.
  predicate WalkedTo(ts: seq<Timer>, us: seq<Timer>, i: nat, now: nat) {
    && i <= |ts| == |us|
    && (forall j :: 0 <= j < i ==> ts[j].timeout > 0 && us[j] == Struck(ts[j], now))
    && (forall j :: i <= j < |ts| ==> us[j] == ts[j])
  }

  lemma WalkedOn(ts: seq<Timer>, us: seq<Timer>, i: nat, now: nat)
    requires WalkedTo(ts, us, i, now) && i < |ts| && us[i].timeout > 0
    ensures WalkedTo(ts, us[i := Struck(us[i], now)], i + 1, now)
  {
  }

  lemma TickSoFar(ts: seq<Timer>, us: seq<Timer>, i: nat, now: nat)
    requires WalkedTo(ts, us, i, now) && (i < |ts| ==> ts[i].timeout <= 0)
    ensures us == Tick(ts, now)
  {
    forall j | 0 <= j < |ts|
      ensures us[j] == Tick(ts, now)[j]
    {
      TickAt(ts, now, j);
    }
  }

  lemma AtLeastOne(k: int, p: nat)
    requires k >= 1
    ensures k * p >= p
  {
    assert k * p == (k - 1) * p + p;
  }

  lemma Quotient(p: nat, a: int, b: int, q: int, m: int)
    requires p > 0 && a * p + b == q * p + m && 0 <= b < p && 0 <= m < p
    ensures a == q && b == m
  {
    assert (a - q) * p == m - b;
    if a > q {
      AtLeastOne(a - q, p);
    } else if a < q {
      AtLeastOne(q - a, p);
    }
  }

  lemma NextMultiple(r: nat, p: nat)
    requires p > 0
    ensures (r + 1) / p == r / p + if (r + 1) % p == 0 then 1 else 0
  {
    var q, m := r / p, r % p;
    var a, b := (r + 1) / p, (r + 1) % p;
    if m + 1 == p {
      assert (q + 1) * p == q * p + p;
      Quotient(p, a, b, q + 1, 0);
    } else {
      Quotient(p, a, b, q, m + 1);
    }
  }

  // The clock's turns and what it shows after n seconds.
  lemma TurnsStep(n: nat, q: nat, r: nat)
    requires q == n / TWO_32 && r == n % TWO_32
    ensures (n + 1) / TWO_32 == (if r + 1 == TWO_32 then q + 1 else q)
    ensures (n + 1) % TWO_32 == (if r + 1 == TWO_32 then 0 else r + 1)
  {
  }

  lemma {:induction false} ClockAtIs(n: nat)
    ensures ClockAt(n) == n % TWO_32
  {
    if n > 0 {
      ClockAtIs(n - 1);
      TurnsStep(n - 1, (n - 1) / TWO_32, (n - 1) % TWO_32);
    }
  }

  lemma {:induction false} StrikesInTurns(n: nat, p: nat, q: nat, r: nat, turn: nat)
    requires p > 0 && q == n / TWO_32 && r == n % TWO_32 && turn == (TWO_32 - 1) / p + 1
    ensures Strikes(n, p) == q * turn + r / p
  {
    if n > 0 {
      var q', r' := (n - 1) / TWO_32, (n - 1) % TWO_32;
      StrikesInTurns(n - 1, p, q', r', turn);
      TurnsStep(n - 1, q', r');
      ClockAtIs(n);
      NextStrike(p, q', r', turn);
    } else {
      Quotient(p, 0 / p, 0 % p, 0, 0);
    }
  }

  lemma NextStrike(p: nat, q: nat, r: nat, turn: nat)
    requires p > 0 && r < TWO_32 && turn == (TWO_32 - 1) / p + 1
    ensures r + 1 < TWO_32 ==> q * turn + (r + 1) / p == q * turn + r / p + if (r + 1) % p == 0 then 1 else 0
    ensures r + 1 == TWO_32 ==> (q + 1) * turn + 0 / p == q * turn + r / p + if 0 % p == 0 then 1 else 0
  {
    NextMultiple(r, p);
    Quotient(p, 0 / p, 0 % p, 0, 0);
    assert (q + 1) * turn == q * turn + turn;
  }

  /** A full turn of the clock has one multiple of p for each p it holds and one more for 0. */
  lemma StrikesFormula(n: nat, p: nat)
    requires p > 0
    ensures Strikes(n, p) == n / TWO_32 * ((TWO_32 - 1) / p + 1) + n % TWO_32 / p
  {
    StrikesInTurns(n, p, n / TWO_32, n % TWO_32, (TWO_32 - 1) / p + 1);
  }

  lemma FewStrikes(n: nat, p: nat)
    requires p > 0 && n < TWO_32
    ensures Strikes(n, p) == n / p
  {
    StrikesFormula(n, p);
    assert n / TWO_32 == 0 && n % TWO_32 == n;
  }

  lemma {:induction false} ReachStep(ts: seq<Timer>, i: nat, n: nat)
    requires i <= |ts| && Fresh(ts)
    ensures Reach(ts, i, n) <= n
    ensures (forall j :: 0 <= j < i ==> Expected(ts, j, n).timeout > 0) <==> Reach(ts, i, n + 1) == n + 1
    ensures Reach(ts, i, n + 1) != n + 1 ==> Reach(ts, i, n + 1) == Reach(ts, i, n)
    ensures Reach(ts, i, n + 1) == n + 1 ==> Reach(ts, i, n) == n
    decreases i
  {
    if i > 0 {
      ReachStep(ts, i - 1, n);
      assert (forall j :: 0 <= j < i ==> Expected(ts, j, n).timeout > 0)
        <==> (forall j :: 0 <= j < i - 1 ==> Expected(ts, j, n).timeout > 0) && Expected(ts, i - 1, n).timeout > 0;
    }
  }

  lemma NoMultipleYet(n: nat, p: nat)
    requires 0 < n <= p
    ensures n % p == 0 <==> n == p
  {
    if n < p {
      Quotient(p, n / p, n % p, 0, n);
    } else {
      Quotient(p, n / p, n % p, 1, 0);
    }
  }

  // Before it has turned over, the clock shows the seconds.
  lemma {:induction false} FirstTurn(n: nat)
    requires n < TWO_32
    ensures ClockAt(n) == n
  {
    if n > 0 {
      FirstTurn(n - 1);
    }
  }

  lemma CountedStep(t: Timer, r: nat)
    requires 0 < t.timeout < TWO_32 / 2 && t.calls == 0
    requires Counted(t, r).timeout > 0
    ensures Struck(Counted(t, r), ClockAt(r + 1)) == Counted(t, r + 1)
  {
    if !t.repeat {
      FirstTurn(r + 1);
      NoMultipleYet(r + 1, t.timeout);
    }
  }

  lemma ExpectedStep(ts: seq<Timer>, us: seq<Timer>, i: nat, n: nat)
    requires Fresh(ts) && i < |ts| && |us| == |ts|
    requires forall j :: 0 <= j < |ts| ==> us[j] == Expected(ts, j, n)
    ensures Tick(us, ClockAt(n + 1))[i] == Expected(ts, i, n + 1)
  {
    TickAt(us, ClockAt(n + 1), i);
    ReachStep(ts, i, n);
    if Expected(ts, i, n).timeout > 0 && Reach(ts, i, n + 1) == n + 1 {
      CountedStep(ts[i], n);
    }
  }

  /** After n seconds a timer that repeats has fired once for every multiple of its timeout the
      clock showed, and one that does not has fired once if its time came and never otherwise;
      both only count the seconds up to the first firing of a one-shot timer ahead of it. */
  lemma {:induction false} TimersFire(ts: seq<Timer>, i: nat, n: nat)
    requires Fresh(ts) && i < |ts|
    ensures AfterTicks(ts, n)[i] == Expected(ts, i, n)
    decreases n
  {
    if n == 0 {
      ReachFromNothing(ts, i);
    } else {
      var us := AfterTicks(ts, n - 1);
      forall j | 0 <= j < |ts|
        ensures us[j] == Expected(ts, j, n - 1)
      {
        TimersFire(ts, j, n - 1);
      }
      ExpectedStep(ts, us, i, n - 1);
    }
  }

  lemma {:induction false} ReachFromNothing(ts: seq<Timer>, i: nat)
    requires Fresh(ts) && i <= |ts|
    ensures Reach(ts, i, 0) == 0
    decreases i
  {
    if i > 0 {
      ReachFromNothing(ts, i - 1);
    }
  }

  lemma {:induction false} ReachWithin(ts: seq<Timer>, i: nat, n: nat)
    requires Fresh(ts) && i <= |ts|
    ensures Reach(ts, i, n) <= n
    ensures forall j :: 0 <= j < i && !ts[j].repeat ==> Reach(ts, i, n) <= ts[j].timeout
    ensures Reach(ts, i, n) == n || exists j :: 0 <= j < i && !ts[j].repeat && Reach(ts, i, n) == ts[j].timeout
    decreases i
  {
    if i > 0 {
      ReachWithin(ts, i - 1, n);
    }
  }

  lemma Alone(t: Timer, n: nat)
    requires 0 < t.timeout < TWO_32 / 2 && t.calls == 0
    ensures AfterTicks([t], n)[0] == Counted(t, n)
  {
    TimersFire([t], 0, n);
  }

  /** A timer is after n seconds as it would be alone after those seconds only that came before
      a one-shot timer ahead of it had fired. */
  lemma EverySecondCounts(ts: seq<Timer>, i: nat, n: nat)
    requires Fresh(ts) && i < |ts|
    ensures AfterTicks(ts, n)[i] == AfterTicks([ts[i]], Reach(ts, i, n))[0]
    ensures Reach(ts, i, n) == n <==> forall j :: 0 <= j < i && !ts[j].repeat ==> n <= ts[j].timeout
  {
    ReachWithin(ts, i, n);
    TimersFire(ts, i, n);
    Alone(ts[i], Reach(ts, i, n));
  }

  lemma PositiveFactor(k: int, p: nat)
    requires k * p > 0
    ensures k > 0
  {
  }

  lemma OnceMore(t: nat, r: nat, p: nat)
    requires p > 0 && r <= t
    ensures r / p < (t + p) / p
  {
    var a, b := r / p, (t + p) / p;
    assert r == a * p + r % p && t + p == b * p + (t + p) % p;
    assert (b - a) * p == b * p - a * p;
    PositiveFactor(b - a, p);
  }

  // A one-shot timer ahead that fires first, or at all if timer i repeats, is felt.
  lemma Disturbed(ts: seq<Timer>, i: nat, j: nat) returns (n: nat)
    requires Fresh(ts) && j < i < |ts| && !ts[j].repeat
    requires ts[i].repeat || ts[j].timeout < ts[i].timeout
    ensures AfterTicks(ts, n)[i] != AfterTicks([ts[i]], n)[0]
  {
    var p := ts[i].timeout;
    n := if ts[i].repeat then ts[j].timeout + p else p;
    TimersFire(ts, i, n);
    Alone(ts[i], n);
    ReachWithin(ts, i, n);
    if ts[i].repeat {
      FewStrikes(n, p);
      FewStrikes(Reach(ts, i, n), p);
      OnceMore(ts[j].timeout, Reach(ts, i, n), p);
    }
  }

  /** So a timer is at all times as if it were alone exactly if no one-shot timer ahead of it
      cuts it off: none at all for one that repeats, none that fires before it for another. */
  lemma UndisturbedExactly(ts: seq<Timer>, i: nat)
    requires Fresh(ts) && i < |ts|
    ensures (forall n: nat :: AfterTicks(ts, n)[i] == AfterTicks([ts[i]], n)[0])
       <==> forall j :: 0 <= j < i && !ts[j].repeat ==> !ts[i].repeat && ts[i].timeout <= ts[j].timeout
  {
    if j :| 0 <= j < i && !ts[j].repeat && (ts[i].repeat || ts[j].timeout < ts[i].timeout) {
      var n := Disturbed(ts, i, j);
    } else {
      forall n: nat
        ensures AfterTicks(ts, n)[i] == AfterTicks([ts[i]], n)[0]
      {
        TimersFire(ts, i, n);
        Alone(ts[i], n);
        ReachWithin(ts, i, n);
      }
    }
  }

  /** Below 2^32 seconds, and for ever behind a timer that does not repeat, a repeating timer
      fires once for each time its timeout goes into the seconds that count. */
  lemma RepeatingTimerFires(ts: seq<Timer>, i: nat, n: nat)
    requires Fresh(ts) && i < |ts| && ts[i].repeat
    requires n < TWO_32 || exists j :: 0 <= j < i && !ts[j].repeat
    ensures AfterTicks(ts, n)[i].calls == Reach(ts, i, n) / ts[i].timeout
  {
    TimersFire(ts, i, n);
    ReachWithin(ts, i, n);
    FewStrikes(Reach(ts, i, n), ts[i].timeout);
  }

  lemma OneShotFiresAtMostOnce(ts: seq<Timer>, i: nat, n: nat)
    requires Fresh(ts) && i < |ts| && !ts[i].repeat
    ensures AfterTicks(ts, n)[i].calls == if ts[i].timeout <= Reach(ts, i, n) then 1 else 0
  {
    TimersFire(ts, i, n);
  }

  // ---------- the list and the clock ----------

  class TimerEntry {
    var timeout: int
    const repeat: bool
    var next: TimerEntry?
    var calls: nat

    constructor (timeout: int, repeat: bool)
      ensures this.timeout == timeout && this.repeat == repeat && next == null && calls == 0
    {
      this.timeout, this.repeat := timeout, repeat;
      next, calls := null, 0;
    }

    function Value(): Timer
      reads this
    {
      Timer(timeout, repeat, calls)
    }

    method Strike(now: nat)
      requires timeout > 0
      modifies this`timeout, this`calls
      ensures Value() == Struck(old(Value()), now)
    {
      if now % timeout == 0 {
        calls := calls + 1;
        if !repeat {
          timeout := 0;
        }
      }
    }
  }

  ghost function Values(nodes: seq<TimerEntry>): (ts: seq<Timer>)
    reads nodes
    ensures |ts| == |nodes|
    ensures forall j :: 0 <= j < |nodes| ==> ts[j] == nodes[j].Value()
  {
    if nodes == [] then [] else [nodes[0].Value()] + Values(nodes[1..])
  }

  class Clock {
    var intime: nat
    var timers: TimerEntry?
    ghost var Nodes: seq<TimerEntry>

    constructor ()
      ensures Valid() && intime == 0 && Nodes == []
    {
      intime, timers, Nodes := 0, null, [];
    }

    ghost predicate Valid()
      reads this, Nodes
    {
      && intime < TWO_32
      && Distinct(Nodes)
      && timers == NodeAt(0)
      && forall i :: 0 <= i < |Nodes| ==> Nodes[i].next == NodeAt(i + 1)
    }

    static ghost predicate Distinct(nodes: seq<TimerEntry>) {
      forall i, j :: 0 <= i < j < |nodes| ==> nodes[i] != nodes[j]
    }

    ghost function NodeAt(i: nat): TimerEntry?
      reads this
    {
      if i < |Nodes| then Nodes[i] else null
    }

    ghost function Contents(): seq<Timer>
      reads this, Nodes
    {
      Values(Nodes)
    }

    // mevent_add_timer
    method AddTimer(timeout: int, repeat: bool) returns (ghost first: TimerEntry)
      requires Valid()
      modifies this
      ensures Valid() && intime == old(intime)
      ensures Contents() == [Timer(timeout, repeat, 0)] + old(Contents())
      ensures fresh(first) && Nodes == [first] + old(Nodes)
    {
      var t := new TimerEntry(timeout, repeat);
      t.next := timers;
      assert ([t] + Nodes)[1..] == Nodes;
      Nodes := [t] + Nodes;
      timers := t;
      first := t;
    }

    // One timer's turn in the walk.
    method StrikeAt(t: TimerEntry, ghost i: nat)
      requires Valid() && i < |Nodes| && t == Nodes[i] && t.timeout > 0
      modifies t`timeout, t`calls
      ensures Valid() && Contents() == old(Contents())[i := Struck(old(t.Value()), intime)]
    {
      assert forall j :: 0 <= j < |Nodes| && j != i ==> Nodes[j] != t;
      t.Strike(intime);
    }

    // clock_handler: the walk over one plugin's timers
    method Walk()
      requires Valid()
      modifies Nodes
      ensures Valid() && Contents() == Tick(old(Contents()), intime)
    {
      ghost var ts := Contents();
      ghost var i := 0;
      var t := timers;
      while t != null && t.timeout > 0
        invariant i <= |Nodes| && t == NodeAt(i) && Valid()
        invariant WalkedTo(ts, Contents(), i, intime)
        decreases |Nodes| - i
      {
        WalkedOn(ts, Contents(), i, intime);
        StrikeAt(t, i);
        t := t.next;
        i := i + 1;
      }
      TickSoFar(ts, Contents(), i, intime);
    }

    // clock_handler
    method Handler()
      requires Valid()
      modifies this`intime, Nodes
      ensures Valid() && Nodes == old(Nodes) && intime == Later(old(intime))
      ensures Contents() == Tick(old(Contents()), intime)
    {
      intime := Later(intime);
      assert Contents() == old(Contents());
      Walk();
    }

    // The event loop calls the handler once a second.
    method Run(seconds: nat)
      requires Valid() && intime == 0
      modifies this`intime, Nodes
      ensures Valid() && Contents() == AfterTicks(old(Contents()), seconds)
    {
      ghost var start := Contents();
      ghost var us := start;
      for n := 0 to seconds
        invariant Valid() && Nodes == old(Nodes)
        invariant intime == ClockAt(n)
        invariant us == Contents() && us == AfterTicks(start, n)
      {
        Handler();
        us := Tick(us, intime);
      }
    }
  }

  // A new clock with these timers, put on one by one, the last of them first.
  method StartTimers(ts: seq<Timer>) returns (clock: Clock)
    requires forall i :: 0 <= i < |ts| ==> ts[i].calls == 0
    ensures fresh(clock) && fresh(clock.Nodes) && clock.Valid() && clock.intime == 0 && clock.Contents() == ts
  {
    clock := new Clock();
    for i := |ts| downto 0
      invariant fresh(clock) && fresh(clock.Nodes) && clock.Valid() && clock.intime == 0
      invariant clock.Contents() == ts[i..]
    {
      Before(ts, i);
      ghost var first := clock.AddTimer(ts[i].timeout, ts[i].repeat);
    }
    assert ts[0..] == ts;
  }

  lemma Before(ts: seq<Timer>, i: nat)
    requires i < |ts| && ts[i].calls == 0
    ensures ts[i..] == [Timer(ts[i].timeout, ts[i].repeat, 0)] + ts[i + 1..]
  {
  }

  /** From a new clock on, whatever timers have been put on it, any number of seconds. */
  method RunFromStart(ts: seq<Timer>, seconds: nat) returns (clock: Clock)
    requires Fresh(ts)
    ensures fresh(clock) && clock.Valid() && |clock.Contents()| == |ts|
    ensures forall i :: 0 <= i < |ts| ==> clock.Contents()[i] == Expected(ts, i, seconds)
  {
    clock := StartTimers(ts);
    clock.Run(seconds);
    forall i | 0 <= i < |ts|
      ensures AfterTicks(ts, seconds)[i] == Expected(ts, i, seconds)
    {
      TimersFire(ts, i, seconds);
    }
  }
}
