// The real-time clock at 1024 interrupts a second, divided for one client per terminal.
module Rtc {
  import opened Arith

  const CLIENTS := 3

  // `ticked` is the flag that releases `rtc_read`.
  datatype Client = Client(client: int, rate: int, count: nat, ticked: bool)

  datatype Event = Interrupt | Open(t: int, pid: nat) | Write(t: int, freq: nat) | Read(t: int) | Close(t: int)

  const IDLE := Client(-1, -1, 0, false)

  // ----- frequencies

  // The interrupts to let pass per signal; -1 for a frequency below 2.
  function RateFor(freq: nat): int {
    if freq >= 1024 then 1 else if freq >= 512 then 2 else if freq >= 256 then 4 else if freq >= 128 then 8
    else if freq >= 64 then 16 else if freq >= 32 then 32 else if freq >= 16 then 64 else if freq >= 8 then 128
    else if freq >= 4 then 256 else if freq >= 2 then 512 else -1
  }

  // The rate gives the largest power of two that does not exceed the frequency asked for, nor 1024.
  lemma RateIsPowerOfTwo(freq: nat) returns (k: nat)
    requires freq >= 2
    ensures RateFor(freq) * Power2(k) == 1024 && Power2(k) <= freq
    ensures freq < Power2(k + 1) || Power2(k) == 1024
  {
    k := if freq >= 1024 then 10 else if freq >= 512 then 9 else if freq >= 256 then 8 else if freq >= 128 then 7
         else if freq >= 64 then 6 else if freq >= 32 then 5 else if freq >= 16 then 4 else if freq >= 8 then 3
         else if freq >= 4 then 2 else 1;
    SmallPowers();
  }

  // ----- one client

  predicate Fires(c: Client) { c.client != -1 && c.count + 1 >= c.rate }

  function Interrupted(c: Client): Client {
    if c.client == -1 then c
    else if Fires(c) then c.(count := 0, ticked := true)
    else c.(count := c.count + 1)
  }

  // What an event does to the client of terminal t; the events of other terminals do nothing to it.
  function Step(c: Client, t: nat, e: Event): Client {
    match e
    case Interrupt => Interrupted(c)
    case Open(u, pid) => if u == t then c.(client := pid, rate := 512) else c
    case Write(u, freq) => if u == t && freq >= 2 then c.(rate := RateFor(freq)) else c
    case Read(u) => if u == t then c.(ticked := false) else c
    case Close(u) => if u == t then IDLE else c
  }

  class RtcBlock {
    var block: array<Client>

    ghost predicate Valid()
      reads this
    {
      block.Length == CLIENTS
    }

    // init_rtc
    constructor ()
      ensures Valid() && forall t | 0 <= t < CLIENTS :: block[t] == IDLE
    {
      block := new Client[CLIENTS](i => IDLE);
    }

    // rtc_handler
    method Handler()
      requires Valid()
      modifies block
      ensures forall t: nat | t < CLIENTS :: block[t] == Step(old(block[t]), t, Interrupt)
      ensures forall t: nat | t < CLIENTS && old(block[t].client != -1 && block[t].count + 1 >= block[t].rate) :: block[t].ticked
    {
      var i := 0;
      while i < CLIENTS
        invariant 0 <= i <= CLIENTS
        invariant forall t: nat | t < CLIENTS :: block[t] == if t < i then Interrupted(old(block[t])) else old(block[t])
      {
        if block[i].client != -1 {
          block[i] := block[i].(count := block[i].count + 1);
          if block[i].count >= block[i].rate {
            block[i] := block[i].(ticked := true);
            block[i] := block[i].(count := 0);
          }
        }
        i := i + 1;
      }
    }

    // rtc_write by the program of terminal t
    method RtcWrite(t: nat, freq: nat) returns (r: int)
      requires Valid() && t < CLIENTS
      modifies block
      ensures forall u: nat | u < CLIENTS :: block[u] == Step(old(block[u]), u, Write(t, freq))
      ensures r == if freq >= 2 then 4 else -1
    {
      var rate := 0;
      if freq >= 1024 { rate := 1; }
      else if freq >= 512 { rate := 2; }
      else if freq >= 256 { rate := 4; }
      else if freq >= 128 { rate := 8; }
      else if freq >= 64 { rate := 16; }
      else if freq >= 32 { rate := 32; }
      else if freq >= 16 { rate := 64; }
      else if freq >= 8 { rate := 128; }
      else if freq >= 4 { rate := 256; }
      else if freq >= 2 { rate := 512; }
      else { return -1; }
      block[t] := block[t].(rate := rate);
      return 4;
    }

    // rtc_open
    method RtcOpen(t: nat, pid: nat) returns (r: int)
      requires Valid() && t < CLIENTS
      modifies block
      ensures forall u: nat | u < CLIENTS :: block[u] == Step(old(block[u]), u, Open(t, pid))
      ensures r == 0
    {
      block[t] := block[t].(client := pid);
      var w := RtcWrite(t, 2);
      if w == -1 { return -1; }
      return 0;
    }

    // rtc_read, once its busy wait has seen the flag
    method RtcRead(t: nat) returns (r: int)
      requires Valid() && t < CLIENTS && block[t].ticked
      modifies block
      ensures forall u: nat | u < CLIENTS :: block[u] == Step(old(block[u]), u, Read(t))
      ensures r == 0
    {
      block[t] := block[t].(ticked := false);
      return 0;
    }

    // rtc_close
    method RtcClose(t: nat) returns (r: int)
      requires Valid() && t < CLIENTS
      modifies block
      ensures forall u: nat | u < CLIENTS :: block[u] == Step(old(block[u]), u, Close(t))
      ensures r == 0
    {
      block[t] := block[t].(client := -1);
      block[t] := block[t].(rate := -1);
      block[t] := block[t].(count := 0);
      block[t] := block[t].(ticked := false);
      return 0;
    }
  }

  // ----- runs

  function After(c: Client, t: nat, es: seq<Event>): Client
    decreases |es|
  {
    if es == [] then c else After(Step(c, t, es[0]), t, es[1..])
  }

  // How often the client is signalled.
  function Signals(c: Client, t: nat, es: seq<Event>): nat
    decreases |es|
  {
    if es == [] then 0
    else (if es[0] == Interrupt && Fires(c) then 1 else 0) + Signals(Step(c, t, es[0]), t, es[1..])
  }

  function Interrupts(es: seq<Event>): nat
    decreases |es|
  {
    if es == [] then 0 else (if es[0] == Interrupt then 1 else 0) + Interrupts(es[1..])
  }

  // Anything but an open, a rate change or a close by terminal t.
  predicate KeepsRate(e: Event, t: nat) {
    match e
    case Interrupt => true
    case Read(_) => true
    case Open(u, _) => u != t
    case Write(u, _) => u != t
    case Close(u) => u != t
  }

  // An open client that counts below its rate.
  ghost predicate Counting(c: Client) { c.client != -1 && 0 < c.rate && c.count < c.rate }

  // Through any run in which terminal t does not change its rate, with whatever the others do: the signals and the
  // count left over account for every interrupt.
  lemma {:induction false} SignalsAccountForInterrupts(c: Client, t: nat, es: seq<Event>)
    requires Counting(c) && forall e | e in es :: KeepsRate(e, t)
    ensures var c' := After(c, t, es);
            Counting(c') && c'.rate == c.rate && Signals(c, t, es) * c.rate + c'.count == c.count + Interrupts(es)
    decreases |es|
  {
    if es != [] {
      assert KeepsRate(es[0], t);
      var c1 := Step(c, t, es[0]);
      SignalsAccountForInterrupts(c1, t, es[1..]);
      assert (1 + Signals(c1, t, es[1..])) * c.rate == c.rate + Signals(c1, t, es[1..]) * c.rate;
    }
  }

  // Freshly opened, a client is signalled once every `rate` interrupts: floor(n / rate) times after n of them.
  lemma FreshClientDivides(t: nat, pid: nat, es: seq<Event>)
    requires forall e | e in es :: KeepsRate(e, t)
    ensures var c := Step(IDLE, t, Open(t, pid));
            var n := Interrupts(es);
            c.rate == 512 && Signals(c, t, es) == n / c.rate && After(c, t, es).count == n % c.rate
  {
    SignalsAreQuotient(Step(IDLE, t, Open(t, pid)), t, es);
  }

  lemma SignalsAreQuotient(c: Client, t: nat, es: seq<Event>)
    requires Counting(c) && forall e | e in es :: KeepsRate(e, t)
    ensures var (c', n) := (After(c, t, es), c.count + Interrupts(es));
            Counting(c') && c'.rate == c.rate && Signals(c, t, es) == n / c.rate && c'.count == n % c.rate
  {
    SignalsAccountForInterrupts(c, t, es);
    QuotientOf(c.count + Interrupts(es), c.rate, Signals(c, t, es), After(c, t, es).count);
  }

  // ----- the flag

  predicate ReadsBy(e: Event, t: nat) { e.Read? && e.t == t }
  predicate ClosesBy(e: Event, t: nat) { e.Close? && e.t == t }

  // Through any run in which terminal t neither reads nor closes its clock, with rates changed at will: the flag that
  // releases its read is up exactly when it was up before or a signal has come.
  lemma {:induction false} FlagHoldsSignals(c: Client, t: nat, es: seq<Event>)
    requires forall e | e in es :: !ReadsBy(e, t) && !ClosesBy(e, t)
    ensures After(c, t, es).ticked <==> c.ticked || Signals(c, t, es) > 0
    decreases |es|
  {
    if es != [] {
      assert !ReadsBy(es[0], t) && !ClosesBy(es[0], t);
      FlagHoldsSignals(Step(c, t, es[0]), t, es[1..]);
    }
  }

  lemma {:induction false} AfterAppend(c: Client, t: nat, es: seq<Event>, fs: seq<Event>)
    ensures After(c, t, es + fs) == After(After(c, t, es), t, fs)
    decreases |es|
  {
    if es == [] {
      assert es + fs == fs;
    } else {
      assert (es + fs)[0] == es[0] && (es + fs)[1..] == es[1..] + fs;
      AfterAppend(Step(c, t, es[0]), t, es[1..], fs);
    }
  }

  lemma {:induction false} InterruptsAppend(es: seq<Event>, fs: seq<Event>)
    ensures Interrupts(es + fs) == Interrupts(es) + Interrupts(fs)
    decreases |es|
  {
    if es == [] {
      assert es + fs == fs;
    } else {
      assert (es + fs)[0] == es[0] && (es + fs)[1..] == es[1..] + fs;
      InterruptsAppend(es[1..], fs);
    }
  }

  // In numbers: n interrupts before terminal t's last read and m after it, on a client that has counted c.count at the
  // start. Its next read returns at once if and only if c.count + n + m has passed a multiple of the rate that
  // c.count + n has not; and with no read at all, if the flag was up or c.count + n + m has reached the rate.
  lemma FlagSinceLastRead(c: Client, t: nat, es: seq<Event>, fs: seq<Event>)
    requires Counting(c) && (forall e | e in es :: KeepsRate(e, t)) && (forall e | e in fs :: KeepsRate(e, t) && !ReadsBy(e, t))
    ensures After(c, t, fs).ticked <==> c.ticked || c.count + Interrupts(fs) >= c.rate
    ensures var (n, m) := (c.count + Interrupts(es), Interrupts(fs));
            After(c, t, es + [Read(t)] + fs).ticked <==> (n + m) / c.rate > n / c.rate
  {
    hide After, Interrupts, KeepsRate;
    FlagWithoutRead(c, t, fs);
    SignalsAreQuotient(c, t, es);
    FlagAfterRead(c, t, es, fs);
    NextMultiple(c.count + Interrupts(es), Interrupts(fs), c.rate);
  }

  lemma FlagAfterRead(c: Client, t: nat, es: seq<Event>, fs: seq<Event>)
    requires Counting(After(c, t, es)) && forall e | e in fs :: KeepsRate(e, t) && !ReadsBy(e, t)
    ensures After(c, t, es + [Read(t)] + fs).ticked <==> After(c, t, es).count + Interrupts(fs) >= After(c, t, es).rate
  {
    AfterAppend(c, t, es + [Read(t)], fs);
    AfterAppend(c, t, es, [Read(t)]);
    var c1 := After(c, t, es).(ticked := false);
    assert After(After(c, t, es), t, [Read(t)]) == c1 by { assert [Read(t)][1..] == []; }
    FlagWithoutRead(c1, t, fs);
  }

  lemma FlagWithoutRead(c: Client, t: nat, fs: seq<Event>)
    requires Counting(c) && forall e | e in fs :: KeepsRate(e, t) && !ReadsBy(e, t)
    ensures After(c, t, fs).ticked <==> c.ticked || c.count + Interrupts(fs) >= c.rate
  {
    forall e | e in fs ensures !ReadsBy(e, t) && !ClosesBy(e, t) { assert KeepsRate(e, t); }
    FlagHoldsSignals(c, t, fs);
    SignalsAccountForInterrupts(c, t, fs);
    if Signals(c, t, fs) > 0 { MulGrows(1, Signals(c, t, fs), c.rate); }
  }

  // A program that reads whenever it can: after every event that leaves its flag up, it takes the signal.
  function Eagerly(c: Client, t: nat, es: seq<Event>): (Client, nat)
    decreases |es|
  {
    if es == [] then (c, 0)
    else
      var c1 := Step(c, t, es[0]);
      var (c', n) := Eagerly(if c1.ticked then Step(c1, t, Read(t)) else c1, t, es[1..]);
      (c', n + if c1.ticked then 1 else 0)
  }

  // It reads once every `rate` interrupts, floor(n / rate) times in all, and each time waits again.
  lemma {:induction false} EagerReader(c: Client, t: nat, es: seq<Event>)
    requires Counting(c) && !c.ticked && forall e | e in es :: KeepsRate(e, t)
    ensures var ((c', taken), n) := (Eagerly(c, t, es), c.count + Interrupts(es));
            !c'.ticked && taken == n / c.rate && c' == c.(count := n % c.rate)
    decreases |es|
  {
    if es == [] {
      QuotientOf(c.count, c.rate, 0, c.count);
    } else {
      assert KeepsRate(es[0], t);
      var c1 := Step(c, t, es[0]);
      EagerReader(if c1.ticked then Step(c1, t, Read(t)) else c1, t, es[1..]);
      OncePast(Interrupts(es[1..]), c.rate);
    }
  }

  // However it times them, a program's reads return at most once per signal, and once more for a signal left from before.
  ghost predicate ReadsEnabled(c: Client, t: nat, es: seq<Event>)
    decreases |es|
  {
    es == [] || ((ReadsBy(es[0], t) ==> c.ticked) && ReadsEnabled(Step(c, t, es[0]), t, es[1..]))
  }

  function Reads(t: nat, es: seq<Event>): nat
    decreases |es|
  {
    if es == [] then 0 else (if ReadsBy(es[0], t) then 1 else 0) + Reads(t, es[1..])
  }

  lemma {:induction false} ReadsAtMostSignals(c: Client, t: nat, es: seq<Event>)
    requires ReadsEnabled(c, t, es)
    ensures Reads(t, es) + (if After(c, t, es).ticked then 1 else 0) <= Signals(c, t, es) + (if c.ticked then 1 else 0)
    decreases |es|
  {
    if es != [] {
      ReadsAtMostSignals(Step(c, t, es[0]), t, es[1..]);
    }
  }

  function Pause(n: nat): seq<Event> { if n == 0 then [] else [Interrupt] + Pause(n - 1) }

  // Whatever the count was when the rate changed, the first signal comes after max(1, rate - count) interrupts.
  lemma {:induction false} NextSignal(c: Client, t: nat)
    requires c.client != -1 && 0 < c.rate
    ensures var wait := if c.rate - c.count > 1 then c.rate - c.count else 1;
            1 <= wait <= c.rate && Signals(c, t, Pause(wait - 1)) == 0 && Signals(c, t, Pause(wait)) == 1
    decreases c.rate - c.count
  {
    if c.rate - c.count > 1 {
      NextSignal(Interrupted(c), t);
      var wait := c.rate - c.count;
      assert Pause(wait)[1..] == Pause(wait - 1) && Pause(wait - 1)[1..] == Pause(wait - 2);
    } else {
      assert Pause(1) == [Interrupt];
    }
  }

  lemma {:induction false} PauseInterrupts(n: nat, t: nat)
    ensures Interrupts(Pause(n)) == n && forall e | e in Pause(n) :: KeepsRate(e, t)
  {
    if n > 0 {
      PauseInterrupts(n - 1, t);
      assert Pause(n)[1..] == Pause(n - 1);
    }
  }

  // Whatever has happened on a terminal, its client counts below 512 and has a rate of at most that.
  ghost predicate Bounded(c: Client) { c.count < 512 && (c.client == -1 || 1 <= c.rate <= 512) }

  lemma {:induction false} StaysBounded(c: Client, t: nat, es: seq<Event>)
    requires Bounded(c)
    ensures Bounded(After(c, t, es))
    decreases |es|
  {
    if es != [] {
      StaysBounded(Step(c, t, es[0]), t, es[1..]);
    }
  }

  // An open resets neither the count nor a pending signal. The first signal comes early by the old count, and a pending
  // one lets the first read return at once; the client is as good as fresh exactly when there was neither.
  lemma ReopenedClient(t: nat, before: seq<Event>, pid: nat, es: seq<Event>)
    requires forall e | e in es :: KeepsRate(e, t)
    ensures var (c, fresh') := (After(IDLE, t, before), Step(IDLE, t, Open(t, pid)));
            var c1 := Step(c, t, Open(t, pid));
            && c.count < 512 && c1.ticked == c.ticked
            && Signals(c1, t, es) * 512 + After(c1, t, es).count == c.count + Interrupts(es)
            && (c1 == fresh' <==> c.count == 0 && !c.ticked)
            && (c.count > 0 ==> Signals(c1, t, Pause(512 - c.count)) == 1 && Signals(fresh', t, Pause(512 - c.count)) == 0)
  {
    StaysBounded(IDLE, t, before);
    var c := After(IDLE, t, before);
    var c1 := Step(c, t, Open(t, pid));
    SignalsAccountForInterrupts(c1, t, es);
    if c.count > 0 {
      NextSignal(c1, t);
      PauseInterrupts(512 - c.count, t);
      FreshClientDivides(t, pid, Pause(512 - c.count));
    }
  }

  // A close forgets it all: whatever the client was, the next open makes it a fresh one.
  lemma CloseForgets(c: Client, t: nat, pid: nat, es: seq<Event>)
    requires forall e | e in es :: KeepsRate(e, t)
    ensures var (c1, n) := (After(c, t, [Close(t), Open(t, pid)]), Interrupts(es));
            c1.client == pid && !c1.ticked && Signals(c1, t, es) == n / 512 && After(c1, t, es).count == n % 512
  {
    var reset := Step(IDLE, t, Open(t, pid));
    assert [Close(t), Open(t, pid)][1..] == [Open(t, pid)] && [Open(t, pid)][1..] == [];
    assert After(reset, t, []) == reset && After(IDLE, t, [Open(t, pid)]) == reset;
    assert After(c, t, [Close(t), Open(t, pid)]) == reset;
    FreshClientDivides(t, pid, es);
  }
}
