// When a blinker is on, and what it shows. Lengths are from 1 to 32768 ticks; any other counts as 1.
module BlinkTiming {
  import opened Arith
  import opened Bytes
  import opened Blink

  // ----- the clockwork of one blinker

  // What was asked for when the blinker was added, and the ticks it has seen since.
  datatype Blinker = Blinker(location: nat, onChar: byte, offChar: byte, on: nat, off: nat, age: nat)

  predicate GoodLength(n: nat) { 1 <= n <= 32768 }

  ghost predicate GoodLengths(b: Blinker) {
    GoodLength(b.on) && GoodLength(b.off)
  }

  // It is on for the first `on` ticks of every on + off.
  predicate IsOn(b: Blinker)
    requires 0 < b.on + b.off
  {
    b.age % (b.on + b.off) < b.on
  }

  // How it stands in the list: on or off, with the ticks that are left of that.
  function Stands(b: Blinker): Entry
    requires GoodLengths(b)
  {
    AtPhase(b, b.age % (b.on + b.off))
  }

  function AtPhase(b: Blinker, m: nat): Entry
    requires GoodLengths(b) && m < b.on + b.off
  {
    Entry(b.location, b.onChar, b.offChar, b.on, b.off, if m < b.on then b.on - m else b.on + b.off - m, if m < b.on then 1 else 0)
  }

  lemma PhaseTicks(b: Blinker, m: nat)
    requires GoodLengths(b) && m < b.on + b.off
    ensures Ticked(AtPhase(b, m)) == AtPhase(b, if m + 1 == b.on + b.off then 0 else m + 1)
  {
  }

  lemma NextPhase(n: nat, p: nat)
    requires p > 0
    ensures (n + 1) % p == if n % p + 1 == p then 0 else n % p + 1
  {
    var q := n / p;
    assert n == q * p + n % p;
    if n % p + 1 == p {
      assert n + 1 == (q + 1) * p;
      QuotientOf(n + 1, p, q + 1, 0);
    } else {
      QuotientOf(n + 1, p, q, n % p + 1);
    }
  }

  lemma {:induction false} TickAdvances(b: Blinker)
    requires GoodLengths(b)
    ensures Ticked(Stands(b)) == Stands(b.(age := b.age + 1))
  {
    NextPhase(b.age, b.on + b.off);
    PhaseTicks(b, b.age % (b.on + b.off));
    PhaseApart(b, b.age + 1, (b.age + 1) % (b.on + b.off));
  }

  lemma PhaseApart(b: Blinker, age: nat, m: nat)
    requires GoodLengths(b) && m < b.on + b.off
    ensures AtPhase(b.(age := age), m) == AtPhase(b, m)
  {
  }

  function TickTimes(e: Entry, n: nat): Entry { if n == 0 then e else Ticked(TickTimes(e, n - 1)) }

  // Set to any 16-bit length, the countdown toggles the blinker on the tick of that number exactly when the length is good,
  // and otherwise on the first.
  lemma {:induction false} TogglesAt(e: Entry, n: nat)
    requires e.countdown < WORD && n < if GoodLength(e.countdown) then e.countdown else 1
    ensures TickTimes(e, n) == e.(countdown := e.countdown - n)
    ensures Toggles(TickTimes(e, n)) <==> n + 1 == if GoodLength(e.countdown) then e.countdown else 1
  {
    if n > 0 { TogglesAt(e, n - 1); }
  }

  // ----- runs

  datatype Op = Add(q: Request) | Remove(location: nat) | Tick | Sync(from: nat, to: nat)

  // A request the operations accept as intended.
  predicate Proper(op: Op) {
    op.Add? ==> 0 < op.q.location && GoodLength(op.q.onLength) && GoodLength(op.q.offLength)
  }

  function Apply(l: seq<Entry>, op: Op): seq<Entry> {
    match op
    case Add(q) => Added(l, q)
    case Remove(location) => Removed(l, location)
    case Tick => TickAll(l)
    case Sync(from, to) => Synced(l, from, to)
  }

  function Run(l: seq<Entry>, ops: seq<Op>): seq<Entry>
    decreases |ops|
  {
    if ops == [] then l else Run(Apply(l, ops[0]), ops[1..])
  }

  // The newest of the blinkers at a location, or -1.
  function Newest(bs: seq<Blinker>, location: nat): (k: int)
    ensures -1 <= k < |bs|
  {
    FirstIn(seq(|bs|, k requires 0 <= k < |bs| => bs[k].location), location)
  }

  // The same operations on plain blinkers, the newest first: nothing is counted down.
  function Enlist(bs: seq<Blinker>, op: Op): seq<Blinker> {
    match op
    case Add(q) =>
      if q.location < 80 * 25 && |bs| < 2000 then [Blinker(q.location, q.onChar, q.offChar, q.onLength, q.offLength, 0)] + bs else bs
    case Remove(location) => var k := Newest(bs, location); if k == -1 then bs else bs[..k] + bs[k + 1..]
    case Tick => seq(|bs|, k requires 0 <= k < |bs| => bs[k].(age := bs[k].age + 1))
    case Sync(from, to) =>
      var (i, j) := (Newest(bs, from), Newest(bs, to));
      if i == -1 || j == -1 then bs else bs[j := bs[j].(on := bs[i].on, off := bs[i].off, age := bs[i].age)]
  }

  function EnlistAll(bs: seq<Blinker>, ops: seq<Op>): seq<Blinker>
    decreases |ops|
  {
    if ops == [] then bs else EnlistAll(Enlist(bs, ops[0]), ops[1..])
  }

  // The list l is how the blinkers stand.
  ghost predicate InPhase(l: seq<Entry>, bs: seq<Blinker>) {
    |bs| == |l| && forall k | 0 <= k < |l| :: GoodLengths(bs[k]) && l[k] == Stands(bs[k])
  }

  lemma NewestIsFirst(l: seq<Entry>, bs: seq<Blinker>, location: nat)
    requires InPhase(l, bs)
    ensures FirstAt(l, location) == Newest(bs, location)
  {
    forall j | 0 <= j < |l| ensures Locations(l)[j] == bs[j].location {
      assert l[j] == Stands(bs[j]);
    }
    assert Locations(l) == seq(|bs|, k requires 0 <= k < |bs| => bs[k].location);
  }

  lemma ApplyKeepsPhase(l: seq<Entry>, bs: seq<Blinker>, op: Op)
    requires InPhase(l, bs) && Proper(op)
    ensures InPhase(Apply(l, op), Enlist(bs, op))
  {
    hide Stands;
    match op
    case Add(q) => AddKeepsPhase(l, bs, q);
    case Remove(location) => RemoveKeepsPhase(l, bs, location);
    case Tick => TickKeepsPhase(l, bs);
    case Sync(from, to) => SyncKeepsPhase(l, bs, from, to);
  }

  lemma AddKeepsPhase(l: seq<Entry>, bs: seq<Blinker>, q: Request)
    requires InPhase(l, bs) && Proper(Add(q))
    ensures InPhase(Added(l, q), Enlist(bs, Add(q)))
  {
    hide Stands;
    var (l', bs') := (Added(l, q), Enlist(bs, Add(q)));
    if Accepts(l, q.location) {
      StartsOn(q);
      forall k | 0 <= k < |l'| ensures GoodLengths(bs'[k]) && l'[k] == Stands(bs'[k]) {
        if k > 0 { assert l'[k] == l[k - 1] && bs'[k] == bs[k - 1]; }
      }
    }
  }

  lemma StartsOn(q: Request)
    requires Proper(Add(q))
    ensures Fresh(q) == Stands(Blinker(q.location, q.onChar, q.offChar, q.onLength, q.offLength, 0))
  {
    QuotientOf(0, q.onLength + q.offLength, 0, 0);
  }

  lemma RemoveKeepsPhase(l: seq<Entry>, bs: seq<Blinker>, location: nat)
    requires InPhase(l, bs)
    ensures InPhase(Removed(l, location), Enlist(bs, Remove(location)))
  {
    hide Stands;
    NewestIsFirst(l, bs, location);
    var k := FirstAt(l, location);
    if k >= 0 {
      var (l', bs') := (Removed(l, location), Enlist(bs, Remove(location)));
      forall j | 0 <= j < |l'| ensures GoodLengths(bs'[j]) && l'[j] == Stands(bs'[j]) {
        var i := if j < k then j else j + 1;
        WithoutAt(l, k, j);
        WithoutAt(bs, k, j);
        assert l'[j] == l[i] && bs'[j] == bs[i];
      }
    }
  }

  lemma TickKeepsPhase(l: seq<Entry>, bs: seq<Blinker>)
    requires InPhase(l, bs)
    ensures InPhase(TickAll(l), Enlist(bs, Tick))
  {
    hide Stands;
    forall k | 0 <= k < |l| ensures Ticked(l[k]) == Stands(bs[k].(age := bs[k].age + 1)) {
      TickAdvances(bs[k]);
    }
  }

  lemma SyncKeepsPhase(l: seq<Entry>, bs: seq<Blinker>, from: nat, to: nat)
    requires InPhase(l, bs)
    ensures InPhase(Synced(l, from, to), Enlist(bs, Sync(from, to)))
  {
    hide Stands, GoodLength, FirstAt, Newest;
    NewestIsFirst(l, bs, from);
    NewestIsFirst(l, bs, to);
    var (i, j) := (Newest(bs, from), Newest(bs, to));
    if i >= 0 && j >= 0 {
      SyncStands(bs[i], bs[j]);
      assert l[i] == Stands(bs[i]) && l[j] == Stands(bs[j]);
    }
  }

  lemma SyncStands(b: Blinker, c: Blinker)
    requires GoodLengths(b) && GoodLengths(c)
    ensures var e := Stands(c);
            Stands(c.(on := b.on, off := b.off, age := b.age)) == Stands(b).(location := e.location, onChar := e.onChar, offChar := e.offChar)
  {
  }

  // Over any run of additions, removals, ticks and syncs: the list is how the blinkers asked for stand, each by the lengths
  // and the age it was asked for with or synced to. It is on exactly for the first `on` ticks of every on + off, whatever
  // has come and gone around it.
  lemma {:induction false} BlinkersKeepTime(l: seq<Entry>, bs: seq<Blinker>, ops: seq<Op>)
    requires InPhase(l, bs) && forall op | op in ops :: Proper(op)
    ensures InPhase(Run(l, ops), EnlistAll(bs, ops))
    ensures forall k | 0 <= k < |Run(l, ops)| ::
              var (e, b) := (Run(l, ops)[k], EnlistAll(bs, ops)[k]);
              e.location == b.location && 0 < b.on + b.off && (e.status == 1 <==> IsOn(b)) && (e.status == 0 <==> !IsOn(b))
    decreases |ops|
  {
    if ops != [] {
      assert ops[0] in ops;
      ApplyKeepsPhase(l, bs, ops[0]);
      BlinkersKeepTime(Apply(l, ops[0]), Enlist(bs, ops[0]), ops[1..]);
    }
  }

  // ----- what the screen shows

  function Draw(screen: seq<byte>, l: seq<Entry>, op: Op): (r: seq<byte>)
    requires |screen| == SCREEN && OnScreen(l)
    ensures |r| == SCREEN
  {
    match op
    case Add(q) => AddDrawn(screen, l, q)
    case Remove(_) => screen
    case Tick => Drawn(screen, l, |l|)
    case Sync(from, to) => SyncDrawn(screen, l, from, to)
  }

  lemma ApplyOnScreen(l: seq<Entry>, op: Op)
    requires OnScreen(l)
    ensures OnScreen(Apply(l, op))
  {
  }

  ghost function DrawAll(screen: seq<byte>, l: seq<Entry>, ops: seq<Op>): (r: seq<byte>)
    requires |screen| == SCREEN && OnScreen(l)
    ensures |r| == SCREEN
    decreases |ops|
  {
    if ops == [] then screen
    else ApplyOnScreen(l, ops[0]); DrawAll(Draw(screen, l, ops[0]), Apply(l, ops[0]), ops[1..])
  }

  // One blinker to a location.
  ghost predicate Apart(l: seq<Entry>) {
    forall j, k | 0 <= j < k < |l| :: l[j].location != l[k].location
  }

  function CharOf(e: Entry): byte { if e.status % 2 == 1 then e.onChar else e.offChar }

  // Every blinker's location holds the character of its status.
  ghost predicate Lit(screen: seq<byte>, l: seq<Entry>) {
    |screen| == SCREEN && OnScreen(l) && forall k | 0 <= k < |l| :: screen[2 * l[k].location] == CharOf(l[k])
  }

  // An addition at a location of its own; a sync to a blinker that is off, or that looks the same on and off.
  predicate Honest(l: seq<Entry>, op: Op) {
    match op
    case Add(q) => FirstAt(l, q.location) == -1
    case Sync(from, to) =>
      var (i, j) := (FirstAt(l, from), FirstAt(l, to));
      i == -1 || j == -1 || l[i].status % 2 == 0 || l[j].onChar == l[j].offChar
    case _ => true
  }

  // Cells that no blinker stands on are left alone, and so are attributes.
  lemma {:induction false} DrawnCells(screen: seq<byte>, l: seq<Entry>, n: nat, i: nat)
    requires |screen| == SCREEN && OnScreen(l) && Apart(l) && n <= |l| && i < SCREEN
    requires forall k | 0 <= k < n :: 2 * l[k].location != i
    ensures Drawn(screen, l, n)[i] == screen[i]
  {
    if n > 0 { DrawnCells(screen, l, n - 1, i); }
  }

  lemma {:induction false} DrawnChar(screen: seq<byte>, l: seq<Entry>, n: nat, k: nat)
    requires Lit(screen, l) && Apart(l) && k < n <= |l|
    ensures Drawn(screen, l, n)[2 * l[k].location] == CharOf(Ticked(l[k]))
  {
    if k == n - 1 {
      DrawnCells(screen, l, n - 1, 2 * l[k].location);
    } else {
      DrawnChar(screen, l, n - 1, k);
      assert l[k].location != l[n - 1].location;
    }
  }

  lemma TickLights(screen: seq<byte>, l: seq<Entry>)
    requires Lit(screen, l) && Apart(l)
    ensures Lit(Draw(screen, l, Tick), TickAll(l)) && Apart(TickAll(l))
  {
    hide CharOf;
    forall k | 0 <= k < |l| ensures Drawn(screen, l, |l|)[2 * l[k].location] == CharOf(TickAll(l)[k]) {
      DrawnChar(screen, l, |l|, k);
    }
  }

  lemma AddLights(screen: seq<byte>, l: seq<Entry>, q: Request)
    requires Lit(screen, l) && Apart(l) && Honest(l, Add(q))
    ensures Lit(Draw(screen, l, Add(q)), Added(l, q)) && Apart(Added(l, q))
  {
    var l' := Added(l, q);
    if Accepts(l, q.location) {
      forall k | 0 <= k < |l'| ensures Draw(screen, l, Add(q))[2 * l'[k].location] == CharOf(l'[k]) {
        if k > 0 { assert l'[k] == l[k - 1]; }
      }
    }
  }

  lemma RemoveLights(screen: seq<byte>, l: seq<Entry>, location: nat)
    requires Lit(screen, l) && Apart(l)
    ensures Lit(screen, Removed(l, location)) && Apart(Removed(l, location))
  {
    var (k, l') := (FirstAt(l, location), Removed(l, location));
    if k >= 0 {
      forall j | 0 <= j < |l'| ensures l'[j] == l[if j < k then j else j + 1] {
        WithoutAt(l, k, j);
      }
    }
  }

  // A sync leaves the screen right exactly when the second blinker comes out off, or looks the same on and off: the code
  // always draws it off.
  lemma SyncLights(screen: seq<byte>, l: seq<Entry>, from: nat, to: nat)
    requires Lit(screen, l) && Apart(l)
    ensures var l' := Synced(l, from, to);
            Apart(l') && (Lit(Draw(screen, l, Sync(from, to)), l') <==> Honest(l, Sync(from, to)))
  {
    var (i, j, l') := (FirstAt(l, from), FirstAt(l, to), Synced(l, from, to));
    var screen' := Draw(screen, l, Sync(from, to));
    if i >= 0 && j >= 0 {
      forall k | 0 <= k < |l'| && k != j ensures screen'[2 * l'[k].location] == CharOf(l'[k]) {
        assert l'[k] == l[k];
      }
      assert screen'[2 * l'[j].location] == l[j].offChar && l'[j].location == to;
    }
  }

  // Each operation of the run is honest when it comes.
  predicate AllHonest(l: seq<Entry>, ops: seq<Op>)
    decreases |ops|
  {
    ops == [] || (Honest(l, ops[0]) && AllHonest(Apply(l, ops[0]), ops[1..]))
  }

  // Over any such run the character at each blinker's location is its on-character or its off-character, as it is on or off.
  lemma {:induction false} ScreenFollowsBlinkers(screen: seq<byte>, l: seq<Entry>, ops: seq<Op>)
    requires Lit(screen, l) && Apart(l) && AllHonest(l, ops)
    ensures Lit(DrawAll(screen, l, ops), Run(l, ops)) && Apart(Run(l, ops))
    decreases |ops|
  {
    hide Lit, Apart, Apply, Draw;
    if ops != [] {
      OneLights(screen, l, ops[0]);
      ScreenFollowsBlinkers(Draw(screen, l, ops[0]), Apply(l, ops[0]), ops[1..]);
    }
  }

  lemma OneLights(screen: seq<byte>, l: seq<Entry>, op: Op)
    requires Lit(screen, l) && Apart(l) && Honest(l, op)
    ensures |screen| == SCREEN && OnScreen(l) && OnScreen(Apply(l, op))
    ensures Lit(Draw(screen, l, op), Apply(l, op)) && Apart(Apply(l, op))
  {
    hide Apart;
    match op
    case Add(q) => AddLights(screen, l, q);
    case Remove(location) => RemoveLights(screen, l, location);
    case Tick => TickLights(screen, l);
    case Sync(from, to) => SyncLights(screen, l, from, to);
  }

  // So from an empty list, the screen shows each blinker's own characters, the one for the first `on` ticks and the other
  // for the next `off`.
  lemma BlinkersShow(screen: seq<byte>, ops: seq<Op>)
    requires |screen| == SCREEN && AllHonest([], ops) && forall op | op in ops :: Proper(op)
    ensures var (screen', bs) := (DrawAll(screen, [], ops), EnlistAll([], ops));
            forall k | 0 <= k < |bs| :: bs[k].location < 80 * 25 && 0 < bs[k].on + bs[k].off
              && screen'[2 * bs[k].location] == if IsOn(bs[k]) then bs[k].onChar else bs[k].offChar
  {
    hide InPhase, Lit, Apart;
    EmptyList(screen);
    BlinkersKeepTime([], [], ops);
    ScreenFollowsBlinkers(screen, [], ops);
    LitShows(DrawAll(screen, [], ops), Run([], ops), EnlistAll([], ops));
  }

  lemma EmptyList(screen: seq<byte>)
    requires |screen| == SCREEN
    ensures InPhase([], []) && Lit(screen, []) && Apart([])
  {
  }

  lemma LitShows(screen: seq<byte>, l: seq<Entry>, bs: seq<Blinker>)
    requires InPhase(l, bs) && Lit(screen, l)
    ensures |screen| == SCREEN
    ensures forall k | 0 <= k < |bs| :: bs[k].location < 80 * 25 && 0 < bs[k].on + bs[k].off
              && screen[2 * bs[k].location] == if IsOn(bs[k]) then bs[k].onChar else bs[k].offChar
  {
    hide Stands;
    forall k | 0 <= k < |bs|
      ensures bs[k].location < 80 * 25 && 0 < bs[k].on + bs[k].off
              && screen[2 * bs[k].location] == if IsOn(bs[k]) then bs[k].onChar else bs[k].offChar
    {
      assert l[k] == Stands(bs[k]);
      StandsShows(bs[k]);
    }
  }

  lemma StandsShows(b: Blinker)
    requires GoodLengths(b)
    ensures Stands(b).location == b.location && CharOf(Stands(b)) == if IsOn(b) then b.onChar else b.offChar
  {
  }

  // ----- synchronised blinkers

  ghost predicate SameBlink(d: Entry, e: Entry) {
    d == e.(location := d.location, onChar := d.onChar, offChar := d.offChar)
  }

  // Where entry i is after an operation; -1 when it has been removed.
  function Position(l: seq<Entry>, op: Op, i: nat): (r: int)
    requires i < |l|
    ensures -1 <= r < |Apply(l, op)|
  {
    match op
    case Add(q) => if Accepts(l, q.location) then i + 1 else i
    case Remove(location) =>
      var k := FirstAt(l, location); if k == -1 || i < k then i else if i == k then -1 else i - 1
    case Tick => i
    case Sync(_, _) => i
  }

  // An operation that does not remove entry i, nor sync it to another.
  predicate Spares(l: seq<Entry>, op: Op, i: nat) {
    match op
    case Add(_) => true
    case Remove(location) => FirstAt(l, location) != i
    case Tick => true
    case Sync(from, to) => FirstAt(l, from) == -1 || FirstAt(l, to) != i
  }

  lemma AddSpares(l: seq<Entry>, q: Request, i: nat)
    requires i < |l|
    ensures Added(l, q)[Position(l, Add(q), i)] == l[i]
  {
  }

  lemma RemoveSpares(l: seq<Entry>, location: nat, i: nat)
    requires i < |l| && FirstAt(l, location) != i
    ensures var i' := Position(l, Remove(location), i); i' >= 0 && Removed(l, location)[i'] == l[i]
  {
    var k := FirstAt(l, location);
    if k >= 0 {
      assert Removed(l, location) == Without(l, k);
      WithoutAt(l, k, if i < k then i else i - 1);
    }
  }

  lemma SyncSpares(l: seq<Entry>, from: nat, to: nat, i: nat)
    requires i < |l| && (FirstAt(l, from) == -1 || FirstAt(l, to) != i)
    ensures Synced(l, from, to)[i] == l[i]
  {
  }

  // A spared entry is what it was, or what it was ticked, at its new position.
  lemma SparedEntry(l: seq<Entry>, op: Op, i: nat)
    requires i < |l| && Spares(l, op, i)
    ensures var (l', i') := (Apply(l, op), Position(l, op, i));
            i' >= 0 && l'[i'] == if op.Tick? then Ticked(l[i]) else l[i]
  {
    match op
    case Add(q) => AddSpares(l, q, i);
    case Remove(location) => RemoveSpares(l, location, i);
    case Tick =>
    case Sync(from, to) => SyncSpares(l, from, to, i);
  }

  // A sync makes the two nodes it names blink alike.
  lemma SyncPutsInStep(l: seq<Entry>, a: nat, b: nat)
    requires FirstAt(l, a) >= 0 && FirstAt(l, b) >= 0
    ensures SameBlink(Synced(l, a, b)[FirstAt(l, a)], Synced(l, a, b)[FirstAt(l, b)])
  {
  }

  // Every operation of the run spares the node that is entry i at its start.
  predicate SparesAll(l: seq<Entry>, ops: seq<Op>, i: nat)
    requires i < |l|
    decreases |ops|
  {
    ops == [] ||
    (Spares(l, ops[0], i) && Position(l, ops[0], i) >= 0 && SparesAll(Apply(l, ops[0]), ops[1..], Position(l, ops[0], i)))
  }

  function PositionAfter(l: seq<Entry>, ops: seq<Op>, i: nat): (r: nat)
    requires i < |l| && SparesAll(l, ops, i)
    ensures r < |Run(l, ops)|
    decreases |ops|
  {
    if ops == [] then i else PositionAfter(Apply(l, ops[0]), ops[1..], Position(l, ops[0], i))
  }

  // Two nodes that blink alike stay in step through any run that neither removes one of them nor syncs it to another,
  // wherever other additions and removals move them in the list, at their own locations too.
  lemma {:induction false} StayInStep(l: seq<Entry>, i: nat, j: nat, ops: seq<Op>)
    requires i < |l| && j < |l| && SameBlink(l[i], l[j]) && SparesAll(l, ops, i) && SparesAll(l, ops, j)
    ensures SameBlink(Run(l, ops)[PositionAfter(l, ops, i)], Run(l, ops)[PositionAfter(l, ops, j)])
    decreases |ops|
  {
    if ops != [] {
      SparedEntry(l, ops[0], i);
      SparedEntry(l, ops[0], j);
      StayInStep(Apply(l, ops[0]), Position(l, ops[0], i), Position(l, ops[0], j), ops[1..]);
    }
  }
}
