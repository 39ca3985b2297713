// The blinkers: a linked list of nodes that live in a pool of 2000 slots, in which location 0 marks a free slot.
module Blink {
  import opened Bytes
  import opened Sets

  const POOL := 2000
  const NULL := -1
  const WORD := 0x10000

  // One slot. The length, countdown and status fields are 16-bit words; next is a slot number or NULL.
  datatype Node = Node(location: nat, onChar: byte, offChar: byte, onLength: nat, offLength: nat,
                       countdown: nat, status: nat, next: int)

  // What the list says about one blinker.
  datatype Entry = Entry(location: nat, onChar: byte, offChar: byte, onLength: nat, offLength: nat, countdown: nat, status: nat)

  // What is asked for by an addition.
  datatype Request = Request(location: nat, onChar: byte, offChar: byte, onLength: nat, offLength: nat)

  const ZERO := Node(0, NUL, NUL, 0, 0, 0, 0, NULL)

  function EntryOf(n: Node): Entry { Entry(n.location, n.onChar, n.offChar, n.onLength, n.offLength, n.countdown, n.status) }

  function RequestOf(n: Node): Request { Request(n.location, n.onChar, n.offChar, n.onLength, n.offLength) }

  // ----- what the operations mean on the list of entries, the newest first

  // Where a location stands first, or -1.
  function FirstIn(locations: seq<nat>, location: nat): (k: int)
    ensures -1 <= k < |locations|
    ensures k >= 0 ==> locations[k] == location
    ensures forall j | 0 <= j < (if k == -1 then |locations| else k) :: locations[j] != location
  {
    if locations == [] then -1
    else if locations[0] == location then 0
    else var k := FirstIn(locations[1..], location); if k == -1 then -1 else k + 1
  }

  function Locations(l: seq<Entry>): (r: seq<nat>)
    ensures |r| == |l| && forall k | 0 <= k < |l| :: r[k] == l[k].location
  {
    seq(|l|, k requires 0 <= k < |l| => l[k].location)
  }

  // The first entry at a location, or -1.
  function FirstAt(l: seq<Entry>, location: nat): (k: int)
    ensures -1 <= k < |l|
    ensures k >= 0 ==> l[k].location == location
    ensures forall j | 0 <= j < (if k == -1 then |l| else k) :: l[j].location != location
  {
    FirstIn(Locations(l), location)
  }

  lemma FirstAtIs(l: seq<Entry>, location: nat, k: nat)
    requires k <= |l| && (k < |l| ==> l[k].location == location) && forall j | 0 <= j < k :: l[j].location != location
    ensures FirstAt(l, location) == if k < |l| then k else -1
  {
  }

  function Fresh(q: Request): Entry { Entry(q.location, q.onChar, q.offChar, q.onLength, q.offLength, q.onLength, 1) }

  predicate Accepts(l: seq<Entry>, location: nat) { location < POOL && |l| < POOL }

  function Added(l: seq<Entry>, q: Request): seq<Entry> {
    if Accepts(l, q.location) then [Fresh(q)] + l else l
  }

  function Removed(l: seq<Entry>, location: nat): seq<Entry> {
    var k := FirstAt(l, location); if k == -1 then l else l[..k] + l[k + 1..]
  }

  function Synced(l: seq<Entry>, from: nat, to: nat): seq<Entry> {
    var (i, j) := (FirstAt(l, from), FirstAt(l, to));
    if i == -1 || j == -1 then l else l[j := l[i].(location := l[j].location, onChar := l[j].onChar, offChar := l[j].offChar)]
  }

  // decw, then a signed comparison with zero.
  function Dec(c: nat): nat { (c + WORD - 1) % WORD }
  predicate Positive(c: nat) { 0 < c < WORD / 2 }

  function Ticked(e: Entry): Entry {
    var c := Dec(e.countdown);
    if Positive(c) then e.(countdown := c)
    else if e.status % 2 == 1 then e.(countdown := e.offLength, status := e.status - 1)
    else e.(countdown := e.onLength, status := e.status + 1)
  }

  function TickAll(l: seq<Entry>): (r: seq<Entry>)
    ensures |r| == |l|
  {
    seq(|l|, k requires 0 <= k < |l| => Ticked(l[k]))
  }

  // ----- what the operations do to the screen, a character and an attribute byte per location

  const SCREEN := 2 * POOL

  // mp1_poke
  function Poked(screen: seq<byte>, location: nat, c: byte): (r: seq<byte>)
    requires |screen| == SCREEN && location < POOL
    ensures |r| == SCREEN
  {
    screen[2 * location := c]
  }

  predicate Toggles(e: Entry) { !Positive(Dec(e.countdown)) }

  ghost predicate OnScreen(l: seq<Entry>) { forall k | 0 <= k < |l| :: l[k].location < POOL }

  // After a tick of the first n entries: those that toggle are drawn, in the order of the list.
  function Drawn(screen: seq<byte>, l: seq<Entry>, n: nat): (r: seq<byte>)
    requires |screen| == SCREEN && OnScreen(l) && n <= |l|
    ensures |r| == SCREEN
  {
    if n == 0 then screen
    else
      var (e, s1) := (l[n - 1], Drawn(screen, l, n - 1));
      if !Toggles(e) then s1
      else Poked(s1, e.location, if e.status % 2 == 1 then e.offChar else e.onChar)
  }

  // An addition draws the new blinker, on.
  function AddDrawn(screen: seq<byte>, l: seq<Entry>, q: Request): (r: seq<byte>)
    requires |screen| == SCREEN
    ensures |r| == SCREEN
  {
    if Accepts(l, q.location) then Poked(screen, q.location, q.onChar) else screen
  }

  // A sync draws the second blinker off, whatever its new status: its conditional move tests a flag that the test before
  // it always clears.
  function SyncDrawn(screen: seq<byte>, l: seq<Entry>, from: nat, to: nat): (r: seq<byte>)
    requires |screen| == SCREEN && OnScreen(l)
    ensures |r| == SCREEN
  {
    if FirstAt(l, from) == -1 || FirstAt(l, to) == -1 then screen
    else Poked(screen, to, l[FirstAt(l, to)].offChar)
  }

  // ----- the linked list in the pool

  // `list` gives the slots from head to end; the slots not listed are exactly those with location 0.
  ghost predicate Linked(pool: seq<Node>, head: int, list: seq<nat>) {
    && |pool| == POOL
    && (forall k | 0 <= k < |list| :: list[k] < POOL)
    && (forall j, k | 0 <= j < k < |list| :: list[j] != list[k])
    && head == (if list == [] then NULL else list[0])
    && (forall k {:trigger pool[list[k]]} | 0 <= k < |list| :: pool[list[k]].next == NextOf(list, k))
  }

  function NextOf(list: seq<nat>, k: nat): int { if k + 1 < |list| then list[k + 1] else NULL }

  ghost predicate Partitioned(pool: seq<Node>, list: seq<nat>)
    requires |pool| == POOL
  {
    forall i: nat | i < POOL :: pool[i].location != 0 <==> i in list
  }

  lemma LinkedMeans(pool: seq<Node>, head: int, list: seq<nat>)
    requires Linked(pool, head, list)
    ensures |pool| == POOL && head == (if list == [] then NULL else list[0]) && forall k | 0 <= k < |list| :: list[k] < POOL
  {
  }

  lemma NextIs(pool: seq<Node>, head: int, list: seq<nat>, k: nat)
    requires Linked(pool, head, list) && k < |list|
    ensures list[k] < |pool| && pool[list[k]].next == NextOf(list, k)
  {
  }

  // Every location is on the screen.
  ghost predicate Placed(pool: seq<Node>) { forall i | 0 <= i < |pool| :: pool[i].location < POOL }

  function Contents(pool: seq<Node>, list: seq<nat>): (l: seq<Entry>)
    requires |pool| == POOL && forall k | 0 <= k < |list| :: list[k] < POOL
    ensures |l| == |list|
  {
    seq(|list|, k requires 0 <= k < |list| => EntryOf(pool[list[k]]))
  }

  // The lowest slot that looks free, or NULL.
  function FirstFree(pool: seq<Node>, i: nat): (p: int)
    requires i <= |pool|
    ensures p == NULL || (i <= p < |pool| && pool[p].location == 0)
    ensures forall j | i <= j < (if p == NULL then |pool| else p) :: pool[j].location != 0
    decreases |pool| - i
  {
    if i == |pool| then NULL else if pool[i].location == 0 then i else FirstFree(pool, i + 1)
  }

  // mp1_ioctl_add on the pool itself.
  function AddNode(pool: seq<Node>, head: int, user: Node): (r: (seq<Node>, int, int))
    requires |pool| == POOL
  {
    if user.location >= POOL then (pool, head, -1)
    else
      var p := FirstFree(pool, 0);
      if p == NULL then (pool, head, -1)
      else (pool[p := user.(status := 1, countdown := user.onLength, next := head)], p, 0)
  }

  lemma {:induction false} AddNodeMeans(pool: seq<Node>, head: int, list: seq<nat>, user: Node)
    requires Linked(pool, head, list) && Partitioned(pool, list)
    ensures var (pool', head', r) := AddNode(pool, head, user);
            var list' := if r == 0 then [head' as nat] + list else list;
            && Linked(pool', head', list')
            && r == (if user.location < POOL && |list| < POOL then 0 else -1)
            && Contents(pool', list') == Added(Contents(pool, list), RequestOf(user))
            && (Partitioned(pool', list') <==> r == -1 || user.location != 0)
  {
    FullWhenAllListed(pool, head, list);
    var (pool', head', r) := AddNode(pool, head, user);
    if r == 0 {
      LinkFront(pool, head, list, FirstFree(pool, 0), pool'[FirstFree(pool, 0)]);
      FrontContents(pool, list, FirstFree(pool, 0), pool'[FirstFree(pool, 0)]);
    }
  }

  lemma FrontContents(pool: seq<Node>, list: seq<nat>, p: nat, n: Node)
    requires |pool| == POOL && (forall k | 0 <= k < |list| :: list[k] < POOL) && Partitioned(pool, list)
    requires p < POOL && pool[p].location == 0
    ensures forall k | 0 <= k < |[p] + list| :: ([p] + list)[k] < POOL
    ensures Contents(pool[p := n], [p] + list) == [EntryOf(n)] + Contents(pool, list)
    ensures Partitioned(pool[p := n], [p] + list) <==> n.location != 0
  {
    FrontPartition(pool, list, p, n);
    var list' := [p] + list;
    forall k | 0 <= k < |list'| ensures EntryOf(pool[p := n][list'[k]]) == if k == 0 then EntryOf(n) else EntryOf(pool[list[k - 1]]) {
      if k > 0 { assert list[k - 1] in list; }
    }
  }

  lemma FrontPartition(pool: seq<Node>, list: seq<nat>, p: nat, n: Node)
    requires |pool| == POOL && Partitioned(pool, list) && p < POOL && pool[p].location == 0
    ensures Partitioned(pool[p := n], [p] + list) <==> n.location != 0
  {
    assert p in [p] + list;
    forall i: nat | i < POOL ensures i in [p] + list <==> i == p || i in list {}
  }

  lemma LinkFront(pool: seq<Node>, head: int, list: seq<nat>, p: nat, n: Node)
    requires Linked(pool, head, list) && p < POOL && p !in list && n.next == head
    ensures Linked(pool[p := n], p, [p] + list)
  {
    var (pool', list') := (pool[p := n], [p] + list);
    forall k | 0 <= k < |list'| ensures pool'[list'[k]].next == NextOf(list', k) {
      if k > 0 {
        assert list'[k] == list[k - 1] && list[k - 1] in list;
        assert pool[list[k - 1]].next == NextOf(list, k - 1);
      }
    }
  }

  // A blinker at location 0 is taken into the list but leaves its slot free: the next one gets the same slot, and
  // points to itself.
  lemma LocationZeroMakesACycle(pool: seq<Node>, head: int, zero: Node, user: Node)
    requires |pool| == POOL && zero.location == 0 && user.location < POOL && AddNode(pool, head, zero).2 == 0
    ensures var (pool1, head1, _) := AddNode(pool, head, zero);
            var (pool2, head2, r) := AddNode(pool1, head1, user);
            r == 0 && head2 == head1 && 0 <= head2 < POOL && pool2[head2].next == head2
  {
    var (pool1, head1, _) := AddNode(pool, head, zero);
    assert pool1[head1].location == 0;
    assert forall j | 0 <= j < head1 :: pool1[j] == pool[j];
    assert FirstFree(pool1, 0) == head1;
  }

  class BlinkList {
    var pool: array<Node>
    var head: int
    var screen: array<byte>
    ghost var list: seq<nat>

    ghost predicate Valid()
      reads this, pool
    {
      Linked(pool[..], head, list) && Partitioned(pool[..], list) && Placed(pool[..]) && screen.Length == SCREEN
    }

    ghost function View(): seq<Entry>
      reads this, pool
      requires Valid()
    {
      Contents(pool[..], list)
    }

    constructor (screen: array<byte>)
      requires screen.Length == SCREEN
      ensures Valid() && View() == [] && this.screen == screen && fresh(pool)
    {
      this.screen := screen;
      pool := new Node[POOL](i => ZERO);
      head, list := NULL, [];
    }

    // mp1_find_helper
    method FindHelper(location: nat) returns (p: int)
      requires Valid()
      ensures var k := FirstAt(View(), location); p == if k == -1 then NULL else list[k]
    {
      hide Linked, Partitioned, Placed, FirstAt;
      ghost var k := 0;
      LinkedMeans(pool[..], head, list);
      ghost var l := View();
      p := head;
      while p != NULL
        invariant 0 <= k <= |list| && p == if k < |list| then list[k] else NULL
        invariant forall j | 0 <= j < k :: l[j].location != location
        decreases |list| - k
      {
        assert l[k] == EntryOf(pool[p]);
        if location == pool[p].location {
          FirstAtIs(l, location, k);
          return;
        }
        NextIs(pool[..], head, list, k);
        p := pool[p].next;
        k := k + 1;
      }
      FirstAtIs(l, location, k);
    }

    // mp1_malloc: the lowest free slot. It is not marked as taken until its location is written.
    method Malloc() returns (p: int)
      requires pool.Length == POOL
      ensures p == FirstFree(pool[..], 0)
    {
      var i := 0;
      while i < POOL
        invariant 0 <= i <= POOL && FirstFree(pool[..], i) == FirstFree(pool[..], 0)
      {
        if pool[i].location == 0 {
          return i;
        }
        i := i + 1;
      }
      return NULL;
    }

    // mp1_free
    method Free(p: nat)
      requires p < pool.Length
      modifies pool
      ensures pool[..] == old(pool[..])[p := ZERO]
    {
      pool[p] := ZERO;
    }

    // mp1_poke
    method Poke(location: nat, c: byte)
      requires screen.Length == SCREEN && location < POOL
      modifies screen
      ensures screen[..] == Poked(old(screen[..]), location, c)
    {
      screen[2 * location] := c;
    }

    // mp1_ioctl_add. The new node is on, with the characters and lengths asked for, and goes before the others. The list
    // stays a list; the pool's bookkeeping survives exactly when the location is not 0.
    method Add(user: Node) returns (r: int)
      requires Valid()
      modifies this, pool, screen
      ensures pool == old(pool) && screen == old(screen) && Linked(pool[..], head, list) && Placed(pool[..])
      ensures r == if user.location < 80 * 25 && |old(list)| < 2000 then 0 else -1
      ensures r == -1 ==> pool[..] == old(pool[..]) && screen[..] == old(screen[..]) && list == old(list)
      ensures r == 0 ==> Front(old(head), old(list), user)
      ensures Contents(pool[..], list) == Added(old(View()), RequestOf(user))
      ensures screen[..] == AddDrawn(old(screen[..]), old(View()), RequestOf(user))
      ensures Valid() <==> r == -1 || user.location != 0
    {
      hide Linked, Partitioned, Placed, AddNode, Added;
      LinkedMeans(pool[..], head, list);
      AddNodeMeans(pool[..], head, list, user);
      r := AddSlot(user);
      list := if r == 0 then [head as nat] + list else list;
    }

    // The first node of the list is the one asked for.
    ghost predicate Front(oldHead: int, oldList: seq<nat>, user: Node)
      reads this, pool, screen
    {
      && 0 <= head < pool.Length && user.location < POOL && screen.Length == SCREEN
      && list == [head] + oldList && pool[head].next == oldHead
      && pool[head].location == user.location && pool[head].status == 1 && pool[head].countdown == user.onLength
      && pool[head].onLength == user.onLength && pool[head].offLength == user.offLength
      && pool[head].onChar == user.onChar && pool[head].offChar == user.offChar
      && screen[2 * user.location] == user.onChar
    }

    method AddSlot(user: Node) returns (r: int)
      requires pool.Length == POOL && screen.Length == SCREEN && Placed(pool[..])
      modifies this`head, pool, screen
      ensures (pool[..], head, r) == AddNode(old(pool[..]), old(head), user) && Placed(pool[..])
      ensures screen[..] == if r == 0 then Poked(old(screen[..]), user.location, user.onChar) else old(screen[..])
      ensures r == 0 || (r == -1 && pool[..] == old(pool[..]) && head == old(head))
      ensures r == 0 ==> 0 <= head < POOL && pool[head] == user.(status := 1, countdown := user.onLength, next := old(head))
    {
      var temp := user;
      if temp.location >= 80 * 25 { return -1; }
      temp := temp.(status := 1);
      temp := temp.(countdown := temp.onLength);
      var p := Malloc();
      if p == NULL { return -1; }
      pool[p] := temp;
      pool[p] := pool[p].(next := head);
      assert pool[..] == AddNode(old(pool[..]), head, user).0;
      head := p;
      Poke(pool[p].location, pool[p].onChar);
      return 0;
    }

    // mp1_ioctl_remove: finds the node, walks to the pointer that leads to it, unlinks it and frees its slot.
    method Remove(location: nat) returns (r: int)
      requires Valid()
      modifies this, pool
      ensures pool == old(pool) && Valid() && View() == Removed(old(View()), location)
      ensures r == if FirstAt(old(View()), location) == -1 then -1 else 0
      ensures r == 0 ==> list == Without(old(list), FirstAt(old(View()), location))
      ensures screen == old(screen)
    {
      var p := FindHelper(location);
      if p == NULL { return -1; }
      RemoveNode(p, FirstAt(View(), location));
      return 0;
    }

    method RemoveNode(p: nat, ghost k: nat)
      requires Valid() && k < |list| && p == list[k]
      modifies this, pool
      ensures pool == old(pool) && screen == old(screen) && Valid() && list == Without(old(list), k)
      ensures View() == old(View())[..k] + old(View())[k + 1..]
      ensures pool[..] == Unlinked(old(pool[..]), p, if k == 0 then NULL else old(list[k - 1]))
    {
      hide Linked, Partitioned, Placed, Unlinked;
      LinkedMeans(pool[..], head, list);
      UnlinkMeans(pool[..], head, list, k);
      UnlinkedPlaced(pool[..], p, if k == 0 then NULL else list[k - 1]);
      var prev := FindPrev(p, k);
      Unlink(p, prev);
      list := Without(list, k);
    }

    method Unlink(p: nat, prev: int)
      requires pool.Length == POOL && p < POOL && -1 <= prev < POOL
      modifies this`head, pool
      ensures head == if prev == NULL then old(pool[p]).next else old(head)
      ensures pool[..] == Unlinked(old(pool[..]), p, prev)
    {
      if prev == NULL {
        head := pool[p].next;
      } else {
        pool[prev] := pool[prev].(next := pool[p].next);
      }
      Free(p);
    }

    // remove_find_prev: NULL stands for the list head.
    method FindPrev(p: int, ghost k: nat) returns (prev: int)
      requires Valid() && k < |list| && p == list[k]
      ensures prev == if k == 0 then NULL else list[k - 1]
    {
      prev := NULL;
      var target := head;
      ghost var i := 0;
      while target != p
        invariant 0 <= i <= k && target == list[i] && prev == if i == 0 then NULL else list[i - 1]
        decreases k - i
      {
        prev := target;
        assert pool[..][list[i]].next == NextOf(list, i);
        target := pool[target].next;
        i := i + 1;
      }
      assert i == k;
    }

    // mp1_ioctl_sync
    method Sync(from: nat, to: nat) returns (r: int)
      requires Valid()
      modifies pool, screen
      ensures Valid() && View() == Synced(old(View()), from, to)
      ensures r == if FirstAt(old(View()), from) == -1 || FirstAt(old(View()), to) == -1 then -1 else 0
      ensures OnScreen(old(View())) && screen[..] == SyncDrawn(old(screen[..]), old(View()), from, to)
    {
      ViewOnScreen();
      var p := FindHelper(from);
      if p == NULL { return -1; }
      var q := FindHelper(to);
      if q == NULL { return -1; }
      ghost var was := pool[..];
      ghost var j := FirstAt(View(), to);
      CopyTiming(p, q);
      StoreMeans(was, head, list, j, pool[q]);
      // testb clears the overflow and sign flags, so that cmovl never takes the other character.
      Poke(pool[q].location, pool[q].offChar);
      return 0;
    }

    method CopyTiming(p: nat, q: nat)
      requires p < pool.Length && q < pool.Length
      modifies pool
      ensures pool[..] == old(pool[..])[q := pool[q]] && pool[q].next == old(pool[q]).next
      ensures var (m, n) := (EntryOf(old(pool[p])), EntryOf(old(pool[q])));
              EntryOf(pool[q]) == m.(location := n.location, onChar := n.onChar, offChar := n.offChar)
    {
      pool[q] := pool[q].(onLength := pool[p].onLength);
      pool[q] := pool[q].(offLength := pool[p].offLength);
      pool[q] := pool[q].(countdown := pool[p].countdown);
      pool[q] := pool[q].(status := pool[p].status);
    }

    lemma ViewOnScreen()
      requires Valid()
      ensures OnScreen(View())
    {
    }

    // mp1_rtc_tasklet
    method Tasklet()
      requires Valid()
      modifies pool, screen
      ensures Valid() && View() == TickAll(old(View()))
      ensures OnScreen(old(View())) && screen[..] == Drawn(old(screen[..]), old(View()), |old(View())|)
    {
      hide Linked, Partitioned, Placed, OnScreen, Toggles, Ticked;
      LinkedMeans(pool[..], head, list);
      ViewOnScreen();
      var p := head;
      ghost var k := 0;
      ghost var l, drawn := View(), screen[..];
      while p != NULL
        invariant Valid() && 0 <= k <= |list| && p == if k < |list| then list[k] else NULL
        invariant |l| == |list| && forall j | 0 <= j < |list| :: View()[j] == if j < k then Ticked(l[j]) else l[j]
        invariant screen[..] == Drawn(drawn, l, k)
        decreases |list| - k
      {
        assert View()[k] == l[k];
        p := TickListed(p, k);
        k := k + 1;
      }
    }

    // One turn of the tasklet's loop, at the k-th node.
    method TickListed(p: nat, ghost k: nat) returns (next: int)
      requires Valid() && k < |list| && p == list[k]
      modifies pool, screen
      ensures Valid() && View() == old(View())[k := Ticked(old(View())[k])] && next == NextOf(list, k)
      ensures var e := old(View())[k];
              screen[..] == if !Toggles(e) then old(screen[..])
                            else Poked(old(screen[..]), e.location, if e.status % 2 == 1 then e.offChar else e.onChar)
    {
      ghost var was := pool[..];
      TickNode(p);
      StoreMeans(was, head, list, k, pool[p]);
      assert pool[..][list[k]].next == NextOf(list, k);
      next := pool[p].next;
    }

    method TickNode(p: nat)
      requires p < pool.Length && pool[p].location < POOL && screen.Length == SCREEN
      modifies pool, screen
      ensures pool[..] == old(pool[..])[p := pool[p]] && EntryOf(pool[p]) == Ticked(EntryOf(old(pool[p])))
      ensures pool[p].next == old(pool[p]).next
      ensures var e := EntryOf(old(pool[p]));
              screen[..] == if !Toggles(e) then old(screen[..])
                            else Poked(old(screen[..]), e.location, if e.status % 2 == 1 then e.offChar else e.onChar)
    {
      pool[p] := pool[p].(countdown := Dec(pool[p].countdown));
      if !Positive(pool[p].countdown) {
        var length: nat;
        if pool[p].status % 2 == 1 {
          Poke(pool[p].location, pool[p].offChar);
          length := pool[p].offLength;
        } else {
          Poke(pool[p].location, pool[p].onChar);
          length := pool[p].onLength;
        }
        pool[p] := pool[p].(countdown := length);
        pool[p] := pool[p].(status := if pool[p].status % 2 == 1 then pool[p].status - 1 else pool[p].status + 1);
      }
    }
  }

  function Without<T>(list: seq<T>, k: nat): seq<T>
    requires k < |list|
  {
    list[..k] + list[k + 1..]
  }

  lemma WithoutAt<T>(list: seq<T>, k: nat, j: nat)
    requires k < |list| && j < |list| - 1
    ensures Without(list, k)[j] == list[if j < k then j else j + 1]
  {
  }

  // Writing to a listed node's slot, location and link apart, changes that entry and nothing else.
  lemma StoreMeans(pool: seq<Node>, head: int, list: seq<nat>, k: nat, n: Node)
    requires Linked(pool, head, list) && Partitioned(pool, list) && k < |list|
    requires n.next == pool[list[k]].next && n.location == pool[list[k]].location
    ensures var pool' := pool[list[k] := n];
            Linked(pool', head, list) && Partitioned(pool', list) && Contents(pool', list) == Contents(pool, list)[k := EntryOf(n)]
  {
    var pool' := pool[list[k] := n];
    forall j | 0 <= j < |list| ensures pool'[list[j]].next == NextOf(list, j) {
      assert pool[list[j]].next == NextOf(list, j);
    }
  }

  // The pool after slot p, which slot `prev` or the list head points to, has been unlinked and cleared.
  function Unlinked(pool: seq<Node>, p: nat, prev: int): (r: seq<Node>)
    requires p < |pool| && -1 <= prev < |pool|
    ensures |r| == |pool|
  {
    (if prev == NULL then pool else pool[prev := pool[prev].(next := pool[p].next)])[p := ZERO]
  }

  lemma UnlinkedPlaced(pool: seq<Node>, p: nat, prev: int)
    requires Placed(pool) && p < |pool| && -1 <= prev < |pool|
    ensures Placed(Unlinked(pool, p, prev))
  {
  }

  lemma {:induction false} UnlinkMeans(pool: seq<Node>, head: int, list: seq<nat>, k: nat)
    requires Linked(pool, head, list) && Partitioned(pool, list) && k < |list|
    ensures var (p, prev) := (list[k], if k == 0 then NULL else list[k - 1]);
            var (pool', list') := (Unlinked(pool, p, prev), Without(list, k));
            && Linked(pool', if k == 0 then pool[p].next else head, list') && Partitioned(pool', list')
            && Contents(pool', list') == Contents(pool, list)[..k] + Contents(pool, list)[k + 1..]
  {
    WithoutLinked(pool, head, list, k);
    WithoutPartitioned(pool, head, list, k);
    WithoutContents(pool, list, k);
  }

  lemma WithoutContents(pool: seq<Node>, list: seq<nat>, k: nat)
    requires |pool| == POOL && k < |list| && forall j | 0 <= j < |list| :: list[j] < POOL && (j == k || list[j] != list[k])
    ensures forall j | 0 <= j < |list| - 1 :: Without(list, k)[j] < POOL
    ensures Contents(Unlinked(pool, list[k], if k == 0 then NULL else list[k - 1]), Without(list, k))
            == Without(Contents(pool, list), k)
  {
    var pool' := Unlinked(pool, list[k], if k == 0 then NULL else list[k - 1]);
    var (l, l') := (Contents(pool, list), Contents(pool', Without(list, k)));
    forall j | 0 <= j < |list| - 1 ensures l'[j] == Without(l, k)[j] {
      EntrySurvives(pool, list, k, if j < k then j else j + 1);
      WithoutAt(list, k, j);
      WithoutAt(l, k, j);
    }
  }

  lemma EntrySurvives(pool: seq<Node>, list: seq<nat>, k: nat, i: nat)
    requires |pool| == POOL && k < |list| && i < |list| && i != k && forall j | 0 <= j < |list| :: list[j] < POOL
    requires list[i] != list[k]
    ensures EntryOf(Unlinked(pool, list[k], if k == 0 then NULL else list[k - 1])[list[i]]) == EntryOf(pool[list[i]])
  {
  }

  lemma WithoutDistinct(list: seq<nat>, k: nat)
    requires k < |list| && forall i, j | 0 <= i < j < |list| :: list[i] != list[j]
    ensures forall i, j | 0 <= i < j < |list| - 1 :: Without(list, k)[i] != Without(list, k)[j]
  {
  }

  lemma WithoutLinked(pool: seq<Node>, head: int, list: seq<nat>, k: nat)
    requires Linked(pool, head, list) && k < |list|
    ensures var (p, prev) := (list[k], if k == 0 then NULL else list[k - 1]);
            Linked(Unlinked(pool, p, prev), if k == 0 then pool[p].next else head, Without(list, k))
  {
    WithoutDistinct(list, k);
    var (p, prev) := (list[k], if k == 0 then NULL else list[k - 1]);
    var (pool', list') := (Unlinked(pool, p, prev), Without(list, k));
    assert pool[p].next == NextOf(list, k);
    forall j | 0 <= j < |list'| ensures pool'[list'[j]].next == NextOf(list', j) {
      WithoutNext(pool, head, list, k, j);
    }
  }

  lemma WithoutNext(pool: seq<Node>, head: int, list: seq<nat>, k: nat, j: nat)
    requires Linked(pool, head, list) && k < |list| && j < |list| - 1
    ensures Without(list, k)[j] < POOL
    ensures Unlinked(pool, list[k], if k == 0 then NULL else list[k - 1])[Without(list, k)[j]].next == NextOf(Without(list, k), j)
  {
    var i := if j < k then j else j + 1;
    assert Without(list, k)[j] == list[i] && pool[list[i]].next == NextOf(list, i);
    assert pool[list[k]].next == NextOf(list, k);
  }

  lemma WithoutPartitioned(pool: seq<Node>, head: int, list: seq<nat>, k: nat)
    requires Linked(pool, head, list) && Partitioned(pool, list) && k < |list|
    ensures Partitioned(Unlinked(pool, list[k], if k == 0 then NULL else list[k - 1]), Without(list, k))
  {
    forall i: nat | i < POOL ensures i in Without(list, k) <==> i in list && i != list[k] {
      if i in list && i != list[k] {
        var j :| 0 <= j < |list| && list[j] == i;
        assert Without(list, k)[if j < k then j else j - 1] == i;
      }
    }
  }

  lemma ListedFit(pool: seq<Node>, head: int, list: seq<nat>)
    requires Linked(pool, head, list)
    ensures |Members(list)| == |list| <= POOL && Members(list) <= Below(POOL)
  {
    DistinctSize(list);
    SubsetSize(Members(list), Below(POOL));
  }

  lemma UnlistedSlot(pool: seq<Node>, head: int, list: seq<nat>) returns (free: nat)
    requires Linked(pool, head, list) && |list| != POOL
    ensures free < POOL && free !in list
  {
    ListedFit(pool, head, list);
    var rest := Below(POOL) - Members(list);
    assert Below(POOL) == Members(list) + rest;
    assert rest != {};
    free :| free in rest;
  }

  lemma AllListed(pool: seq<Node>, head: int, list: seq<nat>, i: nat)
    requires Linked(pool, head, list) && |list| == POOL && i < POOL
    ensures i in list
  {
    hide Linked;
    ListedFit(pool, head, list);
    SubsetSize(Members(list), Below(POOL));
    assert i in Members(list);
  }

  lemma FullWhenAllListed(pool: seq<Node>, head: int, list: seq<nat>)
    requires Linked(pool, head, list) && Partitioned(pool, list)
    ensures |list| <= POOL
    ensures |list| == POOL <==> forall i | 0 <= i < POOL :: pool[i].location != 0
  {
    ListedFit(pool, head, list);
    if |list| == POOL {
      forall i: nat | i < POOL ensures pool[i].location != 0 {
        AllListed(pool, head, list, i);
      }
    } else {
      var free := UnlistedSlot(pool, head, list);
      assert pool[free].location == 0;
    }
  }
}
