// The command line a program passes to `execute`, and the argument a child reads back with `getargs`.
// A command is the readable memory that starts at the pointer.
module Command {
  import opened Bytes

  const BUF_SIZE := 128

  ghost predicate NulFrom(m: seq<byte>, i: nat) {
    exists z :: i <= z < |m| && m[z] == NUL
  }

  // What the parser needs of its caller: the first BUF_SIZE bytes can be read, and a NUL comes somewhere.
  ghost predicate Readable(m: seq<byte>) {
    |m| >= BUF_SIZE && NulFrom(m, 0)
  }

  ghost function SomeNul(m: seq<byte>, i: nat): (z: nat)
    requires i <= |m| && NulFrom(m, i)
    ensures i <= z < |m| && m[z] == NUL
  {
    var z :| i <= z < |m| && m[z] == NUL; z
  }

  // The first index at or after i that is not a space.
  function SkipSpaces(m: seq<byte>, i: nat): (k: nat)
    requires i <= |m|
    ensures i <= k <= |m|
    ensures forall j | i <= j < k :: m[j] == SPACE
    ensures k < |m| ==> m[k] != SPACE
    decreases |m| - i
  {
    if i < |m| && m[i] == SPACE then SkipSpaces(m, i + 1) else i
  }

  predicate EndsName(b: byte) {
    b == NUL || b == NEWLINE || b == SPACE
  }

  // Where the name that starts at i stops: at NUL, newline or space, or at BUF_SIZE.
  function NameEnd(m: seq<byte>, i: nat): (k: nat)
    requires i <= |m|
    ensures i <= k <= |m| && (i < k ==> k <= BUF_SIZE)
    ensures forall j | i <= j < k :: !EndsName(m[j])
    ensures k < |m| && k < BUF_SIZE ==> EndsName(m[k])
    decreases |m| - i
  {
    if i < |m| && i < BUF_SIZE && !EndsName(m[i]) then NameEnd(m, i + 1) else i
  }

  // `stored` is what is written, from its start, into the caller's argument buffer.
  datatype Parsed = Blank | Plain(name: seq<byte>) | WithArg(name: seq<byte>, stored: seq<byte>)

  lemma ScanStopsInside(m: seq<byte>, i: nat)
    requires i <= |m| && NulFrom(m, i)
    ensures SkipSpaces(m, i) < |m| && NulFrom(m, SkipSpaces(m, i))
    ensures NameEnd(m, i) < |m| && NulFrom(m, NameEnd(m, i))
  {
    var z :| i <= z < |m| && m[z] == NUL;
    assert SkipSpaces(m, i) <= z && NameEnd(m, i) <= z;
  }

  // The argument loop tests the byte after the name (`stop`), not the byte it copies, so a copy that starts
  // goes on to the end of the 128 bytes.
  function Copied(m: seq<byte>, arg: nat, stop: byte): seq<byte>
    requires |m| >= BUF_SIZE
  {
    if stop != NEWLINE && arg < BUF_SIZE then m[arg..BUF_SIZE] + [NUL] else [NUL]
  }

  // The parse, from the three places the scans stop at.
  function Divided(m: seq<byte>, start: nat, end: nat, arg: nat): (p: Parsed)
    requires |m| >= BUF_SIZE && start <= end < |m| && end - start <= BUF_SIZE && arg < |m| && (arg > 0 || m[end] == NEWLINE)
    requires forall j | start <= j < end :: m[j] != NUL
    ensures p.WithArg? ==> 0 < |p.stored| <= BUF_SIZE
    ensures !p.Blank? && |p.name| <= BUF_SIZE && NUL !in p.name
  {
    if m[arg] == NUL then Plain(m[start..end]) else WithArg(m[start..end], Copied(m, arg, m[end]))
  }

  function Parse(m: seq<byte>): (p: Parsed)
    requires Readable(m)
    ensures p.WithArg? ==> 0 < |p.stored| <= BUF_SIZE
    ensures !p.Blank? ==> |p.name| <= BUF_SIZE && NUL !in p.name
  {
    ScanStopsInside(m, 0);
    var start := SkipSpaces(m, 0);
    if m[start] == NUL then Blank
    else
      ScanStopsInside(m, start);
      var end := NameEnd(m, start);
      ScanStopsInside(m, end);
      Divided(m, start, end, SkipSpaces(m, end))
  }

  lemma ParseIs(m: seq<byte>, start: nat, end: nat, arg: nat)
    requires Readable(m) && start == SkipSpaces(m, 0) < |m| && m[start] != NUL
    requires end == NameEnd(m, start) < |m| && arg == SkipSpaces(m, end) < |m|
    ensures Parse(m) == if m[arg] == NUL then Plain(m[start..end]) else WithArg(m[start..end], Copied(m, arg, m[end]))
  {
  }

  ghost predicate Ends(b: byte) { b == NUL || b == NEWLINE }

  // The bytes of an argument buffer up to NUL, newline or n bytes.
  function TakeArg(arg: seq<byte>, n: int): (r: seq<byte>)
    ensures r <= arg && |r| <= Max(n, 0)
    ensures forall b | b in r :: b != NUL && b != NEWLINE
    ensures |r| < n && |r| < |arg| ==> arg[|r|] == NUL || arg[|r|] == NEWLINE
    decreases |arg|
  {
    if n <= 0 || arg == [] || arg[0] == NUL || arg[0] == NEWLINE then []
    else [arg[0]] + TakeArg(arg[1..], n - 1)
  }

  // What `getargs` leaves in the caller's buffer, before the closing NUL; None is its -1.
  function GetArgs(arg: seq<byte>, nbytes: int): (r: Option<seq<byte>>)
    requires |arg| == BUF_SIZE
  {
    if arg[0] == NUL then None else Some(TakeArg(arg, Min(nbytes, BUF_SIZE)))
  }

  lemma SkipSpacesTo(m: seq<byte>, i: nat, k: nat)
    requires i <= k < |m| && (forall j | i <= j < k :: m[j] == SPACE) && m[k] != SPACE
    ensures SkipSpaces(m, i) == k
  {
    if SkipSpaces(m, i) < k {
      assert false;
    }
  }

  lemma NameEndTo(m: seq<byte>, i: nat, k: nat)
    requires i <= k < |m| && k < BUF_SIZE && (forall j | i <= j < k :: !EndsName(m[j])) && EndsName(m[k])
    ensures NameEnd(m, i) == k
  {
    if NameEnd(m, i) < k {
      assert false;
    }
  }

  ghost predicate Word(w: seq<byte>) {
    w != [] && forall b | b in w :: !EndsName(b)
  }

  ghost predicate Argument(w: seq<byte>) {
    w != [] && w[0] != SPACE && forall b | b in w :: b != NUL && b != NEWLINE
  }

  // A command line: `lead` spaces, a name, `gap` spaces, an argument, its terminator, and whatever follows.
  function Line(lead: nat, name: seq<byte>, gap: nat, arg: seq<byte>, term: byte, rest: seq<byte>): seq<byte> {
    Repeat(SPACE, lead) + name + Repeat(SPACE, gap) + arg + [term] + rest
  }

  ghost predicate GoodLine(lead: nat, name: seq<byte>, gap: nat, arg: seq<byte>, term: byte, rest: seq<byte>) {
    && Word(name) && gap > 0 && Argument(arg) && (term == NUL || term == NEWLINE)
    && lead + |name| + gap + |arg| < BUF_SIZE
    && Readable(Line(lead, name, gap, arg, term, rest))
  }

  // Where the three scans of a good line stop.
  lemma GoodLineScans(lead: nat, name: seq<byte>, gap: nat, arg: seq<byte>, term: byte, rest: seq<byte>)
    requires GoodLine(lead, name, gap, arg, term, rest)
    ensures var (m, e) := (Line(lead, name, gap, arg, term, rest), lead + |name|);
            && |m| > e + gap && SkipSpaces(m, 0) == lead && NameEnd(m, lead) == e && SkipSpaces(m, e) == e + gap
            && m[lead..e] == name && m[lead] != NUL && m[e] == SPACE && m[e + gap] != NUL
  {
    var m := Line(lead, name, gap, arg, term, rest);
    var e := lead + |name|;
    assert m[lead..e] == name;
    assert m[e + gap..e + gap + |arg|] == arg;
    assert arg[0] in arg;
    assert m[lead] == name[0] && name[0] in name && !EndsName(name[0]) && m[e + gap] == arg[0] && m[e] == SPACE;
    assert forall j | lead <= j < e :: m[j] == name[j - lead];
    SkipSpacesTo(m, 0, lead);
    NameEndTo(m, lead, e);
    SkipSpacesTo(m, e, e + gap);
  }

  lemma ParseGoodLine(lead: nat, name: seq<byte>, gap: nat, arg: seq<byte>, term: byte, rest: seq<byte>)
    requires GoodLine(lead, name, gap, arg, term, rest)
    ensures var m := Line(lead, name, gap, arg, term, rest);
            Parse(m) == WithArg(name, m[lead + |name| + gap..BUF_SIZE] + [NUL])
  {
    GoodLineScans(lead, name, gap, arg, term, rest);
    ParseIs(Line(lead, name, gap, arg, term, rest), lead, lead + |name|, lead + |name| + gap);
  }

  lemma {:induction false} TakeArgIs(arg: seq<byte>, w: seq<byte>, n: int)
    requires |w| <= n && w < arg && (forall b | b in w :: b != NUL && b != NEWLINE)
    requires arg[|w|] == NUL || arg[|w|] == NEWLINE
    ensures TakeArg(arg, n) == w
  {
    if w != [] {
      assert w[0] in w && arg[0] == w[0];
      assert forall b | b in w[1..] :: b in w;
      TakeArgIs(arg[1..], w[1..], n - 1);
      assert w == [w[0]] + w[1..];
    } else {
      assert arg[0] == NUL || arg[0] == NEWLINE;
    }
  }

  lemma StoredArgument(lead: nat, name: seq<byte>, gap: nat, arg: seq<byte>, term: byte, rest: seq<byte>)
    requires GoodLine(lead, name, gap, arg, term, rest)
    ensures var stored := Line(lead, name, gap, arg, term, rest)[lead + |name| + gap..BUF_SIZE] + [NUL];
            arg < stored && stored[|arg|] == term
  {
    var m, a := Line(lead, name, gap, arg, term, rest), lead + |name| + gap;
    assert m[a..a + |arg|] == arg && m[a + |arg|] == term;
    assert m[a..BUF_SIZE][..|arg|] == arg;
  }

  // The round trip: what was typed after the name is what the child reads, whatever the buffer held before.
  lemma ArgumentRoundTrip(lead: nat, name: seq<byte>, gap: nat, arg: seq<byte>, term: byte, rest: seq<byte>,
                          old': seq<byte>, nbytes: int)
    requires GoodLine(lead, name, gap, arg, term, rest)
    requires |old'| == BUF_SIZE && |arg| <= nbytes
    ensures var p := Parse(Line(lead, name, gap, arg, term, rest));
            p.WithArg? && p.name == name && GetArgs(Overlay(old', p.stored), nbytes) == Some(arg)
  {
    ParseGoodLine(lead, name, gap, arg, term, rest);
    StoredArgument(lead, name, gap, arg, term, rest);
    var stored := Parse(Line(lead, name, gap, arg, term, rest)).stored;
    var buf := Overlay(old', stored);
    assert buf[0] == arg[0] && arg[0] in arg;
    assert stored[..|arg|] == arg == buf[..|arg|] && buf[|arg|] == term;
    TakeArgIs(buf, arg, Min(nbytes, BUF_SIZE));
  }

  // The copy stops where the argument does exactly when no terminator follows it in the first 128 bytes, or when
  // the name ends at a newline and there is no argument to copy.
  lemma CopyStopsAtArgument(m: seq<byte>, start: nat, end: nat, arg: nat)
    requires Readable(m) && start == SkipSpaces(m, 0) < |m| && m[start] != NUL
    requires end == NameEnd(m, start) < |m| && arg == SkipSpaces(m, end) < |m| && m[arg] != NUL
    ensures var room := m[Min(arg, BUF_SIZE)..BUF_SIZE];
            && Parse(m).WithArg?
            && (Parse(m).stored == TakeArg(room, |room|) + [NUL] <==>
                m[end] == NEWLINE || forall j | arg <= j < BUF_SIZE :: !Ends(m[j]))
  {
    ParseIs(m, start, end, arg);
    CopiedStops(m, arg, m[end]);
  }

  lemma CopiedStops(m: seq<byte>, arg: nat, stop: byte)
    requires |m| >= BUF_SIZE && arg < |m| && (stop == NEWLINE ==> m[arg] == NEWLINE)
    ensures var room := m[Min(arg, BUF_SIZE)..BUF_SIZE];
            Copied(m, arg, stop) == TakeArg(room, |room|) + [NUL] <==> stop == NEWLINE || forall j | arg <= j < BUF_SIZE :: !Ends(m[j])
  {
    if stop != NEWLINE && arg < BUF_SIZE {
      var room := m[arg..BUF_SIZE];
      WholeWhenOpen(room);
      assert forall j | arg <= j < BUF_SIZE :: m[j] == room[j - arg];
    }
  }

  lemma {:induction false} WholeWhenOpen(w: seq<byte>)
    ensures TakeArg(w, |w|) + [NUL] == w + [NUL] <==> forall j | 0 <= j < |w| :: !Ends(w[j])
  {
    var t := TakeArg(w, |w|);
    if |t| == |w| {
      assert forall j | 0 <= j < |w| :: w[j] in t;
    } else {
      assert |t + [NUL]| != |w + [NUL]| && Ends(w[|t|]);
    }
  }

  // "a b" and NULs: everything to byte 127 is copied, not "b".
  const SHORT_LINE: seq<byte> := [97, SPACE, 98] + Repeat(NUL, BUF_SIZE - 3)

  lemma CopyRunsOn()
    ensures Readable(SHORT_LINE) && Parse(SHORT_LINE).WithArg?
    ensures Parse(SHORT_LINE).name == [97] && TakeArg(SHORT_LINE[2..], BUF_SIZE) == [98]
    ensures Parse(SHORT_LINE).stored == [98] + Repeat(NUL, BUF_SIZE - 2)
  {
    var m := SHORT_LINE;
    assert m[3] == NUL;
    SkipSpacesTo(m, 0, 0);
    NameEndTo(m, 0, 1);
    SkipSpacesTo(m, 1, 2);
    ParseIs(m, 0, 1, 2);
    assert m[2..BUF_SIZE] + [NUL] == [98] + Repeat(NUL, BUF_SIZE - 2);
    TakeArgIs(m[2..], [98], BUF_SIZE);
  }

  // Spaces, a word and NULs.
  function BareLine(lead: nat, word: seq<byte>): (m: seq<byte>)
    requires lead + |word| < BUF_SIZE
    ensures |m| == BUF_SIZE
  {
    Repeat(SPACE, lead) + word + Repeat(NUL, BUF_SIZE - lead - |word|)
  }

  // Such a line is a name without an argument.
  lemma BareLineIsName(lead: nat, word: seq<byte>)
    requires word != [] && lead + |word| < BUF_SIZE && forall b | b in word :: !EndsName(b)
    ensures Readable(BareLine(lead, word)) && Parse(BareLine(lead, word)) == Plain(word)
  {
    var (m, end) := (BareLine(lead, word), lead + |word|);
    assert m[end] == NUL;
    forall j | lead <= j < end ensures !EndsName(m[j]) { assert m[j] == word[j - lead] && m[j] in word; }
    SkipSpacesTo(m, 0, lead);
    NameEndTo(m, lead, end);
    SkipSpacesTo(m, end, end);
    ParseIs(m, lead, end, end);
    assert m[lead..end] == word;
  }

  // "a" and NULs: a name and no argument.
  const BARE_LINE: seq<byte> := [97] + Repeat(NUL, BUF_SIZE - 1)

  lemma BareLineIsPlain()
    ensures Readable(BARE_LINE) && Parse(BARE_LINE) == Plain([97])
  {
    assert BARE_LINE == BareLine(0, [97]);
    BareLineIsName(0, [97]);
  }
}
