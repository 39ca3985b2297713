// A file cut into lines, and the lines that contain a pattern: what grep should print.
module TextLines {
  import opened Bytes

  // Index of the first newline, or the length.
  function LineEnd(f: seq<byte>): (n: nat)
    ensures n <= |f| && (forall i | 0 <= i < n :: f[i] != NEWLINE) && (n < |f| ==> f[n] == NEWLINE)
  {
    if f == [] || f[0] == NEWLINE then 0 else 1 + LineEnd(f[1..])
  }

  // What follows the first line.
  function Rest(f: seq<byte>): (r: seq<byte>)
    ensures |r| <= |f| && (f != [] ==> |r| < |f|)
  {
    if LineEnd(f) < |f| then f[LineEnd(f) + 1..] else []
  }

  // The lines of a file, without their newlines; text after the last newline is a line too.
  function Lines(f: seq<byte>): seq<seq<byte>>
    decreases |f|
  {
    if f == [] then [] else [f[..LineEnd(f)]] + Lines(Rest(f))
  }

  function Join(ls: seq<seq<byte>>): seq<byte> {
    if ls == [] then [] else ls[0] + [NEWLINE] + Join(ls[1..])
  }

  lemma JoinCons(l: seq<byte>, ls: seq<seq<byte>>)
    ensures Join([l] + ls) == l + [NEWLINE] + Join(ls)
  {
    assert ([l] + ls)[1..] == ls;
  }

  // A file that ends with a newline, given one if it does not.
  function Closed(f: seq<byte>): seq<byte> {
    if f == [] || f[|f| - 1] == NEWLINE then f else f + [NEWLINE]
  }

  lemma CutAt(f: seq<byte>, n: nat)
    requires n < |f|
    ensures f == f[..n] + [f[n]] + f[n + 1..]
  {
  }

  lemma ClosedRest(f: seq<byte>)
    requires f != []
    ensures Closed(f) == f[..LineEnd(f)] + [NEWLINE] + Closed(Rest(f))
  {
    var n := LineEnd(f);
    if n < |f| {
      CutAt(f, n);
      ClosedTail(f[..n] + [NEWLINE], Rest(f));
    } else {
      assert f[..n] == f && Rest(f) == [];
    }
  }

  lemma ClosedTail(line: seq<byte>, rest: seq<byte>)
    requires line != [] && line[|line| - 1] == NEWLINE
    ensures Closed(line + rest) == line + Closed(rest)
  {
    if rest == [] {
      assert line + rest == line;
    } else {
      assert (line + rest)[|line + rest| - 1] == rest[|rest| - 1];
      Associates(line, rest, [NEWLINE]);
    }
  }

  // Cutting loses nothing: joined again with newlines, the lines are the file, up to a newline at its end.
  lemma {:induction false} LinesJoin(f: seq<byte>)
    ensures Join(Lines(f)) == Closed(f)
    decreases |f|
  {
    if f != [] {
      LinesJoin(Rest(f));
      JoinCons(f[..LineEnd(f)], Lines(Rest(f)));
      ClosedRest(f);
    }
  }

  lemma {:induction false} LinesHaveNoNewline(f: seq<byte>)
    ensures forall l | l in Lines(f) :: NEWLINE !in l
    decreases |f|
  {
    if f != [] {
      LinesHaveNoNewline(Rest(f));
    }
  }

  // pat occurs in line at k.
  predicate OccursAt(line: seq<byte>, pat: seq<byte>, k: nat) {
    k <= |line| && pat <= line[k..]
  }

  // The empty pattern is never reported: the loop compares the first pattern byte, a NUL, with bytes of the line.
  ghost predicate Matches(line: seq<byte>, pat: seq<byte>) {
    pat != [] && exists k: nat :: OccursAt(line, pat, k)
  }

  ghost function Filter(ls: seq<seq<byte>>, pat: seq<byte>): seq<seq<byte>> {
    if ls == [] then [] else (if Matches(ls[0], pat) then [ls[0]] else []) + Filter(ls[1..], pat)
  }

  // The output for a file: each line after the file's name and a colon.
  function Render(fname: seq<byte>, ls: seq<seq<byte>>): seq<byte> {
    if ls == [] then [] else fname + [COLON] + ls[0] + [NEWLINE] + Render(fname, ls[1..])
  }

  // What one line adds to the output.
  ghost function Hit(fname: seq<byte>, line: seq<byte>, pat: seq<byte>): seq<byte> {
    if Matches(line, pat) then fname + [COLON] + line + [NEWLINE] else []
  }

  // The output for a file, line by line.
  ghost function Report(fname: seq<byte>, f: seq<byte>, pat: seq<byte>): seq<byte>
    decreases |f|
  {
    if f == [] then [] else Hit(fname, f[..LineEnd(f)], pat) + Report(fname, Rest(f), pat)
  }

  // It is the rendering of the file's matching lines, in order.
  lemma {:induction false} ReportIsFilter(fname: seq<byte>, f: seq<byte>, pat: seq<byte>)
    ensures Report(fname, f, pat) == Render(fname, Filter(Lines(f), pat))
    decreases |f|
  {
    if f != [] {
      var (line, ls) := (f[..LineEnd(f)], Lines(Rest(f)));
      ReportIsFilter(fname, Rest(f), pat);
      FilterCons(line, ls, pat);
      if Matches(line, pat) {
        RenderCons(fname, line, Filter(ls, pat));
      } else {
        assert [] + Filter(ls, pat) == Filter(ls, pat);
      }
    }
  }

  lemma FilterCons(l: seq<byte>, ls: seq<seq<byte>>, pat: seq<byte>)
    ensures Filter([l] + ls, pat) == (if Matches(l, pat) then [l] else []) + Filter(ls, pat)
  {
    assert ([l] + ls)[1..] == ls;
  }

  lemma RenderCons(fname: seq<byte>, l: seq<byte>, ls: seq<seq<byte>>)
    ensures Render(fname, [l] + ls) == fname + [COLON] + l + [NEWLINE] + Render(fname, ls)
  {
    assert ([l] + ls)[1..] == ls;
  }

  // Every line has fewer than n bytes.
  ghost predicate ShortLines(f: seq<byte>, n: nat)
    decreases |f|
  {
    f == [] || (LineEnd(f) < n && ShortLines(Rest(f), n))
  }

  lemma {:induction false} ShortLinesMeans(f: seq<byte>, n: nat)
    ensures ShortLines(f, n) <==> forall l | l in Lines(f) :: |l| < n
    decreases |f|
  {
    if f != [] {
      ShortLinesMeans(Rest(f), n);
      assert f[..LineEnd(f)] in Lines(f) && forall l | l in Lines(Rest(f)) :: l in Lines(f);
    }
  }

  lemma ShortRest(f: seq<byte>, n: nat)
    requires ShortLines(f, n)
    ensures (f != [] ==> LineEnd(f) < n) && ShortLines(Rest(f), n)
  {
  }

  lemma EmptyHit(fname: seq<byte>, pat: seq<byte>)
    ensures Hit(fname, [], pat) == []
  {
  }

  lemma LineEndIs(f: seq<byte>, n: nat)
    requires n <= |f| && (forall i | 0 <= i < n :: f[i] != NEWLINE) && (n < |f| ==> f[n] == NEWLINE)
    ensures LineEnd(f) == n
  {
  }
}
