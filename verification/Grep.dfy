// The streaming grep: a sliding buffer of 1024 bytes, filled by reads on a descriptor, that carries an unfinished
// line over to the next read. Its output is what filtering the lines of the whole file would print.
module Grep {
  import opened Bytes
  import opened Machine
  import opened FileSystem
  import opened Calls
  import opened TextLines

  const BUFSIZE := 1024

  // ----- the support library, on the buffer

  // The n bytes at `at` are a C string.
  ghost predicate Terminated(data: seq<byte>, at: nat, n: nat) {
    at + n < |data| && data[at + n] == NUL && forall i | at <= i < at + n :: data[i] != NUL
  }

  method Strncmp(data: array<byte>, at: nat, ghost len: nat, s: seq<byte>, n: nat) returns (r: int)
    requires Terminated(data[..], at, len) && Terminated(s, 0, n)
    ensures r == 0 <==> s[..n] <= data[at..at + len]
    ensures r != 0 ==> exists k: nat :: k < n && k <= len && data[at..at + k] == s[..k] && r == data[at + k] as int - s[k] as int
  {
    if n == 0 {
      return 0;
    }
    var i, left := 0, n;
    while data[at + i] == s[i]
      invariant 0 <= i < n && i <= len && left == n - i
      invariant forall j | 0 <= j < i :: data[at + j] == s[j]
      decreases left
    {
      left := left - 1;
      if data[at + i] == NUL || left == 0 {
        assert i < len;
        assert s[..n] == data[at..at + len][..n];
        return 0;
      }
      i := i + 1;
    }
    assert i == len || data[at..at + len][i] != s[..n][i];
    r := data[at + i] as int - s[i] as int;
  }

  // Copies down over itself: the destination starts below the source.
  method Strcpy(data: array<byte>, src: nat, ghost n: nat)
    requires src > 0 && Terminated(data[..], src, n)
    modifies data
    ensures data[..] == Splice(old(data[..]), 0, old(data[src..src + n + 1]))
  {
    ghost var was := data[..];
    var i := 0;
    while true
      invariant 0 <= i <= n
      invariant forall j | 0 <= j < i :: data[j] == was[src + j]
      invariant forall j | i <= j < data.Length :: data[j] == was[j]
      decreases n - i
    {
      var b := data[src + i];
      data[i] := b;
      i := i + 1;
      if b == NUL { break; }
    }
    assert data[..i] == was[src..src + n + 1];
  }

  // The bytes of the C string at `at`, as written to the terminal.
  method Fdputs(out: seq<byte>, data: array<byte>, at: nat, ghost n: nat) returns (r: seq<byte>)
    requires Terminated(data[..], at, n)
    ensures r == out + data[at..at + n]
  {
    var len := 0;
    while data[at + len] != NUL
      invariant 0 <= len <= n
      decreases n - len
    {
      len := len + 1;
    }
    r := out + data[at..at + len];
  }

  // ----- one line

  // Searches the line for the pattern s[..n], and reports it once if it is there.
  method SearchLine(data: array<byte>, lineStart: nat, lineEnd: nat, s: seq<byte>, n: nat, fname: seq<byte>, out: seq<byte>)
    returns (r: seq<byte>)
    requires lineStart <= lineEnd && Terminated(data[..], lineStart, lineEnd - lineStart) && Terminated(s, 0, n)
    ensures var line := data[lineStart..lineEnd];
            r == out + Hit(fname, line, s[..n])
  {
    ghost var line, pat := data[lineStart..lineEnd], s[..n];
    r := out;
    var check := lineStart;
    while check < lineEnd
      invariant lineStart <= check <= lineEnd && r == out
      invariant n > 0 ==> forall k: nat | k < check - lineStart :: !OccursAt(line, pat, k)
    {
      assert line[check - lineStart..] == data[check..lineEnd];
      if s[0] == data[check] {
        assert n > 0;
        var c := Strncmp(data, check, lineEnd - check, s, n);
        if c == 0 {
          assert OccursAt(line, pat, check - lineStart);
          r := r + fname;
          r := r + [COLON];
          r := Fdputs(r, data, lineStart, lineEnd - lineStart);
          r := r + [NEWLINE];
          return;
        }
      }
      assert n > 0 ==> !OccursAt(line, pat, check - lineStart) by {
        if n > 0 && s[0] != data[check] { assert pat[0] != line[check - lineStart..][0]; }
      }
      check := check + 1;
    }
    assert n > 0 ==> !OccursAt(line, pat, |line|);
  }

  // ----- one buffer

  // The first `last` bytes of the buffer are the file's bytes from `base`. Beyond them the buffer holds leftovers,
  // but never a newline in its last byte.
  ghost predicate Window(data: seq<byte>, f: seq<byte>, base: nat, start: nat, last: nat) {
    && |data| == BUFSIZE + 1 && data[BUFSIZE] != NEWLINE && start <= last <= BUFSIZE && base + last <= |f|
    && forall i | start <= i < last :: data[i] == f[base + i]
  }

  method ScanLine(data: array<byte>, lineStart: nat, last: nat) returns (lineEnd: nat)
    requires lineStart <= last <= data.Length
    ensures lineStart <= lineEnd <= last
    ensures forall i | lineStart <= i < lineEnd :: data[i] != NEWLINE
    ensures lineEnd < last ==> data[lineEnd] == NEWLINE
  {
    lineEnd := lineStart;
    while lineEnd < last && NEWLINE != data[lineEnd]
      invariant lineStart <= lineEnd <= last && forall i | lineStart <= i < lineEnd :: data[i] != NEWLINE
    {
      lineEnd := lineEnd + 1;
    }
  }

  // A line found in the window is the first line of the rest of the file, if it ends in a newline or with the file.
  lemma LineInWindow(data: seq<byte>, f: seq<byte>, base: nat, start: nat, end: nat, last: nat)
    requires Window(data, f, base, start, last) && start <= end <= last
    requires forall i | start <= i < end :: data[i] != NEWLINE
    requires if end < last then data[end] == NEWLINE else base + last == |f|
    ensures LineEnd(f[base + start..]) == end - start && f[base + start..][..end - start] == data[start..end]
    ensures Rest(f[base + start..]) == if end < last then f[base + end + 1..] else []
  {
    var g := f[base + start..];
    assert forall j | 0 <= j < last - start :: g[j] == data[start + j];
    LineEndIs(g, end - start);
    assert g[..end - start] == data[start..end];
  }

  // A window that is full has a newline in it, because lines are short.
  lemma FullWindowHasLine(data: seq<byte>, f: seq<byte>, base: nat)
    requires Window(data, f, base, 0, BUFSIZE) && ShortLines(f[base..], BUFSIZE)
    ensures exists i :: 0 <= i < BUFSIZE && data[i] == NEWLINE
  {
    var g := f[base..];
    ShortRest(g, BUFSIZE);
    assert data[LineEnd(g)] == g[LineEnd(g)];
  }

  lemma ReportTaken(fname: seq<byte>, g: seq<byte>, pat: seq<byte>, out: seq<byte>)
    ensures out + Hit(fname, g[..LineEnd(g)], pat) + Report(fname, Rest(g), pat) == out + Report(fname, g, pat)
  {
    Associates(out, Hit(fname, g[..LineEnd(g)], pat), Report(fname, Rest(g), pat));
    EmptyHit(fname, pat);
    if g == [] {
      assert g[..LineEnd(g)] == [];
    }
  }

  // Where the line after the one that ends at `end` starts.
  function NextLine(f: seq<byte>, base: nat, end: nat, last: nat): nat {
    if end < last then base + end + 1 else |f|
  }

  ghost predicate FoundLine(data: seq<byte>, f: seq<byte>, base: nat, start: nat, end: nat, last: nat) {
    && Window(data, f, base, start, last) && start <= end <= last
    && (forall i | start <= i < end :: data[i] != NEWLINE)
    && (if end < last then data[end] == NEWLINE else base + last == |f|)
  }

  lemma LineClosed(data: seq<byte>, f: seq<byte>, base: nat, start: nat, end: nat, last: nat)
    requires FoundLine(data, f, base, start, end, last) && NUL !in f
    ensures var closed := data[end := NUL];
            && closed[BUFSIZE] != NEWLINE && (end < last ==> Window(closed, f, base, end + 1, last))
            && Terminated(closed, start, end - start) && closed[start..end] == data[start..end]
  {
    KeepLine(data, f, base, start, end, last);
  }

  lemma RestAfterLine(data: seq<byte>, f: seq<byte>, base: nat, here: nat, start: nat, end: nat, last: nat)
    requires FoundLine(data, f, base, start, end, last) && here == base + start
    ensures NextLine(f, base, end, last) <= |f| && Rest(f[here..]) == f[NextLine(f, base, end, last)..]
    ensures f[here..][..LineEnd(f[here..])] == data[start..end]
  {
    LineInWindow(data, f, base, start, end, last);
  }

  // What closing a finished line and searching it amounts to.
  lemma LineTaken(data: seq<byte>, f: seq<byte>, base: nat, here: nat, start: nat, end: nat, last: nat,
                  fname: seq<byte>, pat: seq<byte>, out: seq<byte>)
    requires FoundLine(data, f, base, start, end, last) && here == base + start && ShortLines(f[here..], BUFSIZE)
    ensures var next := NextLine(f, base, end, last);
            && next <= |f| && ShortLines(f[next..], BUFSIZE)
            && out + Hit(fname, data[start..end], pat) + Report(fname, f[next..], pat) == out + Report(fname, f[here..], pat)
  {
    RestAfterLine(data, f, base, here, start, end, last);
    ReportTaken(fname, f[here..], pat, out);
    ShortRest(f[here..], BUFSIZE);
  }

  // Closes a finished line with a NUL and searches it.
  method TakeLine(data: array<byte>, lineStart: nat, lineEnd: nat, last: nat, s: seq<byte>, n: nat, fname: seq<byte>,
                  out: seq<byte>, ghost f: seq<byte>, ghost base: nat, ghost here: nat)
    returns (out': seq<byte>)
    requires here == base + lineStart && Window(data[..], f, base, lineStart, last) && ShortLines(f[here..], BUFSIZE)
    requires NUL !in f && Terminated(s, 0, n) && lineStart <= lineEnd <= last
    requires forall i | lineStart <= i < lineEnd :: data[i] != NEWLINE
    requires if lineEnd < last then data[lineEnd] == NEWLINE else base + last == |f|
    modifies data
    ensures data[BUFSIZE] != NEWLINE && (lineEnd < last ==> Window(data[..], f, base, lineEnd + 1, last))
    ensures var next := NextLine(f, base, lineEnd, last);
            && next <= |f| && ShortLines(f[next..], BUFSIZE)
            && out' + Report(fname, f[next..], s[..n]) == out + Report(fname, f[here..], s[..n])
  {
    assert FoundLine(data[..], f, base, lineStart, lineEnd, last);
    LineClosed(data[..], f, base, lineStart, lineEnd, last);
    LineTaken(data[..], f, base, here, lineStart, lineEnd, last, fname, s[..n], out);
    ghost var closed := data[..][lineEnd := NUL];
    data[lineEnd] := NUL;
    assert data[..] == closed;
    out' := SearchLine(data, lineStart, lineEnd, s, n, fname, out);
  }

  lemma KeepLine(data: seq<byte>, f: seq<byte>, base: nat, start: nat, end: nat, last: nat)
    requires Window(data, f, base, start, last) && start <= end <= last && NUL !in f
    ensures Terminated(data[end := NUL], start, end - start)
  {
  }

  // Moves the unfinished line to the front of the buffer.
  method KeepRest(data: array<byte>, lineStart: nat, lineEnd: nat, last: nat, ghost f: seq<byte>, ghost base: nat)
    returns (last': nat)
    requires Window(data[..], f, base, lineStart, last) && 0 < lineStart < last && NUL !in f
    requires lineStart <= lineEnd <= last && (lineEnd < last ==> data[lineEnd] == NEWLINE) && data[lineEnd] != NEWLINE
    modifies data
    ensures last' == last - lineStart && Window(data[..], f, base + lineStart, 0, last')
  {
    KeepLine(data[..], f, base, lineStart, lineEnd, last);
    data[lineEnd] := NUL;
    Strcpy(data, lineStart, lineEnd - lineStart);
    last' := last - lineStart;
  }

  // Where a scan of f stands: the rest of the text is still to be searched, and with what has been printed it
  // makes up the whole report.
  ghost predicate Owed(f: seq<byte>, here: nat, out: seq<byte>, fname: seq<byte>, pat: seq<byte>, all: seq<byte>) {
    here <= |f| && ShortLines(f[here..], BUFSIZE) && out + Report(fname, f[here..], pat) == all
  }

  lemma OwedStill(f: seq<byte>, here: nat, out: seq<byte>, here': nat, out': seq<byte>, fname: seq<byte>, pat: seq<byte>, all: seq<byte>)
    requires Owed(f, here, out, fname, pat, all) && here' <= |f| && ShortLines(f[here'..], BUFSIZE)
    requires out' + Report(fname, f[here'..], pat) == out + Report(fname, f[here..], pat)
    ensures Owed(f, here', out', fname, pat, all)
  {
  }

  // The inner loop of do_one_file: reports the finished lines of the buffer, and moves an unfinished one to its front.
  method SplitBuffer(data: array<byte>, last: nat, cnt: nat, s: seq<byte>, n: nat, fname: seq<byte>, out: seq<byte>,
                     ghost f: seq<byte>, ghost base: nat, ghost all: seq<byte>)
    returns (last': nat, out': seq<byte>, ghost here: nat)
    requires Terminated(s, 0, n) && NUL !in f && Window(data[..], f, base, 0, last) && Owed(f, base, out, fname, s[..n], all)
    requires last < BUFSIZE || cnt == 0 ==> base + last == |f|
    modifies data
    ensures last' < BUFSIZE && last' <= last && (cnt == 0 ==> last' == 0) && here == base + last - last'
    ensures Window(data[..], f, here, 0, last') && Owed(f, here, out', fname, s[..n], all)
  {
    hide GoodImage;
    var lineStart := 0;
    here, out', last' := base, out, last;
    while true
      invariant here == base + lineStart && Window(data[..], f, base, lineStart, last)
      invariant lineStart < last || (last == 0 && lineStart == 0)
      invariant Owed(f, here, out', fname, s[..n], all)
      decreases last - lineStart
    {
      var lineEnd := ScanLine(data, lineStart, last);
      if NEWLINE != data[lineEnd] && 0 != cnt && lineStart != 0 {
        last' := KeepRest(data, lineStart, lineEnd, last, f, base);
        break;
      }
      LineIsWhole(data, f, base, here, lineStart, lineEnd, last, cnt);
      ghost var was, next := out', NextLine(f, base, lineEnd, last);
      out' := TakeLine(data, lineStart, lineEnd, last, s, n, fname, out', f, base, here);
      OwedStill(f, here, was, next, out', fname, s[..n], all);
      here := next;
      lineStart := lineEnd + 1;
      if lineStart >= last {
        last' := 0;
        break;
      }
    }
  }

  // A line that is not kept for later ends in the window, or the file does.
  lemma LineIsWhole(data: array<byte>, f: seq<byte>, base: nat, here: nat, start: nat, end: nat, last: nat, cnt: nat)
    requires here == base + start && Window(data[..], f, base, start, last) && start <= end <= last && ShortLines(f[here..], BUFSIZE)
    requires last < BUFSIZE || cnt == 0 ==> base + last == |f|
    requires forall i | start <= i < end :: data[i] != NEWLINE
    requires (end < last ==> data[end] == NEWLINE) && (data[end] == NEWLINE || cnt == 0 || start == 0)
    ensures if end < last then data[end] == NEWLINE else base + last == |f|
  {
    if end == last == BUFSIZE && start == 0 {
      FullWindowHasLine(data[..], f, base);
      assert false;
    }
  }

  // ----- the file

  // A descriptor at byte `pos` of the text f that reading it delivers. The clock delivers nothing.
  ghost predicate Reading(img: Image, d: Fd, f: seq<byte>, pos: nat)
    requires GoodImage(img)
  {
    && d.Present? && d.position == pos
    && if d.kind == Rtc then |f| == 0 && pos == 0 else d.kind == File && OnFile(img, d) && f == Flat(img, d.inode)
  }

  // The other descriptors are as they were.
  ghost predicate OthersKept(was: seq<Fd>, now: seq<Fd>, fd: nat) {
    |now| == |was| && forall i | 0 <= i < |was| && i != fd :: now[i] == was[i]
  }

  lemma ReadingOn(img: Image, d: Fd, f: seq<byte>, pos: nat, nbytes: nat)
    requires GoodImage(img) && Reading(img, d, f, pos) && nbytes <= BUFSIZE
    ensures CanRead(img, d) && d.Present? && d.kind != Dir
    ensures var (got, d') := ReadStep(img, d, nbytes);
            && got.Some? && |got.value| <= nbytes && pos + |got.value| <= |f| && Reading(img, d', f, pos + |got.value|)
            && got.value == f[pos..pos + |got.value|] && (|got.value| < nbytes ==> pos + |got.value| == |f|)
  {
    hide GoodImage, Flat;
    if d.kind == File { ReadKeepsOnFile(img, d, nbytes); }
  }

  // A `read` on the text's descriptor.
  method ReadText(img: Image, fds: array<Fd>, fd: nat, buf: array<byte>, at: nat, nbytes: nat, ghost f: seq<byte>, ghost pos: nat)
    returns (r: nat)
    requires GoodImage(img) && fd < fds.Length == FDT_SIZE && Reading(img, fds[fd], f, pos)
    requires nbytes <= BUFSIZE && at + nbytes <= buf.Length
    modifies fds, buf
    ensures OthersKept(old(fds[..]), fds[..], fd) && pos + r <= |f| && Reading(img, fds[fd], f, pos + r)
    ensures r <= nbytes && buf[..] == Splice(old(buf[..]), at, f[pos..pos + r])
    ensures r < nbytes ==> pos + r == |f|
  {
    hide GoodImage, CanRead, Reading, ReadStep;
    ghost var was := fds[..];
    ReadingOn(img, fds[fd], f, pos, nbytes);
    r := Read(img, fds, fd, buf, at, nbytes);
    OneChanged(was, fds[..], fd);
  }

  lemma OneChanged(was: seq<Fd>, now: seq<Fd>, fd: nat)
    requires fd < |was| && |now| == |was| && now == was[fd := now[fd]]
    ensures OthersKept(was, now, fd)
  {
  }

  // A read that fills the free part of the buffer, or reaches the end of the file.
  method Refill(img: Image, fds: array<Fd>, fd: nat, data: array<byte>, last: nat, ghost f: seq<byte>, ghost here: nat)
    returns (cnt: nat)
    requires GoodImage(img) && fd < fds.Length == FDT_SIZE && Reading(img, fds[fd], f, here + last)
    requires last < BUFSIZE && Window(data[..], f, here, 0, last)
    modifies fds, data
    ensures OthersKept(old(fds[..]), fds[..], fd) && Reading(img, fds[fd], f, here + last + cnt)
    ensures last + cnt <= BUFSIZE && Window(data[..], f, here, 0, last + cnt)
    ensures last + cnt < BUFSIZE || cnt == 0 ==> here + last + cnt == |f|
  {
    cnt := ReadText(img, fds, fd, data, last, BUFSIZE - last, f, here + last);
  }

  // One turn of the loop of do_one_file: a read, and the lines it finishes.
  method ReadAndSplit(img: Image, fds: array<Fd>, fd: nat, data: array<byte>, last: nat, s: seq<byte>, n: nat, fname: seq<byte>,
                      out: seq<byte>, ghost f: seq<byte>, ghost here: nat, ghost all: seq<byte>)
    returns (cnt: nat, last': nat, out': seq<byte>, ghost here': nat)
    requires GoodImage(img) && fd < fds.Length == FDT_SIZE && Reading(img, fds[fd], f, here + last) && NUL !in f && Terminated(s, 0, n)
    requires last < BUFSIZE && Window(data[..], f, here, 0, last) && Owed(f, here, out, fname, s[..n], all)
    modifies fds, data
    ensures OthersKept(old(fds[..]), fds[..], fd) && Reading(img, fds[fd], f, here' + last')
    ensures last' < BUFSIZE && Window(data[..], f, here', 0, last') && Owed(f, here', out', fname, s[..n], all)
    ensures here' + last' == here + last + cnt && (cnt == 0 ==> here' == |f|)
  {
    cnt := Refill(img, fds, fd, data, last, f, here);
    last', out', here' := SplitBuffer(data, last + cnt, cnt, s, n, fname, out, f, here, all);
  }

  lemma NothingOwed(f: seq<byte>, out: seq<byte>, fname: seq<byte>, pat: seq<byte>, all: seq<byte>)
    requires Owed(f, |f|, out, fname, pat, all)
    ensures out == all
  {
    assert f[|f|..] == [];
  }

  // The loop of do_one_file. Whatever the buffer held before, and wherever the reads cut the file: the output is the
  // file's matching lines, whole, in order, once each.
  method ScanFile(img: Image, fds: array<Fd>, fd: nat, s: seq<byte>, n: nat, fname: seq<byte>, data: array<byte>, out: seq<byte>,
                  ghost f: seq<byte>, ghost all: seq<byte>)
    returns (out': seq<byte>)
    requires GoodImage(img) && Terminated(s, 0, n) && data.Length == BUFSIZE + 1 && data[BUFSIZE] != NEWLINE
    requires fd < fds.Length == FDT_SIZE && Reading(img, fds[fd], f, 0) && NUL !in f && Owed(f, 0, out, fname, s[..n], all)
    modifies fds, data
    ensures OthersKept(old(fds[..]), fds[..], fd) && fds[fd].Present? && out' == all
  {
    var last := 0;
    ghost var here: nat := 0;
    out' := out;
    while true
      invariant OthersKept(old(fds[..]), fds[..], fd) && Reading(img, fds[fd], f, here + last)
      invariant last < BUFSIZE && Window(data[..], f, here, 0, last) && Owed(f, here, out', fname, s[..n], all)
      decreases |f| - here - last
    {
      var cnt;
      cnt, last, out', here := ReadAndSplit(img, fds, fd, data, last, s, n, fname, out', f, here, all);
      if cnt == 0 { break; }
    }
    NothingOwed(f, out', fname, s[..n], all);
  }
}
