// The grep program: the command argument as pattern, the directory listed name by name, every name opened, searched
// and closed. The whole composes the command line, the directory, the descriptors, the files and the line splitter.
module GrepAll {
  import opened Bytes
  import opened Machine
  import opened FileSystem
  import opened Directory
  import opened Calls
  import opened TextLines
  import opened Grep

  const DOT: byte := 46
  const SBUFSIZE := 33

  // "file open failed\n", "could not read argument\n", "directory open failed\n"
  const OPEN_FAILED: seq<byte> := [102, 105, 108, 101, 32, 111, 112, 101, 110, 32, 102, 97, 105, 108, 101, 100, 10]
  const NO_ARGUMENT: seq<byte> := [99, 111, 117, 108, 100, 32, 110, 111, 116, 32, 114, 101, 97, 100, 32, 97, 114, 103, 117, 109,
                                   101, 110, 116, 10]
  const NO_DIRECTORY: seq<byte> := [100, 105, 114, 101, 99, 116, 111, 114, 121, 32, 111, 112, 101, 110, 32, 102, 97, 105, 108,
                                    101, 100, 10]

  // ----- one file

  ghost predicate Text(img: Image, inode: nat)
    requires GoodImage(img)
  {
    && inode < |img.inodes| && inode < NUM_INODES && img.inodes[inode].length < MAX_OFFSET
    && NUL !in Flat(img, inode) && ShortLines(Flat(img, inode), BUFSIZE)
  }

  // The clock, which delivers nothing, or a text file within grep's limits.
  ghost predicate Searchable(img: Image, k: nat)
    requires GoodImage(img)
  {
    k < img.numDentries && (img.dentries[k].fileType == 0 || (img.dentries[k].fileType == 2 && Text(img, img.dentries[k].inodeNum)))
  }

  // What reading the k-th entry delivers.
  ghost function TextOf(img: Image, k: nat): seq<byte>
    requires GoodImage(img) && Searchable(img, k)
  {
    if img.dentries[k].fileType == 0 then [] else Flat(img, img.dentries[k].inodeNum)
  }

  // What grep prints for a name.
  ghost function Found(img: Image, k: nat, fname: seq<byte>, pat: seq<byte>): seq<byte>
    requires GoodImage(img) && Searchable(img, k)
  {
    Render(fname, Filter(Lines(TextOf(img, k)), pat))
  }

  lemma StartsReading(img: Image, k: nat, fname: seq<byte>, pat: seq<byte>, out: seq<byte>)
    requires GoodImage(img) && Searchable(img, k)
    ensures var f := TextOf(img, k);
            && Reading(img, Opened(img.dentries[k]), f, 0)
            && NUL !in f && Owed(f, 0, out, fname, pat, out + Found(img, k, fname, pat))
  {
    var f := TextOf(img, k);
    ReportIsFilter(fname, f, pat);
    assert f[0..] == f;
  }

  // do_one_file: the file is opened, searched and closed, and the descriptors are as they were.
  method DoOneFile(img: Image, fds: array<Fd>, s: seq<byte>, n: nat, fname: seq<byte>, data: array<byte>, out: seq<byte>)
    returns (r: int, out': seq<byte>)
    requires GoodImage(img) && Terminated(s, 0, n) && data.Length == BUFSIZE + 1 && data[BUFSIZE] != NEWLINE
    requires NUL !in fname && fds.Length == FDT_SIZE
    requires var k := Find(img, fname, 0); k == -1 || Searchable(img, k)
    modifies fds, data
    ensures fds[..] == old(fds[..])
    ensures var k := Find(img, fname, 0);
            if k == -1 || FreeFd(fds[..]) == -1 then r == -1 && out' == out + OPEN_FAILED
            else r == 0 && out' == out + Found(img, k, fname, s[..n])
  {
    ghost var k := Find(img, fname, 0);
    ghost var was := fds[..];
    var fd := Open(img, fds, fname);
    if fd == -1 { return -1, out + OPEN_FAILED; }
    StartsReading(img, k, fname, s[..n], out);
    out' := ScanFile(img, fds, fd, s, n, fname, data, out, TextOf(img, k), out + Found(img, k, fname, s[..n]));
    r := Close(fds, fd);
    assert fds[..] == was;
  }

  // ----- the directory

  // From entry i on: names that begin with a dot are passed over, an empty name ends the listing.
  ghost function FoundFrom(img: Image, pat: seq<byte>, i: nat): seq<byte>
    requires GoodImage(img) && AllSearchable(img)
    decreases img.numDentries - i
  {
    if Ends(img, i) then [] else FoundAt(img, pat, i) + FoundFrom(img, pat, i + 1)
  }

  // The listing ends after the last entry, or at an empty name.
  predicate Ends(img: Image, i: nat)
    requires GoodImage(img)
  {
    i >= img.numDentries || Name(img.dentries[i]) == []
  }

  ghost function FoundAt(img: Image, pat: seq<byte>, i: nat): seq<byte>
    requires GoodImage(img) && AllSearchable(img) && !Ends(img, i)
  {
    var name := Name(img.dentries[i]);
    if name[0] == DOT then [] else Found(img, Find(img, name, 0), name, pat)
  }

  // A directory's descriptor, about to deliver entry i.
  predicate Listing(d: Fd, i: nat) { d.Present? && d.kind == Dir && d.position == i }

  // "." is the directory; whatever else does not begin with a dot can be searched.
  ghost predicate AllSearchable(img: Image)
    requires GoodImage(img)
  {
    && (Find(img, [DOT], 0) >= 0 ==> img.dentries[Find(img, [DOT], 0)].fileType == 1)
    && forall k: nat | k < img.numDentries && Name(img.dentries[k]) != [] && Name(img.dentries[k])[0] != DOT :: Searchable(img, k)
  }

  lemma DotLists(img: Image)
    requires GoodImage(img) && AllSearchable(img) && Find(img, [DOT], 0) >= 0
    ensures Listing(Opened(img.dentries[Find(img, [DOT], 0)]), 0)
  {
  }

  lemma ListedIsFound(img: Image, i: nat)
    requires GoodImage(img) && i < img.numDentries
    ensures 0 <= Find(img, Name(img.dentries[i]), 0) <= i && NUL !in Name(img.dentries[i])
  {
    var name := Name(img.dentries[i]);
    if Find(img, name, 0) == -1 || Find(img, name, 0) > i {
      assert false;
    }
  }

  // When no two entries share a name, the entry searched under a name is the one listed.
  lemma EachSearchedOnce(img: Image, pat: seq<byte>, i: nat)
    requires GoodImage(img) && AllSearchable(img) && !Ends(img, i) && Name(img.dentries[i])[0] != DOT
    requires forall j, k | 0 <= j < k < img.numDentries :: Name(img.dentries[j]) != Name(img.dentries[k])
    ensures FoundAt(img, pat, i) == Found(img, i, Name(img.dentries[i]), pat)
  {
    ListedIsFound(img, i);
    assert Name(img.dentries[Find(img, Name(img.dentries[i]), 0)]) == Name(img.dentries[i]);
  }

  // A `read` on the directory's descriptor.
  method ReadDirectory(img: Image, fds: array<Fd>, fd: nat, buf: array<byte>, ghost i: nat) returns (cnt: nat, name: seq<byte>)
    requires GoodImage(img) && fd < fds.Length == FDT_SIZE && Listing(fds[fd], i) && i <= img.numDentries && buf.Length >= SBUFSIZE
    modifies fds, buf
    ensures cnt == |name| < SBUFSIZE && buf[..cnt] == name && (cnt == 0 <==> Ends(img, i))
    ensures cnt > 0 ==> name == Name(img.dentries[i]) && Listing(fds[fd], i + 1)
    ensures forall j | 0 <= j < fds.Length && j != fd :: fds[j] == old(fds[j])
  {
    ghost var was := fds[..];
    cnt := Read(img, fds, fd, buf, 0, SBUFSIZE - 1);
    name := buf[..cnt];
    assert forall j | 0 <= j < fds.Length && j != fd :: fds[..][j] == was[j];
  }

  // One name of the listing.
  method SearchName(img: Image, fds: array<Fd>, pat: seq<byte>, name: seq<byte>, leftover: seq<byte>, out: seq<byte>,
                    ghost i: nat, ghost free: nat)
    returns (r: int, out': seq<byte>)
    requires GoodImage(img) && AllSearchable(img) && NUL !in pat && fds.Length == FDT_SIZE
    requires 2 <= free < FDT_SIZE && fds[free] == Absent
    requires i < img.numDentries && name == Name(img.dentries[i]) != [] && name[0] != DOT
    requires |leftover| == BUFSIZE + 1 && leftover[BUFSIZE] != NEWLINE
    modifies fds
    ensures fds[..] == old(fds[..]) && r == 0 && out' == out + FoundAt(img, pat, i)
  {
    assert fds[..][free] == Absent;
    ListedIsFound(img, i);
    assert Name(img.dentries[Find(img, name, 0)]) == name;
    var data := new byte[BUFSIZE + 1](j requires 0 <= j < BUFSIZE + 1 => leftover[j]);
    var s := pat + [NUL];
    forall j | 0 <= j < |pat| ensures s[j] != NUL { assert pat[j] in pat; }
    assert s[..|pat|] == pat;
    r, out' := DoOneFile(img, fds, s, |pat|, name, data, out);
  }

  // One turn of main's loop: the next name is read, and searched unless it begins with a dot.
  method VisitNext(img: Image, fds: array<Fd>, fd: nat, pat: seq<byte>, buf: array<byte>, leftovers: seq<seq<byte>>,
                   out: seq<byte>, ghost i: nat, ghost free: nat)
    returns (cnt: nat, failed: int, out': seq<byte>)
    requires GoodImage(img) && AllSearchable(img) && NUL !in pat && Leftovers(leftovers) && buf.Length >= SBUFSIZE
    requires fds.Length == FDT_SIZE && fd < FDT_SIZE && Listing(fds[fd], i) && i <= img.numDentries
    requires 2 <= free < FDT_SIZE && fds[free] == Absent
    modifies fds, buf
    ensures cnt == 0 <==> Ends(img, i)
    ensures failed == 0 && out' == out + if cnt == 0 then [] else FoundAt(img, pat, i)
    ensures cnt > 0 ==> Listing(fds[fd], i + 1)
    ensures forall j | 0 <= j < fds.Length && j != fd :: fds[j] == old(fds[j])
  {
    hide AllSearchable, Name;
    failed, out' := 0, out;
    var name;
    cnt, name := ReadDirectory(img, fds, fd, buf, i);
    if cnt == 0 { return; }
    assert buf[0] == name[0];
    if buf[0] == DOT { return; }
    buf[cnt] := NUL;
    ghost var was := fds[..];
    failed, out' := SearchName(img, fds, pat, name, leftovers[fds[fd].position - 1], out, i, free);
    assert forall j | 0 <= j < fds.Length :: fds[j] == was[j];
  }

  lemma Visited(img: Image, pat: seq<byte>, i: nat, out: seq<byte>, all: seq<byte>)
    requires GoodImage(img) && AllSearchable(img) && i <= img.numDentries && out + FoundFrom(img, pat, i) == all
    ensures if Ends(img, i) then out == all else out + FoundAt(img, pat, i) + FoundFrom(img, pat, i + 1) == all
  {
    if !Ends(img, i) {
      Associates(out, FoundAt(img, pat, i), FoundFrom(img, pat, i + 1));
    }
  }

  // Buffers as the stack may leave them, but for a newline in the last byte.
  ghost predicate Leftovers(ls: seq<seq<byte>>) {
    |ls| == NUM_INODES && forall l | l in ls :: |l| == BUFSIZE + 1 && l[BUFSIZE] != NEWLINE
  }

  // main, in a fresh process: `arg` is what getargs delivers, and leftovers[i] what the stack holds where the i-th
  // search puts its buffer. The output is every matching line of every listed file, in directory order.
  method GrepMain(img: Image, fds: array<Fd>, arg: Option<seq<byte>>, leftovers: seq<seq<byte>>) returns (r: int, out: seq<byte>)
    requires GoodImage(img) && AllSearchable(img) && fds[..] == FRESH_FDS && (arg.Some? ==> NUL !in arg.value)
    requires Leftovers(leftovers)
    modifies fds
    ensures arg.None? ==> r == 3 && out == NO_ARGUMENT
    ensures arg.Some? && Find(img, [DOT], 0) == -1 ==> r == 2 && out == NO_DIRECTORY
    ensures arg.Some? && Find(img, [DOT], 0) != -1 ==> r == 0 && out == FoundFrom(img, arg.value, 0)
  {
    hide AllSearchable, FoundFrom, Find, Name, Opened;
    if arg.None? { return 3, NO_ARGUMENT; }
    assert fds[..][2] == Absent && fds[..][3] == Absent;
    var fd := Open(img, fds, [DOT]);
    if fd == -1 { return 2, NO_DIRECTORY; }
    DotLists(img);
    var buf := new byte[SBUFSIZE](i => NUL);
    ghost var i := 0;
    ghost var all := FoundFrom(img, arg.value, 0);
    out := [];
    while true
      invariant 0 <= i <= img.numDentries && fd == 2 && Listing(fds[fd], i) && fds[3] == Absent
      invariant out + FoundFrom(img, arg.value, i) == all
      decreases img.numDentries - i
    {
      var cnt, failed;
      Visited(img, arg.value, i, out, all);
      cnt, failed, out := VisitNext(img, fds, fd, arg.value, buf, leftovers, out, i, 3);
      if cnt == 0 { break; }
      i := i + 1;
      if failed != 0 { return 3, out; }
    }
    r := 0;
  }
}
