// The descriptor calls open, read and close: the type of the entry found decides which operations a descriptor gets,
// and so what reading it delivers.
module Calls {
  import opened Bytes
  import opened Machine
  import opened FileSystem
  import opened Directory

  // fileops_table, indexed by the type of an entry.
  const FILE_OPS: seq<FdKind> := [FdKind.Rtc, FdKind.Dir, FdKind.File]

  function Opened(d: Dentry): Fd
    requires d.fileType <= 2
  {
    Present(FILE_OPS[d.fileType], d.inodeNum, 0)
  }

  // `open`: the first entry with the name takes the lowest free descriptor.
  method Open(img: Image, fds: array<Fd>, fname: seq<byte>) returns (fd: int)
    requires GoodImage(img) && NUL !in fname && fds.Length == FDT_SIZE
    modifies fds
    ensures var (k, free) := (Find(img, fname, 0), FreeFd(old(fds[..])));
            if k == -1 || free == -1 then fd == -1 && fds[..] == old(fds[..])
            else fd == free && fds[..] == old(fds[..])[free := Opened(img.dentries[k])]
  {
    var name := fname + [NUL];
    assert name[|fname|] == NUL && forall i | 0 <= i < |fname| :: name[i] != NUL by {
      forall i | 0 <= i < |fname| ensures name[i] != NUL { assert fname[i] in fname; }
    }
    LengthIs(name, |fname|);
    assert name[..Length(name)] == fname;
    var r, dentry := ReadDentryByName(img, name);
    if r == -1 { return -1; }
    fd := FreeFd(fds[..]);
    if fd == -1 { return -1; }
    fds[fd] := Opened(dentry.value);
  }

  method Close(fds: array<Fd>, fd: int) returns (r: int)
    requires fds.Length == FDT_SIZE
    modifies fds
    ensures if 2 <= fd < FDT_SIZE && old(fds[fd]).Present? then r == 0 && fds[..] == old(fds[..])[fd := Absent]
            else r == -1 && fds[..] == old(fds[..])
  {
    if fd < 2 || fd > FDT_SIZE - 1 { return -1; }
    if fds[fd] == Absent { return -1; }
    fds[fd] := Absent;
    r := 0;
  }

  // ----- read

  // A descriptor that `read` can be called on here: not the standard input, and not an inode outside the image.
  ghost predicate CanRead(img: Image, d: Fd) {
    d.Present? ==> d.kind != Stdin && (d.kind == FdKind.File && d.inode < NUM_INODES ==> d.inode < |img.inodes|)
  }

  // What a read delivers (None for -1), and the descriptor afterwards. A read of the clock returns without bytes.
  function ReadStep(img: Image, d: Fd, nbytes: int): (r: (Option<seq<byte>>, Fd))
    requires GoodImage(img) && CanRead(img, d)
    ensures CanRead(img, r.1)
  {
    match d
    case Absent => (None, d)
    case Present(kind, _, position) =>
      match kind
      case Rtc => (Some([]), d)
      case Dir => var (name, next) := NextName(img, position); (Some(name), d.(position := next))
      case File => ReadFd(img, d, nbytes)
      case _ => (None, d)
  }

  // The caller's buffer, from `at` on, has room for what is read; a directory's name goes to the front of one of 33 bytes.
  ghost predicate Room(img: Image, d: Fd, nbytes: int, at: nat, length: nat)
    requires GoodImage(img) && CanRead(img, d)
  {
    if d.Present? && d.kind == FdKind.Dir then at == 0 && length >= FNAME_SIZE + 1
    else var got := ReadStep(img, d, nbytes).0; at + (if got.Some? then |got.value| else 0) <= length
  }

  // `read`, through the operation of the descriptor's kind.
  method Read(img: Image, fds: array<Fd>, fd: int, buf: array<byte>, at: nat, nbytes: int) returns (r: int)
    requires GoodImage(img) && fds.Length == FDT_SIZE
    requires 0 <= fd < FDT_SIZE ==> CanRead(img, fds[fd]) && Room(img, fds[fd], nbytes, at, buf.Length)
    modifies fds, buf
    ensures !(0 <= fd < FDT_SIZE) ==> r == -1 && fds[..] == old(fds[..]) && buf[..] == old(buf[..])
    ensures 0 <= fd < FDT_SIZE ==>
              var (d, (got, d')) := (old(fds[fd]), ReadStep(img, old(fds[fd]), nbytes));
              && fds[..] == old(fds[..])[fd := d']
              && (got.None? ==> r == -1 && buf[..] == old(buf[..]))
              && (got.Some? ==> r == |got.value| && at + r <= buf.Length && buf[at..at + r] == got.value)
              && (got.Some? && d.kind != FdKind.Dir ==> buf[..] == Splice(old(buf[..]), at, got.value))
  {
    if fd >= FDT_SIZE || fd < 0 { return -1; }
    if fds[fd] == Absent { return -1; }
    match fds[fd].kind
    case Rtc => r := 0;
    case Dir => r := ReadName(img, fds, fd, buf);
    case File => r := FileRead(img, fds, fd, buf, at, nbytes);
    case _ => r := -1;
  }

  // dir_read on a descriptor
  method ReadName(img: Image, fds: array<Fd>, fd: nat, buf: array<byte>) returns (r: int)
    requires GoodImage(img) && fd < fds.Length && fds[fd].Present? && buf.Length >= FNAME_SIZE + 1
    modifies fds, buf
    ensures var (name, next) := NextName(img, old(fds[fd]).position);
            && r == |name| <= FNAME_SIZE && buf[..r] == name
            && fds[..] == old(fds[..])[fd := old(fds[fd]).(position := next)]
  {
    var next;
    r, next := DirRead(img, fds[fd].position, buf);
    fds[fd] := fds[fd].(position := next);
  }

  // ----- what an opened descriptor delivers

  // The descriptor after reads of these sizes, and what they have delivered one by one.
  function ReadAll(img: Image, d: Fd, sizes: seq<int>): (r: (seq<Option<seq<byte>>>, Fd))
    requires GoodImage(img) && CanRead(img, d)
    ensures |r.0| == |sizes| && CanRead(img, r.1)
    decreases |sizes|
  {
    if sizes == [] then ([], d)
    else
      var (got, d1) := ReadStep(img, d, sizes[0]);
      var (rest, d') := ReadAll(img, d1, sizes[1..]);
      ([got] + rest, d')
  }

  function Joined(parts: seq<Option<seq<byte>>>): seq<byte> {
    if parts == [] then [] else (if parts[0].Some? then parts[0].value else []) + Joined(parts[1..])
  }

  // An entry of type 2 whose inode is in the image and not of the greatest size.
  ghost predicate PlainFile(img: Image, d: Dentry)
    requires GoodImage(img)
  {
    d.fileType == 2 && d.inodeNum < NUM_INODES && d.inodeNum < |img.inodes| && img.inodes[d.inodeNum].length < MAX_OFFSET
  }

  lemma OneFileRead(img: Image, d: Fd, nbytes: int)
    requires GoodImage(img) && OnFile(img, d) && d.kind == FdKind.File
    ensures var (got, d1) := ReadStep(img, d, nbytes);
            got.Some? && Progress(img, d, d1, got.value) && OnFile(img, d1) && d1.kind == FdKind.File
  {
    ReadKeepsOnFile(img, d, nbytes);
  }

  lemma {:induction false} FileReadsOn(img: Image, d: Fd, sizes: seq<int>)
    requires GoodImage(img) && OnFile(img, d) && d.kind == FdKind.File
    ensures var (parts, d') := ReadAll(img, d, sizes); Progress(img, d, d', Joined(parts))
    decreases |sizes|
  {
    hide OnFile, Progress, ReadStep;
    if sizes == [] {
      NoProgress(img, d);
    } else {
      OneFileRead(img, d, sizes[0]);
      var (got, d1) := ReadStep(img, d, sizes[0]);
      FileReadsOn(img, d1, sizes[1..]);
      var (rest, d') := ReadAll(img, d1, sizes[1..]);
      assert ([got] + rest)[1..] == rest;
      ProgressOn(img, d, d1, d', got.value, Joined(rest));
    }
  }

  lemma NoProgress(img: Image, d: Fd)
    requires GoodImage(img) && OnFile(img, d)
    ensures Progress(img, d, d, [])
  {
  }

  // Opening an entry of type 2 gives a descriptor on its file: reads of any sizes deliver the file from its first byte on,
  // and one more of a positive size delivers nothing exactly when they have delivered all of it.
  lemma OpenedFileDelivers(img: Image, e: Dentry, sizes: seq<int>, more: int)
    requires GoodImage(img) && PlainFile(img, e) && Unsigned(more) > 0
    ensures var ((parts, d), f) := (ReadAll(img, Opened(e), sizes), Flat(img, e.inodeNum));
            && Joined(parts) <= f && (ReadStep(img, d, more).0 == Some([]) <==> Joined(parts) == f)
  {
    var f := Flat(img, e.inodeNum);
    FileReadsOn(img, Opened(e), sizes);
    var (parts, d) := ReadAll(img, Opened(e), sizes);
    assert Joined(parts) == f[..|Joined(parts)|];
    ReadKeepsOnFile(img, d, more);
  }

  lemma {:induction false} DirectoryReadsOn(img: Image, d: Fd, sizes: seq<int>)
    requires GoodImage(img) && d.Present? && d.kind == FdKind.Dir && d.position + |sizes| <= img.numDentries
    ensures var (parts, d') := ReadAll(img, d, sizes);
            && d' == d.(position := d.position + |sizes|)
            && forall i | 0 <= i < |sizes| :: parts[i] == Some(Name(img.dentries[d.position + i]))
    decreases |sizes|
  {
    if sizes != [] {
      DirectoryReadsOn(img, ReadStep(img, d, sizes[0]).1, sizes[1..]);
    }
  }

  // Opening an entry of type 1 gives a descriptor on the directory, wherever its inode points: the reads deliver the names
  // in order, one each; then one delivers nothing, and the listing starts again.
  lemma OpenedDirectoryLists(img: Image, e: Dentry, sizes: seq<int>, last: int)
    requires GoodImage(img) && e.fileType == 1 && |sizes| == img.numDentries
    ensures var (parts, d) := ReadAll(img, Opened(e), sizes);
            && (forall i | 0 <= i < |sizes| :: parts[i] == Some(Name(img.dentries[i])))
            && ReadStep(img, d, last) == (Some([]), Opened(e))
  {
    DirectoryReadsOn(img, Opened(e), sizes);
  }

  // Opening an entry of type 0 gives the clock, and no bytes.
  lemma {:induction false} OpenedClockDelivers(img: Image, e: Dentry, sizes: seq<int>)
    requires GoodImage(img) && e.fileType == 0
    ensures Opened(e).kind == FdKind.Rtc
    ensures var (parts, d) := ReadAll(img, Opened(e), sizes);
            d == Opened(e) && forall i | 0 <= i < |sizes| :: parts[i] == Some([])
    decreases |sizes|
  {
    if sizes != [] {
      OpenedClockDelivers(img, e, sizes[1..]);
    }
  }
}
