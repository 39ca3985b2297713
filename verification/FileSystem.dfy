// The read-only file system image: block-structured files read as flat byte sequences, name lookup, and the
// directory cursor.
module FileSystem {
  import opened Arith
  import opened Bytes
  import opened Machine

  const BLOCK_SIZE := 4096

  // The offset at which a file's b-th block starts.
  function BlockStart(b: int): int { b * 4096 }
  const NUM_INODES := 63
  const INODE_DB := 1023
  const MAX_OFFSET := INODE_DB * BLOCK_SIZE
  const FNAME_SIZE := 32

  datatype Dentry = Dentry(fileName: seq<byte>, fileType: nat, inodeNum: nat, reserved: seq<byte>)
  datatype Inode = Inode(length: nat, data: seq<nat>)
  datatype Image = Image(numDentries: nat, dentries: seq<Dentry>, inodes: seq<Inode>, blocks: seq<seq<byte>>)

  ghost predicate GoodInode(img: Image, ino: Inode) {
    && |ino.data| == INODE_DB && ino.length <= MAX_OFFSET
    && forall b: nat | b < INODE_DB && b * BLOCK_SIZE < ino.length :: ino.data[b] < |img.blocks|
  }

  ghost predicate GoodDentry(d: Dentry) {
    |d.fileName| == FNAME_SIZE && d.fileType <= 2 && |d.reserved| == 24
  }

  ghost predicate GoodImage(img: Image) {
    && img.numDentries <= |img.dentries| == NUM_INODES
    && (forall i | 0 <= i < |img.dentries| :: GoodDentry(img.dentries[i]))
    && (forall n | 0 <= n < |img.inodes| :: GoodInode(img, img.inodes[n]))
    && (forall b | 0 <= b < |img.blocks| :: |img.blocks[b]| == BLOCK_SIZE)
  }

  // ----- file contents

  function ByteAt(img: Image, ino: Inode, k: nat): byte
    requires GoodImage(img) && GoodInode(img, ino) && k < ino.length
  {
    DivBounds(k);
    img.blocks[ino.data[k / BLOCK_SIZE]][k % BLOCK_SIZE]
  }

  lemma DivBounds(k: nat)
    requires k < MAX_OFFSET
    ensures k / BLOCK_SIZE < INODE_DB && k / BLOCK_SIZE * BLOCK_SIZE <= k && k % BLOCK_SIZE == k - k / BLOCK_SIZE * BLOCK_SIZE
  {
  }

  // The first n bytes of a file.
  function FirstBytes(img: Image, ino: Inode, n: nat): (f: seq<byte>)
    requires GoodImage(img) && GoodInode(img, ino) && n <= ino.length
    ensures |f| == n
  {
    if n == 0 then [] else FirstBytes(img, ino, n - 1) + [ByteAt(img, ino, n - 1)]
  }

  lemma {:induction false} FirstBytesAt(img: Image, ino: Inode, n: nat, k: nat)
    requires GoodImage(img) && GoodInode(img, ino) && k < n <= ino.length
    ensures FirstBytes(img, ino, n)[k] == ByteAt(img, ino, k)
  {
    if k < n - 1 {
      FirstBytesAt(img, ino, n - 1, k);
    }
  }

  function Flat(img: Image, n: nat): (f: seq<byte>)
    requires GoodImage(img) && n < |img.inodes|
    ensures |f| == img.inodes[n].length
  {
    FirstBytes(img, img.inodes[n], img.inodes[n].length)
  }

  // What a read of n bytes at `offset` delivers.
  function Slice(f: seq<byte>, offset: nat, n: nat): (r: seq<byte>)
    ensures |r| == Min(n, Max(0, |f| - offset))
  {
    if offset >= |f| then [] else f[offset..offset + Min(n, |f| - offset)]
  }

  lemma SliceGrows(f: seq<byte>, offset: nat, i: nat)
    requires offset + i < |f|
    ensures |Slice(f, offset, i)| == i && Slice(f, offset, i + 1) == Slice(f, offset, i) + [f[offset + i]]
  {
  }

  // `got` is what reading i bytes at `offset` delivers, and lies at `at` in the buffer.
  ghost predicate Got(f: seq<byte>, offset: nat, i: nat, was: seq<byte>, at: nat, now: seq<byte>, got: seq<byte>) {
    got == Slice(f, offset, i) && at + |got| <= |was| && now == Splice(was, at, got)
  }

  lemma Extends(f: seq<byte>, offset: nat, i: nat, was: seq<byte>, at: nat, now: seq<byte>, got: seq<byte>)
    requires offset + i < |f| && at + i < |was| && Got(f, offset, i, was, at, now, got)
    ensures |got| == i && Got(f, offset, i + 1, was, at, now[at + i := f[offset + i]], got + [f[offset + i]])
  {
    SliceGrows(f, offset, i);
    SpliceGrows(was, at, got, f[offset + i]);
  }

  lemma Room(f: seq<byte>, offset: nat, i: nat, length: nat)
    requires i < length && offset + i < |f|
    ensures i < |Slice(f, offset, length)|
  {
  }

  method ReadData(img: Image, inode: nat, offset: nat, buf: array<byte>, at: nat, length: nat) returns (r: int)
    requires GoodImage(img) && (inode < NUM_INODES ==> inode < |img.inodes|)
    requires inode < NUM_INODES ==> at + |Slice(Flat(img, inode), offset, length)| <= buf.Length
    modifies buf
    ensures r == -1 <==> inode >= NUM_INODES || offset >= MAX_OFFSET
    ensures r == -1 ==> buf[..] == old(buf[..])
    ensures r != -1 ==> var s := Slice(Flat(img, inode), offset, length);
              r == |s| && buf[..] == Splice(old(buf[..]), at, s)
  {
    if inode >= NUM_INODES { return -1; }
    if offset / BLOCK_SIZE >= INODE_DB { return -1; }
    FlatIsStored(img, inode);
    r := WalkBlocks(img.inodes[inode].length, img.inodes[inode].data, img.blocks, offset, buf, at, length, Flat(img, inode));
  }

  // Byte k of f is where the block list says.
  ghost predicate Stored(data: seq<nat>, blocks: seq<seq<byte>>, f: seq<byte>, k: nat)
    requires k < |f|
  {
    exists b: nat, o: nat :: InBlock(data, blocks, f, k, b, o)
  }

  ghost predicate InBlock(data: seq<nat>, blocks: seq<seq<byte>>, f: seq<byte>, k: nat, b: nat, o: nat)
    requires k < |f|
  {
    && k == BlockStart(b) + o && o < BLOCK_SIZE
    && b < |data| && data[b] < |blocks| && o < |blocks[data[b]]| && blocks[data[b]][o] == f[k]
  }

  lemma FlatIsStored(img: Image, inode: nat)
    requires GoodImage(img) && inode < |img.inodes|
    ensures var (ino, f) := (img.inodes[inode], Flat(img, inode));
            |ino.data| == INODE_DB && |f| == ino.length <= MAX_OFFSET && forall k: nat | k < |f| :: Stored(ino.data, img.blocks, f, k)
  {
    var (ino, f) := (img.inodes[inode], Flat(img, inode));
    forall k: nat | k < |f| ensures Stored(ino.data, img.blocks, f, k) {
      FirstBytesAt(img, ino, |f|, k);
      DivBounds(k);
      assert InBlock(ino.data, img.blocks, f, k, k / BLOCK_SIZE, k % BLOCK_SIZE);
    }
  }

  method FetchByte(data: seq<nat>, blocks: seq<seq<byte>>, ghost f: seq<byte>, ghost k: nat, ghost b: nat, blockNum: nat, o: nat)
    returns (x: byte)
    requires k < |f| && Stored(data, blocks, f, k)
    requires k == BlockStart(b) + o && o < BLOCK_SIZE && b < |data| && blockNum == data[b]
    ensures x == f[k]
  {
    ghost var b', o': nat :| InBlock(data, blocks, f, k, b', o');
    assert b' == b && o' == o;
    x := blocks[blockNum][o];
  }

  // At the end of a block, the walk moves to the next one, in which the byte to read is the first.
  method NextBlock(data: seq<nat>, dataIdx: nat, i: nat, j: nat, blockOff: int, blockNum: nat, ghost offset: nat)
    returns (j': nat, blockOff': int, blockNum': nat)
    requires |data| == INODE_DB && dataIdx + j < INODE_DB && blockNum == data[dataIdx + j] && offset + i < MAX_OFFSET
    requires blockOff + i == offset + i - BlockStart(dataIdx + j) && 0 <= blockOff + i <= BLOCK_SIZE
    ensures dataIdx + j' < INODE_DB && blockNum' == data[dataIdx + j']
    ensures blockOff' + i == offset + i - BlockStart(dataIdx + j') && 0 <= blockOff' + i < BLOCK_SIZE
  {
    j', blockOff', blockNum' := j, blockOff, blockNum;
    if blockOff + i >= BLOCK_SIZE {
      j' := j + 1;
      blockOff' := -(i as int);
      blockNum' := data[dataIdx + j'];
    }
  }

  // One turn of the loop of read_data: the block to read from, and its next byte.
  method NextByte(data: seq<nat>, blocks: seq<seq<byte>>, ghost f: seq<byte>, ghost offset: nat, dataIdx: nat, i: nat, j: nat,
                  blockOff: int, blockNum: nat)
    returns (b: byte, j': nat, blockOff': int, blockNum': nat)
    requires |data| == INODE_DB && dataIdx + j < INODE_DB && blockNum == data[dataIdx + j]
    requires offset + i < |f| <= MAX_OFFSET && Stored(data, blocks, f, offset + i)
    requires blockOff + i == offset + i - BlockStart(dataIdx + j) && 0 <= blockOff + i <= BLOCK_SIZE
    ensures b == f[offset + i] && dataIdx + j' < INODE_DB && blockNum' == data[dataIdx + j']
    ensures blockOff' + i == offset + i - BlockStart(dataIdx + j') && 0 <= blockOff' + i < BLOCK_SIZE
  {
    j', blockOff', blockNum' := NextBlock(data, dataIdx, i, j, blockOff, blockNum, offset);
    b := FetchByte(data, blocks, f, offset + i, dataIdx + j', blockNum', blockOff' + i);
  }

  lemma SliceEnds(f: seq<byte>, offset: nat, i: nat, length: nat)
    requires i == length || (i < length && offset + i >= |f|)
    ensures Slice(f, offset, i) == Slice(f, offset, length)
  {
  }

  // The loop of read_data. `blockOff` is kept relative to the bytes read so far, and turns negative at a block
  // boundary.
  method WalkBlocks(fileSize: nat, data: seq<nat>, blocks: seq<seq<byte>>, offset: nat, buf: array<byte>, at: nat, length: nat,
                    ghost f: seq<byte>)
    returns (r: int)
    requires |f| == fileSize <= MAX_OFFSET && |data| == INODE_DB && offset < MAX_OFFSET
    requires forall k: nat | k < |f| :: Stored(data, blocks, f, k)
    requires at + |Slice(f, offset, length)| <= buf.Length
    modifies buf
    ensures r == |Slice(f, offset, length)| && buf[..] == Splice(old(buf[..]), at, Slice(f, offset, length))
  {
    ghost var was := buf[..];
    var bytesRead := 0;
    var dataIdx := offset / 4096;
    var blockNum := data[dataIdx];
    var blockOff := offset % 4096;
    var i, j := 0, 0;
    ghost var got: seq<byte> := [];
    while i < length
      invariant 0 <= i <= length && bytesRead == i && (i == 0 || offset + i <= |f|) && 0 <= j
      invariant dataIdx + j < INODE_DB && blockNum == data[dataIdx + j]
      invariant blockOff + i == offset + i - BlockStart(dataIdx + j) && 0 <= blockOff + i <= BLOCK_SIZE
      invariant Got(f, offset, i, was, at, buf[..], got)
    {
      if offset + bytesRead >= fileSize { break; }
      var b;
      b, j, blockOff, blockNum := NextByte(data, blocks, f, offset, dataIdx, i, j, blockOff, blockNum);
      Room(f, offset, i, length);
      Extends(f, offset, i, was, at, buf[..], got);
      got := got + [b];
      buf[at + i] := b;
      bytesRead := bytesRead + 1;
      i := i + 1;
    }
    SliceEnds(f, offset, i, length);
    return bytesRead;
  }

  // ----- reading through descriptors

  // nbytes is a signed word that `read_data` takes as unsigned.
  function Unsigned(n: int): nat { n % UINT32 }

  ghost predicate ReadableFd(img: Image, d: Fd) {
    d.Present? && d.inode < |img.inodes| && d.inode < NUM_INODES
  }

  // `file_read`: the bytes delivered (None for the error return) and the descriptor afterwards.
  function ReadFd(img: Image, d: Fd, nbytes: int): (r: (Option<seq<byte>>, Fd))
    requires GoodImage(img) && (d.Present? && d.inode < NUM_INODES ==> d.inode < |img.inodes|)
  {
    if d == Absent then (None, d)
    else if d.inode >= NUM_INODES || d.position >= MAX_OFFSET then (None, d.(position := (d.position - 1) % UINT32))
    else
      var s := Slice(Flat(img, d.inode), d.position, Unsigned(nbytes));
      (Some(s), d.(position := (d.position + |s|) % UINT32))
  }

  method FileRead(img: Image, fds: array<Fd>, fd: nat, buf: array<byte>, at: nat, nbytes: int) returns (r: int)
    requires GoodImage(img) && fd < fds.Length
    requires fds[fd].Present? && fds[fd].inode < NUM_INODES ==>
               fds[fd].inode < |img.inodes| && at + |Slice(Flat(img, fds[fd].inode), fds[fd].position, Unsigned(nbytes))| <= buf.Length
    modifies fds, buf
    ensures var (got, d) := ReadFd(img, old(fds[fd]), nbytes);
            && fds[..] == old(fds[..])[fd := d]
            && (got.None? ==> r == -1 && buf[..] == old(buf[..]))
            && (got.Some? ==> r == |got.value| && at + r <= buf.Length && buf[..] == Splice(old(buf[..]), at, got.value))
  {
    var d := fds[fd];
    if d == Absent { return -1; }
    r := ReadData(img, d.inode, d.position, buf, at, Unsigned(nbytes));
    fds[fd] := fds[fd].(position := (fds[fd].position + r) % UINT32);
  }

  // A descriptor on a file, before its end or at it.
  ghost predicate OnFile(img: Image, d: Fd)
    requires GoodImage(img)
  {
    ReadableFd(img, d) && img.inodes[d.inode].length < MAX_OFFSET && d.position <= img.inodes[d.inode].length
  }

  datatype ReadCall = ReadCall(fd: nat, nbytes: int)

  ghost predicate OnFiles(img: Image, fds: seq<Fd>, calls: seq<ReadCall>)
    requires GoodImage(img)
  {
    forall c | c in calls :: c.fd < |fds| && OnFile(img, fds[c.fd])
  }

  lemma ReadKeepsOnFile(img: Image, d: Fd, nbytes: int)
    requires GoodImage(img) && OnFile(img, d)
    ensures var (got, d') := ReadFd(img, d, nbytes);
            && got.Some? && d' == d.(position := d.position + |got.value|) && OnFile(img, d')
            && got.value == Flat(img, d.inode)[d.position..d.position + |got.value|]
            && (got.value == [] <==> Unsigned(nbytes) == 0 || d.position == |Flat(img, d.inode)|)
  {
    hide GoodImage, Flat;
  }

  // A read keeps to the size asked for exactly when that size is not negative; a negative one reads to the end.
  lemma SizeKept(img: Image, d: Fd, nbytes: int)
    requires GoodImage(img) && OnFile(img, d) && -0x8000_0000 <= nbytes < 0x8000_0000
    ensures var got := ReadFd(img, d, nbytes).0;
            && got.Some? && (|got.value| <= nbytes <==> nbytes >= 0)
            && (nbytes < 0 ==> got.value == Flat(img, d.inode)[d.position..])
  {
    ReadKeepsOnFile(img, d, nbytes);
    assert Unsigned(nbytes) == if nbytes < 0 then nbytes + UINT32 else nbytes;
  }

  // A read within a file fails exactly at the end of one of the greatest size; the position then goes back by one, and
  // the next read delivers the last byte again.
  lemma LargestFileRereads(img: Image, d: Fd, nbytes: int)
    requires GoodImage(img) && ReadableFd(img, d) && d.position <= img.inodes[d.inode].length
    ensures var ((got, d'), f) := (ReadFd(img, d, nbytes), Flat(img, d.inode));
            && (got.None? <==> d.position == |f| == MAX_OFFSET)
            && (got.None? ==> d' == d.(position := |f| - 1) && (Unsigned(nbytes) > 0 ==> ReadFd(img, d', nbytes).0 == Some([f[|f| - 1]])))
  {
    var f := Flat(img, d.inode);
    if d.position == MAX_OFFSET && Unsigned(nbytes) > 0 {
      LastByte(f, Unsigned(nbytes));
    }
  }

  lemma LastByte(f: seq<byte>, n: nat)
    requires f != [] && n > 0
    ensures Slice(f, |f| - 1, n) == [f[|f| - 1]]
  {
  }

  // The descriptors after a sequence of reads, and what the reads on one of them delivered.
  ghost function FdsAfter(img: Image, fds: seq<Fd>, calls: seq<ReadCall>): seq<Fd>
    requires GoodImage(img) && OnFiles(img, fds, calls)
    decreases |calls|
  {
    if calls == [] then fds
    else
      var c := calls[0];
      ReadKeepsOnFile(img, fds[c.fd], c.nbytes);
      FdsAfter(img, fds[c.fd := ReadFd(img, fds[c.fd], c.nbytes).1], calls[1..])
  }

  ghost function Delivered(img: Image, fds: seq<Fd>, calls: seq<ReadCall>, fd: nat): seq<byte>
    requires GoodImage(img) && OnFiles(img, fds, calls)
    decreases |calls|
  {
    if calls == [] then []
    else
      var c := calls[0];
      ReadKeepsOnFile(img, fds[c.fd], c.nbytes);
      var (got, d) := ReadFd(img, fds[c.fd], c.nbytes);
      (if c.fd == fd then got.value else []) + Delivered(img, fds[c.fd := d], calls[1..], fd)
  }

  // From d to d', `got` was read: the file's bytes between the two positions.
  ghost predicate Progress(img: Image, d: Fd, d': Fd, got: seq<byte>)
    requires GoodImage(img)
  {
    && OnFile(img, d) && OnFile(img, d') && d' == d.(position := d.position + |got|)
    && got == Flat(img, d.inode)[d.position..d'.position]
  }

  lemma ProgressOn(img: Image, d: Fd, d1: Fd, d2: Fd, a: seq<byte>, b: seq<byte>)
    requires GoodImage(img) && Progress(img, d, d1, a) && Progress(img, d1, d2, b)
    ensures Progress(img, d, d2, a + b)
  {
  }

  // Reads of any sizes on any descriptors, interleaved: each descriptor delivers its own file in order, from where
  // it stood, whatever the others do, even on the same file.
  lemma {:induction false} ReadsAreSequential(img: Image, fds: seq<Fd>, calls: seq<ReadCall>, fd: nat)
    requires GoodImage(img) && OnFiles(img, fds, calls) && fd < |fds| && OnFile(img, fds[fd])
    ensures var fds' := FdsAfter(img, fds, calls);
            |fds'| == |fds| && Progress(img, fds[fd], fds'[fd], Delivered(img, fds, calls, fd))
    decreases |calls|
  {
    hide Flat;
    if calls != [] {
      var c := calls[0];
      ReadKeepsOnFile(img, fds[c.fd], c.nbytes);
      var (got, d) := ReadFd(img, fds[c.fd], c.nbytes);
      var fds1 := fds[c.fd := d];
      ReadsAreSequential(img, fds1, calls[1..], fd);
      if c.fd == fd {
        ProgressOn(img, fds[fd], d, FdsAfter(img, fds, calls)[fd], got.value, Delivered(img, fds1, calls[1..], fd));
      }
    }
  }

  // The whole file has been delivered once a read of a positive size returns nothing.
  lemma {:induction false} EndOfFile(img: Image, fds: seq<Fd>, calls: seq<ReadCall>, fd: nat, nbytes: int)
    requires GoodImage(img) && OnFiles(img, fds, calls) && fd < |fds| && OnFile(img, fds[fd]) && fds[fd].position == 0
    requires Unsigned(nbytes) > 0
    ensures var d' := FdsAfter(img, fds, calls);
            && fd < |d'| && OnFile(img, d'[fd])
            && (ReadFd(img, d'[fd], nbytes).0 == Some([]) <==> Delivered(img, fds, calls, fd) == Flat(img, fds[fd].inode))
  {
    ReadsAreSequential(img, fds, calls, fd);
    ReadKeepsOnFile(img, FdsAfter(img, fds, calls)[fd], nbytes);
  }
}
