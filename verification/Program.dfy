// What `execute` asks of a program: an entry with its name, of the executable type, whose file starts with the magic
// number; and its loading into the process's page.
module Program {
  import opened Bytes
  import opened FileSystem
  import opened Directory
  import Command

  const MAGIC: seq<byte> := [0x7F, 0x45, 0x4C, 0x46]
  const EXECUTABLE := 2
  const OFF_4MB := 0x400000
  const SHELL: seq<byte> := [115, 104, 101, 108, 108]   // "shell"

  // If the name is that of an executable entry, its file is long enough to hold the magic number.
  ghost predicate SoundName(img: Image, name: seq<byte>)
    requires GoodImage(img)
  {
    var k := Find(img, name, 0);
    k >= 0 && img.dentries[k].fileType == EXECUTABLE ==> GoodProgram(img, img.dentries[k].inodeNum)
  }

  ghost predicate SoundCommand(img: Image, command: seq<byte>)
    requires GoodImage(img) && Command.Readable(command)
  {
    var p := Command.Parse(command);
    p.Blank? || SoundName(img, p.name)
  }

  ghost predicate GoodProgram(img: Image, inode: nat)
    requires GoodImage(img)
  {
    inode < NUM_INODES && inode < |img.inodes| && img.inodes[inode].length >= 4
  }

  ghost predicate Loadable(img: Image, name: seq<byte>)
    requires GoodImage(img) && SoundName(img, name)
  {
    var k := Find(img, name, 0);
    k >= 0 && img.dentries[k].fileType == EXECUTABLE && MAGIC <= Flat(img, img.dentries[k].inodeNum)
  }

  // What `execute` finds out about a command line.
  ghost predicate Loads(img: Image, command: seq<byte>)
    requires GoodImage(img) && Command.Readable(command) && SoundCommand(img, command)
  {
    var p := Command.Parse(command);
    !p.Blank? && Loadable(img, p.name)
  }

  // Lookup, file type and magic number. `name` is a buffer that holds the C string `word`.
  method LookUp(img: Image, name: seq<byte>, ghost word: seq<byte>) returns (loads: bool, inode: nat)
    requires GoodImage(img) && SoundName(img, word)
    requires |word| < |name| && name[..|word| + 1] == word + [NUL] && NUL !in word
    ensures loads <==> Loadable(img, word)
    ensures var k := Find(img, word, 0);
            loads <==> k >= 0 && img.dentries[k].fileType == 2 && [0x7F, 0x45, 0x4C, 0x46] <= Flat(img, img.dentries[k].inodeNum)
    ensures loads ==> GoodProgram(img, inode) && inode == img.dentries[Find(img, word, 0)].inodeNum
  {
    loads, inode := false, 0;
    WordIs(name, word);
    var r, dentry := ReadDentryByName(img, name);
    if r != 0 { return; }
    if dentry.value.fileType != EXECUTABLE { return; }
    inode := dentry.value.inodeNum;
    loads := HasMagic(img, inode, [NUL, NUL, NUL, NUL]);
  }

  lemma WordIs(name: seq<byte>, word: seq<byte>)
    requires |word| < |name| && name[..|word| + 1] == word + [NUL] && NUL !in word
    ensures NUL in name && Length(name) == |word| && name[..Length(name)] == word
  {
    assert name[|word|] == name[..|word| + 1][|word|] == NUL;
    forall i | 0 <= i < |word| ensures name[i] != NUL {
      assert name[i] == name[..|word| + 1][i] == word[i] && word[i] in word;
    }
    LengthIs(name, |word|);
  }

  // `scratch` is what the buffer holds before the read, which leaves the end of it alone when the file is shorter.
  method HasMagic(img: Image, inode: nat, scratch: seq<byte>) returns (magic: bool)
    requires GoodImage(img) && inode < NUM_INODES && inode < |img.inodes| && |scratch| == 4
    ensures magic <==> MAGIC == Overlay(scratch, Slice(Flat(img, inode), 0, 4))
    ensures |Flat(img, inode)| >= 4 ==> (magic <==> MAGIC <= Flat(img, inode))
  {
    var buffer := new byte[4](i requires 0 <= i < 4 => scratch[i]);
    assert buffer[..] == scratch;
    ghost var f := Flat(img, inode);
    var _ := ReadData(img, inode, 0, buffer, 0, 4);
    FirstFour(f, scratch);
    magic := IsMagic(buffer);
  }

  lemma FirstFour(f: seq<byte>, scratch: seq<byte>)
    requires |scratch| == 4
    ensures Splice(scratch, 0, Slice(f, 0, 4)) == Overlay(scratch, Slice(f, 0, 4))
    ensures |f| >= 4 ==> (MAGIC == Overlay(scratch, Slice(f, 0, 4)) <==> MAGIC <= f)
  {
    if |f| >= 4 {
      assert Overlay(scratch, Slice(f, 0, 4)) == f[..4];
    }
  }

  method IsMagic(buffer: array<byte>) returns (magic: bool)
    requires buffer.Length == 4
    ensures magic <==> buffer[..] == MAGIC
  {
    magic := buffer[0] == MAGIC[0] && buffer[1] == MAGIC[1] && buffer[2] == MAGIC[2] && buffer[3] == MAGIC[3];
  }

  // load_prog: the page holds the file. It cannot fail for a program that has been looked up.
  method LoadProg(img: Image, inode: nat) returns (ret: int, page: array<byte>)
    requires GoodImage(img) && GoodProgram(img, inode)
    ensures fresh(page) && ret == |Flat(img, inode)| > 0 && ret <= page.Length && page[..ret] == Flat(img, inode)
  {
    page := new byte[OFF_4MB](i => NUL);
    ret := ReadData(img, inode, 0, page, 0, OFF_4MB);
  }
}
