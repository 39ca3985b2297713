// Directory entries: lookup by name and the cursor that lists them.
module Directory {
  import opened Bytes
  import opened FileSystem

  // The 64 bytes of an entry as they lie in memory; a name that fills its 32 bytes runs into the type word.
  function Raw(d: Dentry): (r: seq<byte>)
    requires GoodDentry(d)
    ensures |r| == 64 && NUL in r[FNAME_SIZE..]
  {
    var r := d.fileName + [d.fileType as byte, NUL, NUL, NUL] + Word(d.inodeNum) + d.reserved;
    assert r[FNAME_SIZE..][1] == NUL;
    r
  }

  function Word(n: nat): (r: seq<byte>)
    ensures |r| == 4
  {
    [(n % 256) as byte, (n / 256 % 256) as byte, (n / 0x10000 % 256) as byte, (n / 0x1000000 % 256) as byte]
  }

  // Index of the first NUL, or the length.
  function Length(s: seq<byte>): (n: nat)
    ensures n <= |s| && (forall i | 0 <= i < n :: s[i] != NUL) && (n < |s| ==> s[n] == NUL)
  {
    if s == [] || s[0] == NUL then 0 else 1 + Length(s[1..])
  }

  // An entry's name: its file name field up to a NUL, or all 32 bytes.
  function Name(d: Dentry): seq<byte> { d.fileName[..Length(d.fileName)] }

  // The first entry with this name, from i on; -1 if there is none.
  function Find(img: Image, name: seq<byte>, i: nat): (r: int)
    requires GoodImage(img) && i <= img.numDentries
    ensures -1 <= r < img.numDentries
    ensures r >= 0 ==> i <= r && Name(img.dentries[r]) == name
    ensures forall j | i <= j < (if r == -1 then img.numDentries else r) :: Name(img.dentries[j]) != name
    decreases img.numDentries - i
  {
    if i == img.numDentries then -1
    else if Name(img.dentries[i]) == name then i
    else Find(img, name, i + 1)
  }

  // ----- C strings

  method Strlen(s: seq<byte>) returns (len: nat)
    requires NUL in s
    ensures len == Length(s) < |s|
  {
    len := 0;
    while s[len] != NUL
      invariant 0 <= len <= Length(s) < |s|
      decreases |s| - len
    {
      len := len + 1;
    }
  }

  // Copies until NUL or n bytes, then pads with NULs. The source byte at n is read before the count is tested.
  method Strncpy(dest: array<byte>, src: seq<byte>, n: nat)
    requires n <= dest.Length && n < |src|
    modifies dest
    ensures var len := Min(Length(src), n);
            forall j | 0 <= j < dest.Length :: dest[j] == if j < len then src[j] else if j < n then NUL else old(dest[j])
  {
    ghost var len := Min(Length(src), n);
    var i := 0;
    while src[i] != NUL && i < n
      invariant 0 <= i <= len && forall j | 0 <= j < dest.Length :: dest[j] == if j < i then src[j] else old(dest[j])
      decreases n - i
    {
      dest[i] := src[i];
      i := i + 1;
    }
    while i < n
      invariant len <= i <= n
      invariant forall j | 0 <= j < dest.Length :: dest[j] == if j < len then src[j] else if j < i then NUL else old(dest[j])
    {
      dest[i] := NUL;
      i := i + 1;
    }
  }

  // The C string in s, as far as n bytes go.
  function Shown(s: seq<byte>, n: nat): seq<byte> { s[..Min(Length(s), n)] }

  // The strings are equal up to k, where they first differ.
  ghost predicate DifferAt(s1: seq<byte>, s2: seq<byte>, k: nat) {
    k < |s1| && k < |s2| && s1[..k] == s2[..k] && NUL !in s1[..k] && s1[k] != s2[k]
  }

  // Compares up to n bytes, stopping at the first difference or at a NUL in both.
  method Strncmp(s1: seq<byte>, s2: seq<byte>, n: nat) returns (r: int)
    requires (n <= |s1| || NUL in s1) && (n <= |s2| || NUL in s2)
    ensures r == 0 <==> Shown(s1, n) == Shown(s2, n)
    ensures r != 0 ==> exists k: nat :: k < n && DifferAt(s1, s2, k) && r == s1[k] as int - s2[k] as int
  {
    var i := 0;
    while i < n
      invariant 0 <= i <= n && i <= Length(s1) && i <= Length(s2) && s1[..i] == s2[..i]
    {
      assert i < |s1| && i < |s2|;
      if s1[i] != s2[i] || s1[i] == NUL {
        if s1[i] != s2[i] {
          Differs(s1, s2, n, i);
        }
        return s1[i] as int - s2[i] as int;
      }
      i := i + 1;
    }
    r := 0;
  }

  lemma Differs(s1: seq<byte>, s2: seq<byte>, n: nat, k: nat)
    requires k < n && k < |s1| && k < |s2| && k <= Length(s1) && k <= Length(s2) && s1[..k] == s2[..k] && s1[k] != s2[k]
    ensures DifferAt(s1, s2, k) && Shown(s1, n) != Shown(s2, n)
  {
    if Length(s1) == k {
      assert |Shown(s1, n)| == k && |Shown(s2, n)| > k;
    } else if Length(s2) == k {
      assert |Shown(s2, n)| == k && |Shown(s1, n)| > k;
    } else {
      assert Shown(s1, n)[k] == s1[k] && Shown(s2, n)[k] == s2[k];
    }
  }

  // ----- lookup

  method ReadDentryByIndex(img: Image, index: nat) returns (r: int, dentry: Option<Dentry>)
    requires GoodImage(img)
    ensures if index < img.numDentries then r == 0 && dentry == Some(img.dentries[index].(reserved := []))
            else r == -1 && dentry == None
  {
    if index >= img.numDentries { return -1, None; }
    var curr := img.dentries[index];
    assert GoodDentry(curr);
    var name := [];
    var i := 0;
    while i < FNAME_SIZE
      invariant 0 <= i <= FNAME_SIZE && name == curr.fileName[..i]
    {
      name := name + [curr.fileName[i]];
      i := i + 1;
    }
    assert name == curr.fileName;
    return 0, Some(Dentry(name, curr.fileType, curr.inodeNum, []));
  }

  // The target buffer a stored name is copied into: its bytes, then NULs to the 33rd.
  lemma TargetIsName(d: Dentry, target: seq<byte>)
    requires GoodDentry(d) && |target| == FNAME_SIZE + 1 && target[FNAME_SIZE] == NUL
    requires var len := Min(Length(Raw(d)), FNAME_SIZE);
             forall j | 0 <= j < FNAME_SIZE :: target[j] == if j < len then Raw(d)[j] else NUL
    ensures target[..Length(target)] == Name(d)
  {
    var len := Length(d.fileName);
    FieldLength(d);
    assert forall j | 0 <= j < len :: Raw(d)[j] == d.fileName[j];
    LengthIs(target, len);
  }

  lemma LengthIs(s: seq<byte>, n: nat)
    requires n < |s| && s[n] == NUL && forall i | 0 <= i < n :: s[i] != NUL
    ensures Length(s) == n
  {
    if Length(s) < n {
      assert false;
    }
  }

  lemma FieldLength(d: Dentry)
    requires GoodDentry(d)
    ensures Min(Length(Raw(d)), FNAME_SIZE) == Length(d.fileName)
  {
    var (k, n) := (Length(d.fileName), Length(Raw(d)));
    assert forall i | 0 <= i < FNAME_SIZE :: Raw(d)[i] == d.fileName[i];
    if k < FNAME_SIZE {
      LengthIs(Raw(d), k);
    }
  }

  // Whether entry i has the name fname.
  method IsNamed(img: Image, i: nat, fname: seq<byte>, nameLen: nat, target: array<byte>) returns (found: bool)
    requires GoodImage(img) && i < img.numDentries && NUL in fname && nameLen == Length(fname) && target.Length == FNAME_SIZE + 1
    modifies target
    ensures found <==> Name(img.dentries[i]) == fname[..nameLen]
  {
    assert GoodDentry(img.dentries[i]);
    Strncpy(target, Raw(img.dentries[i]), FNAME_SIZE);
    target[FNAME_SIZE] := NUL;
    TargetIsName(img.dentries[i], target[..]);
    assert NUL in target[..];
    var targetLen := Strlen(target[..]);
    var match' := Strncmp(fname, target[..], nameLen);
    found := nameLen == targetLen && match' == 0;
  }

  // Finds the first entry whose name is exactly the requested string, terminated or not.
  method ReadDentryByName(img: Image, fname: seq<byte>) returns (r: int, dentry: Option<Dentry>)
    requires GoodImage(img) && NUL in fname
    ensures var k := Find(img, fname[..Length(fname)], 0);
            if k == -1 then r == -1 && dentry == None else r == 0 && dentry == Some(img.dentries[k].(reserved := []))
  {
    ghost var name := fname[..Length(fname)];
    var nameLen := Strlen(fname);
    if nameLen > FNAME_SIZE {
      return -1, None;
    }
    var target := new byte[FNAME_SIZE + 1](i => NUL);
    var i := 0;
    while i < img.numDentries
      invariant 0 <= i <= img.numDentries && Find(img, name, i) == Find(img, name, 0)
    {
      var found := IsNamed(img, i, fname, nameLen, target);
      if found {
        r, dentry := ReadDentryByIndex(img, i);
        return;
      }
      i := i + 1;
    }
    return -1, None;
  }

  // ----- listing

  // `dir_read`: the name delivered ([] at the end), and the cursor afterwards.
  function NextName(img: Image, position: nat): (r: (seq<byte>, nat))
    requires GoodImage(img)
  {
    if position < img.numDentries then (Name(img.dentries[position]), position + 1)
    else if position == img.numDentries then ([], 0)
    else ([], position)
  }

  method DirRead(img: Image, position: nat, buf: array<byte>) returns (len: nat, next: nat)
    requires GoodImage(img) && buf.Length >= FNAME_SIZE + 1
    modifies buf
    ensures var (name, p) := NextName(img, position);
            len == |name| <= FNAME_SIZE && next == p && buf[..len] == name
    ensures forall j | len <= j < buf.Length && j != FNAME_SIZE :: buf[j] == old(buf[j])
  {
    if position > img.numDentries { return 0, position; }
    var r, dentry := ReadDentryByIndex(img, position);
    if r == 0 {
      assert GoodDentry(img.dentries[position]);
      len := CopyEntryName(img.dentries[position], buf);
      return len, position + 1;
    }
    return 0, 0;
  }

  method CopyEntryName(d: Dentry, buf: array<byte>) returns (len: nat)
    requires GoodDentry(d) && buf.Length >= FNAME_SIZE + 1
    modifies buf
    ensures len == |Name(d)| <= FNAME_SIZE && buf[..len] == Name(d)
    ensures forall j | len <= j < buf.Length && j != FNAME_SIZE :: buf[j] == old(buf[j])
  {
    FieldLength(d);
    assert Raw(d)[FNAME_SIZE + 1] == Raw(d)[FNAME_SIZE..][1];
    len := Strlen(Raw(d));
    if len > FNAME_SIZE {
      len := FNAME_SIZE;
      buf[len] := NUL;
    }
    Strncpy(buf, Raw(d), len);
    assert forall j | 0 <= j < len :: buf[j] == Name(d)[j];
  }

  ghost function Cursor(img: Image, position: nat, n: nat): nat
    requires GoodImage(img)
  {
    if n == 0 then position else NextName(img, Cursor(img, position, n - 1)).1
  }

  // From the start the k-th read delivers the k-th name for as long as there are names, the one after that delivers
  // nothing, and the listing starts again; this repeats without end. With no empty names, only that one delivers nothing.
  lemma {:induction false} ListingRepeats(img: Image, k: nat, round: nat)
    requires GoodImage(img) && k <= img.numDentries
    ensures var n := round * (img.numDentries + 1) + k;
            && Cursor(img, 0, n) == k
            && NextName(img, Cursor(img, 0, n)).0 == (if k < img.numDentries then Name(img.dentries[k]) else [])
            && ((forall i | 0 <= i < img.numDentries :: Name(img.dentries[i]) != []) ==>
                 (NextName(img, Cursor(img, 0, n)).0 == [] <==> k == img.numDentries))
    decreases round, k
  {
    hide Name;
    var n := round * (img.numDentries + 1) + k;
    if k > 0 {
      ListingRepeats(img, k - 1, round);
    } else if round > 0 {
      ListingRepeats(img, img.numDentries, round - 1);
      assert (round - 1) * (img.numDentries + 1) + img.numDentries == n - 1;
    }
  }
}
