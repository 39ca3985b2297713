// Printing numbers: itoa with its in-place reversal, and the conversions of printf.
module Numbers {
  import opened Arith
  import opened Bytes

  const ZERO: byte := 48
  const MINUS: byte := 45

  // "0123456789ABCDEFGHIJKLMNOPQRSTUVWXYZ"
  function Digit(d: nat): byte
    requires d < 36
  {
    if d < 10 then (48 + d) as byte else (55 + d) as byte
  }

  function DigitValue(b: byte): int { if b < 58 then b as int - 48 else b as int - 55 }

  predicate Radix(r: int) { 2 <= r <= 36 }

  // Reading a numeral back.
  function Value(s: seq<byte>, radix: nat): int {
    if s == [] then 0 else Value(s[..|s| - 1], radix) * radix + DigitValue(s[|s| - 1])
  }

  function Quot(v: nat, radix: nat): (q: nat)
    requires Radix(radix)
    ensures v > 0 ==> q < v
  {
    v / radix
  }

  function Rem(v: nat, radix: nat): (d: nat)
    requires Radix(radix)
    ensures d < radix
  {
    v % radix
  }

  // The digits of a positive number, the highest first; nothing for 0.
  function Places(v: nat, radix: nat): (s: seq<byte>)
    requires Radix(radix)
    ensures s == [] <==> v == 0
    decreases v
  {
    if v == 0 then [] else Places(Quot(v, radix), radix) + [Digit(Rem(v, radix))]
  }

  lemma Divides(v: nat, radix: nat)
    requires Radix(radix)
    ensures v == Quot(v, radix) * radix + Rem(v, radix) && (v < radix ==> Quot(v, radix) == 0 && Rem(v, radix) == v)
  {
  }

  function Numeral(v: nat, radix: nat): (s: seq<byte>)
    requires Radix(radix)
    ensures |s| > 0
  {
    if v == 0 then [ZERO] else Places(v, radix)
  }

  lemma ValueAppend(s: seq<byte>, b: byte, radix: nat)
    ensures Value(s + [b], radix) == Value(s, radix) * radix + DigitValue(b)
  {
    assert (s + [b])[..|s|] == s;
  }

  lemma {:induction false} PlacesDenote(v: nat, radix: nat)
    requires Radix(radix)
    ensures Value(Places(v, radix), radix) == v
  {
    if v > 0 {
      var q := Quot(v, radix);
      PlacesDenote(q, radix);
      ValueAppend(Places(q, radix), Digit(Rem(v, radix)), radix);
      Divides(v, radix);
      DigitReads(Rem(v, radix));
    }
  }

  predicate DigitOf(b: byte, radix: nat) {
    0 <= DigitValue(b) < radix <= 36 && b == Digit(DigitValue(b))
  }

  lemma {:induction false} PlacesAreDigits(v: nat, radix: nat)
    requires Radix(radix)
    ensures v > 0 ==> Places(v, radix)[0] != ZERO
    ensures forall b | b in Places(v, radix) :: DigitOf(b, radix)
  {
    if v > 0 {
      PlacesAreDigits(Quot(v, radix), radix);
      Divides(v, radix);
      DigitReads(Rem(v, radix));
    }
  }

  lemma DigitReads(d: nat)
    requires d < 36
    ensures DigitValue(Digit(d)) == d && Digit(d) != NUL && (Digit(d) == ZERO <==> d == 0)
  {
  }

  // What is printed reads back as the number, and has no leading zero unless it is 0.
  lemma NumeralDenotes(v: nat, radix: nat)
    requires Radix(radix)
    ensures var s := Numeral(v, radix);
            Value(s, radix) == v && (s[0] == ZERO ==> s == [ZERO] && v == 0)
    ensures forall b | b in Numeral(v, radix) :: DigitOf(b, radix) && b != NUL
  {
    PlacesDenote(v, radix);
    PlacesAreDigits(v, radix);
    assert Value([ZERO], radix) == Value([], radix) * radix + DigitValue(ZERO);
  }

  function Power(radix: nat, k: nat): nat { if k == 0 then 1 else radix * Power(radix, k - 1) }

  lemma {:induction false} PlacesFit(v: nat, radix: nat, k: nat)
    requires Radix(radix) && v < Power(radix, k)
    ensures |Places(v, radix)| <= k
  {
    if v > 0 {
      Quotient(v, radix, Power(radix, k - 1));
      PlacesFit(Quot(v, radix), radix, k - 1);
    }
  }

  lemma Quotient(v: nat, r: nat, p: nat)
    requires Radix(r) && v < r * p
    ensures Quot(v, r) < p
  {
    Divides(v, r);
    if Quot(v, r) >= p { MulGrows(p, Quot(v, r), r); }
  }

  // ----- the code

  function Mirror(s: seq<byte>): (r: seq<byte>)
    ensures |r| == |s|
  {
    seq(|s|, k requires 0 <= k < |s| => s[|s| - 1 - k])
  }

  lemma MirrorAppend(s: seq<byte>, b: byte)
    ensures Mirror(s + [b]) == [b] + Mirror(s)
  {
  }

  method Swap(buf: array<byte>, i: nat, j: nat)
    requires i < buf.Length && j < buf.Length
    modifies buf
    ensures buf[..] == old(buf[..])[i := old(buf[j])][j := old(buf[i])]
  {
    var tmp := buf[j];
    buf[j] := buf[i];
    buf[i] := tmp;
  }

  method Strlen(buf: array<byte>, at: nat, ghost n: nat) returns (len: nat)
    requires at + n < buf.Length && buf[at + n] == NUL && forall i | at <= i < at + n :: buf[i] != NUL
    ensures len == n
  {
    len := 0;
    while buf[at + len] != NUL
      invariant 0 <= len <= n
      decreases n - len
    {
      len := len + 1;
    }
  }

  // Reverses the C string at `at` in place.
  method Strrev(buf: array<byte>, at: nat, ghost n: nat)
    requires at + n < buf.Length && buf[at + n] == NUL && forall i | at <= i < at + n :: buf[i] != NUL
    modifies buf
    ensures buf[..] == Splice(old(buf[..]), at, Mirror(old(buf[at..at + n])))
  {
    var len := Strlen(buf, at, n);
    ghost var was := buf[..];
    var beg := 0;
    var end := len as int - 1;
    while beg < end
      invariant 0 <= beg <= n && beg + end == n - 1
      invariant forall i | 0 <= i < buf.Length ::
                  buf[i] == was[if at <= i < at + beg || at + end < i < at + n then 2 * at + n - 1 - i else i]
    {
      Swap(buf, at + beg, at + end);
      beg := beg + 1;
      end := end - 1;
    }
    MirroredIs(was, buf[..], at, n);
  }

  lemma MirroredIs(was: seq<byte>, now: seq<byte>, at: nat, n: nat)
    requires at + n <= |was| == |now|
    requires forall i | 0 <= i < |was| :: now[i] == was[if at <= i < at + n then 2 * at + n - 1 - i else i]
    ensures now == Splice(was, at, Mirror(was[at..at + n]))
  {
  }

  // The digits, the lowest first, and a NUL.
  method WriteDigits(value: nat, buf: array<byte>, at: nat, radix: nat) returns (ghost low: seq<byte>)
    requires Radix(radix) && value > 0 && at + |Places(value, radix)| < buf.Length
    modifies buf
    ensures Mirror(low) == Places(value, radix) && buf[..] == Splice(old(buf[..]), at, low + [NUL])
  {
    ghost var was := buf[..];
    low := [];
    var newbuf, newval := at, value;
    while newval > 0
      invariant newbuf == at + |low| && at + |low| + |Places(newval, radix)| < |was|
      invariant Places(newval, radix) + Mirror(low) == Places(value, radix)
      invariant buf[..] == Splice(was, at, low)
    {
      var d := Digit(Rem(newval, radix));
      MirrorAppend(low, d);
      SpliceGrows(was, at, low, d);
      Associates(Places(Quot(newval, radix), radix), [d], Mirror(low));
      buf[newbuf] := d;
      low := low + [d];
      newbuf := newbuf + 1;
      newval := Quot(newval, radix);
    }
    SpliceGrows(was, at, low, NUL);
    buf[newbuf] := NUL;
  }

  // Writes the numeral and a NUL at `at`.
  method Itoa(value: nat, buf: array<byte>, at: nat, radix: nat)
    requires Radix(radix) && at + |Numeral(value, radix)| < buf.Length
    modifies buf
    ensures buf[..] == Splice(old(buf[..]), at, Numeral(value, radix) + [NUL])
  {
    ghost var was := buf[..];
    if value == 0 {
      buf[at] := ZERO;
      buf[at + 1] := NUL;
      assert buf[..] == Splice(was, at, [ZERO, NUL]);
      return;
    }
    ghost var low := WriteDigits(value, buf, at, radix);
    MirrorNonzero(value, radix, low);
    ReverseDigits(was, buf, at, low);
  }

  method ReverseDigits(ghost was: seq<byte>, buf: array<byte>, at: nat, ghost low: seq<byte>)
    requires at + |low| < |was| == buf.Length && buf[..] == Splice(was, at, low + [NUL])
    requires forall i | 0 <= i < |low| :: low[i] != NUL
    modifies buf
    ensures buf[..] == Splice(was, at, Mirror(low) + [NUL])
  {
    SpliceReads(was, at, low);
    Strrev(buf, at, |low|);
    SpliceAgain(was, at, low, Mirror(low));
  }

  lemma SpliceReads(was: seq<byte>, at: nat, s: seq<byte>)
    requires at + |s| < |was|
    ensures var now := Splice(was, at, s + [NUL]);
            now[at..at + |s|] == s && now[at + |s|] == NUL && forall i | at <= i < at + |s| :: now[i] == s[i - at]
  {
  }

  lemma SpliceAgain(was: seq<byte>, at: nat, s: seq<byte>, t: seq<byte>)
    requires |s| == |t| && at + |s| < |was|
    ensures Splice(Splice(was, at, s + [NUL]), at, t) == Splice(was, at, t + [NUL])
  {
  }

  lemma MirrorNonzero(value: nat, radix: nat, low: seq<byte>)
    requires Radix(radix) && Mirror(low) == Places(value, radix) && value > 0
    ensures forall i | 0 <= i < |low| :: low[i] != NUL
  {
    NumeralDenotes(value, radix);
    forall i | 0 <= i < |low| ensures low[i] != NUL {
      assert Mirror(low)[|low| - 1 - i] == low[i];
      assert Mirror(low)[|low| - 1 - i] in Places(value, radix);
    }
  }

  // %x and %u
  method PrintUnsigned(value: nat, radix: nat) returns (out: seq<byte>)
    requires value < UINT32 && (radix == 10 || radix == 16)
    ensures out == Numeral(value, radix) && Value(out, radix) == value && (out[0] == ZERO ==> value == 0)
  {
    Fits32(value);
    NumeralDenotes(value, radix);
    var conv := new byte[36](i => NUL);
    Itoa(value, conv, 0, radix);
    out := Puts(conv, 0, Numeral(value, radix));
  }

  lemma Fits32(value: nat)
    requires value < UINT32
    ensures |Numeral(value, 10)| <= 10 && |Numeral(value, 16)| <= 8
  {
    assert Power(10, 2) == 100 && Power(10, 4) == 10000 && Power(10, 6) == 1000000 && Power(10, 8) == 100000000;
    assert Power(10, 10) == 10000000000;
    PlacesFit(value, 10, 10);
    assert Power(16, 2) == 0x100 && Power(16, 4) == 0x10000 && Power(16, 6) == 0x1000000 && Power(16, 8) == UINT32;
    PlacesFit(value, 16, 8);
  }

  // The C string at `at`.
  method Puts(buf: array<byte>, at: nat, ghost s: seq<byte>) returns (out: seq<byte>)
    requires at + |s| < buf.Length && buf[at..at + |s|] == s && buf[at + |s|] == NUL && NUL !in s
    ensures out == s
  {
    var index := 0;
    out := [];
    while buf[at + index] != NUL
      invariant 0 <= index <= |s| && out == s[..index]
      decreases |s| - index
    {
      assert buf[at..at + |s|][index] == buf[at + index];
      out := out + [buf[at + index]];
      index := index + 1;
    }
    if index < |s| {
      assert false;
    }
  }

  lemma {:induction false} LeadingZeros(n: nat, s: seq<byte>, radix: nat)
    ensures Value(Repeat(ZERO, n) + s, radix) == Value(s, radix)
    decreases |s|, n
  {
    var z := Repeat(ZERO, n);
    if s == [] {
      assert z + s == z;
      if n > 0 {
        assert z[..n - 1] == Repeat(ZERO, n - 1) == Repeat(ZERO, n - 1) + [];
        LeadingZeros(n - 1, [], radix);
      }
    } else {
      assert (z + s)[..n + |s| - 1] == z + s[..|s| - 1];
      LeadingZeros(n, s[..|s| - 1], radix);
    }
  }

  function Padded(value: nat): (s: seq<byte>)
    requires |Numeral(value, 16)| <= 8
    ensures |s| == 8
  {
    Repeat(ZERO, 8 - |Numeral(value, 16)|) + Numeral(value, 16)
  }

  lemma PaddedDenotes(value: nat)
    requires value < UINT32
    ensures |Numeral(value, 16)| <= 8 && Value(Padded(value), 16) == value
    ensures forall b | b in Padded(value) :: DigitOf(b, 16) && b != NUL
  {
    Fits32(value);
    NumeralDenotes(value, 16);
    LeadingZeros(8 - |Numeral(value, 16)|, Numeral(value, 16), 16);
    DigitReads(0);
  }

  method PadZeros(conv: array<byte>, start: nat)
    requires start <= 8 <= conv.Length
    modifies conv
    ensures conv[..] == Splice(old(conv[..]), start, Repeat(ZERO, 8 - start))
  {
    var i := start;
    while i < 8
      invariant start <= i <= 8 && forall j | 0 <= j < conv.Length :: conv[j] == if start <= j < i then ZERO else old(conv[j])
    {
      conv[i] := ZERO;
      i := i + 1;
    }
  }

  // The buffer with the digits at byte 8, and then with the zeros below them.
  lemma HexLaidOut(value: nat, buf: seq<byte>)
    requires value < UINT32 && |buf| == 64 && |Numeral(value, 16)| <= 8
    ensures var s := Numeral(value, 16);
            var conv := Splice(buf, 8, s + [NUL]);
            && conv[8 + |s|] == NUL && (forall i | 8 <= i < 8 + |s| :: conv[i] != NUL)
            && Splice(conv, |s|, Repeat(ZERO, 8 - |s|))[|s|..|s| + 8] == Padded(value)
            && Splice(conv, |s|, Repeat(ZERO, 8 - |s|))[|s| + 8] == NUL
  {
    var s := Numeral(value, 16);
    NumeralDenotes(value, 16);
    SpliceReads(buf, 8, s);
    forall i | 0 <= i < |s| ensures s[i] != NUL {
      assert s[i] in s;
    }
  }

  // %#x: the zeros go below the digits, which start at byte 8; printing starts where that leaves eight characters.
  method PrintHex8(value: nat) returns (out: seq<byte>)
    requires value < UINT32
    ensures |out| == 8 && Value(out, 16) == value && forall b | b in out :: DigitOf(b, 16)
  {
    PaddedDenotes(value);
    var conv := new byte[64](i => NUL);
    HexLaidOut(value, conv[..]);
    Itoa(value, conv, 8, 16);
    var start := Strlen(conv, 8, |Numeral(value, 16)|);
    PadZeros(conv, start);
    out := Puts(conv, start, Padded(value));
  }

  // The number a signed numeral stands for.
  function SignedValue(s: seq<byte>): int {
    if s != [] && s[0] == MINUS then -Value(s[1..], 10) else Value(s, 10)
  }

  function Signed(value: int): seq<byte> { if value < 0 then [MINUS] + Numeral(-value, 10) else Numeral(value, 10) }

  lemma SignedDenotes(value: int)
    ensures SignedValue(Signed(value)) == value && NUL !in Signed(value)
  {
    var s := Numeral(if value < 0 then -value else value, 10);
    NumeralDenotes(if value < 0 then -value else value, 10);
    if value < 0 {
      assert Signed(value)[1..] == s;
    } else {
      assert s[0] in s;
    }
  }

  lemma SignedLaidOut(was: seq<byte>, now: seq<byte>, value: int)
    requires value < 0 && 1 + |Numeral(-value, 10)| < |was| && was[0] == MINUS
    requires now == Splice(was, 1, Numeral(-value, 10) + [NUL])
    ensures now[0..|Signed(value)|] == Signed(value) && now[|Signed(value)|] == NUL
  {
    var s := Numeral(-value, 10);
    SpliceReads(was, 1, s);
    assert now[0..1 + |s|] == [now[0]] + now[1..1 + |s|];
  }

  // %d. Negation wraps: the smallest value is its own negative, and printing it unsigned is right.
  method PrintSigned(value: int) returns (out: seq<byte>)
    requires -0x8000_0000 <= value < 0x8000_0000
    ensures out == Signed(value) && SignedValue(out) == value
  {
    hide Numeral;
    SignedDenotes(value);
    var conv := new byte[36](i => NUL);
    if value < 0 {
      var negated := (UINT32 - value) % UINT32;
      assert negated == -value;
      Fits32(negated);
      conv[0] := MINUS;
      ghost var was := conv[..];
      Itoa(negated, conv, 1, 10);
      SignedLaidOut(was, conv[..], value);
    } else {
      Fits32(value);
      Itoa(value, conv, 0, 10);
    }
    out := Puts(conv, 0, Signed(value));
  }
}
