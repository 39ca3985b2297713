// Bytes and NUL-terminated strings, shared by every component.
module Bytes {
  newtype byte = x: int | 0 <= x < 256

  const NUL: byte := 0
  const BACKSPACE: byte := 8
  const NEWLINE: byte := 10
  const RETURN: byte := 13
  const SPACE: byte := 32
  const COLON: byte := 58

  datatype Option<+T> = None | Some(value: T)

  function Min(a: int, b: int): int { if a <= b then a else b }

  function Max(a: int, b: int): int { if a <= b then b else a }

  function Repeat(b: byte, n: nat): (r: seq<byte>)
    ensures |r| == n && forall i | 0 <= i < n :: r[i] == b
  {
    seq(n, i => b)
  }

  // A buffer after its first |new| bytes have been overwritten.
  function Overlay(old': seq<byte>, new': seq<byte>): (r: seq<byte>)
    requires |new'| <= |old'|
    ensures |r| == |old'| && new' <= r
  {
    new' + old'[|new'|..]
  }

  lemma OverlayGrows(old': seq<byte>, new': seq<byte>, b: byte)
    requires |new'| < |old'|
    ensures Overlay(old', new')[|new'| := b] == Overlay(old', new' + [b])
  {
  }

  lemma OverlayIs(was: seq<byte>, now: seq<byte>, new': seq<byte>)
    requires |now| == |was| && new' <= now && forall j | |new'| <= j < |was| :: now[j] == was[j]
    ensures now == Overlay(was, new')
  {
  }

  // A buffer after s has been written into it at index `at`.
  function Splice(buf: seq<byte>, at: nat, s: seq<byte>): (r: seq<byte>)
    requires at + |s| <= |buf|
    ensures |r| == |buf|
  {
    buf[..at] + s + buf[at + |s|..]
  }

  lemma SpliceGrows(buf: seq<byte>, at: nat, s: seq<byte>, b: byte)
    requires at + |s| < |buf|
    ensures Splice(buf, at, s)[at + |s| := b] == Splice(buf, at, s + [b])
  {
  }

  lemma Associates(a: seq<byte>, b: seq<byte>, c: seq<byte>)
    ensures a + b + c == a + (b + c)
  {
  }

  lemma SliceSnoc(s: seq<byte>, a: nat, j: nat)
    requires a <= j < |s|
    ensures s[a..j + 1] == s[a..j] + [s[j]]
  {
  }
}
