/** Bytes in memory and on disk, and the 32-bit words stored in them low byte first. */
module Bytes {

  type byte = n: nat | n < 256

  const U32 := 0x1_0000_0000

  function U32At(s: seq<byte>, at: nat): (v: nat)
    requires at + 4 <= |s|
    ensures v < U32
  {
    var b0: nat, b1: nat, b2: nat, b3: nat := s[at], s[at + 1], s[at + 2], s[at + 3];
    b0 + 0x100 * b1 + 0x1_0000 * b2 + 0x100_0000 * b3
  }

  function Le(v: nat): (s: seq<byte>)
    ensures |s| == 4
  {
    [v % 0x100, v / 0x100 % 0x100, v / 0x1_0000 % 0x100, v / 0x100_0000 % 0x100]
  }

  /** Copying t over the bytes of s from at on. */
  function Splice(s: seq<byte>, at: nat, t: seq<byte>): (r: seq<byte>)
    requires at + |t| <= |s|
    ensures |r| == |s|
    ensures forall k :: 0 <= k < |s| ==> r[k] == if at <= k < at + |t| then t[k - at] else s[k]
  {
    s[..at] + t + s[at + |t|..]
  }

  function PutU32(s: seq<byte>, at: nat, v: nat): (r: seq<byte>)
    requires at + 4 <= |s|
    ensures |r| == |s|
  {
    Splice(s, at, Le(v))
  }

  lemma LeBack(v: nat)
    requires v < U32
    ensures U32At(Le(v), 0) == v
  {
    var a, b, c := v / 0x100, v / 0x1_0000, v / 0x100_0000;
    assert a / 0x100 == b && b / 0x100 == c && c < 0x100;
  }

  /** A word reads back as it was stored, and storing it moves no other. */
  lemma U32Stored(s: seq<byte>, at: nat, v: nat, other: nat)
    requires at + 4 <= |s| && v < U32 && other + 4 <= |s|
    ensures U32At(PutU32(s, at, v), at) == v
    ensures other + 4 <= at || at + 4 <= other ==> U32At(PutU32(s, at, v), other) == U32At(s, other)
  {
    LeBack(v);
  }

  lemma U32Spliced(s: seq<byte>, at: nat, t: seq<byte>, other: nat)
    requires at + |t| <= |s| && other + 4 <= |s| && (other + 4 <= at || at + |t| <= other)
    ensures U32At(Splice(s, at, t), other) == U32At(s, other)
  {
  }

  /** strncpy and strncmp see a string up to its NUL or n characters, whichever comes first. */
  function Cut(s: seq<byte>, n: nat): (r: seq<byte>)
    ensures |r| <= n && |r| <= |s| && r == s[..|r|] && 0 !in r
    ensures |r| == n || |r| == |s| || s[|r|] == 0
  {
    if n == 0 || s == [] || s[0] == 0 then [] else [s[0]] + Cut(s[1..], n - 1)
  }

  /** What strncpy stores: the cut string, padded with NULs. */
  function Padded(s: seq<byte>, n: nat): (r: seq<byte>)
    ensures |r| == n && Cut(s, n) == r[..|Cut(s, n)|] && forall k :: |Cut(s, n)| <= k < n ==> r[k] == 0
    decreases n
  {
    if n == 0 then [] else if s == [] || s[0] == 0 then [0] + Padded([], n - 1) else [s[0]] + Padded(s[1..], n - 1)
  }

  lemma CutIs(s: seq<byte>, n: nat, k: nat)
    requires k <= n && k <= |s| && 0 !in s[..k] && (k == n || k == |s| || s[k] == 0)
    ensures Cut(s, n) == s[..k]
  {
    hide Cut;
    assert |Cut(s, n)| == k;
  }

  /** Comparing a stored name gives the name back. */
  lemma CutPadded(s: seq<byte>, n: nat)
    ensures Cut(Padded(s, n), n) == Cut(s, n)
  {
    hide Cut, Padded;
    CutIs(Padded(s, n), n, |Cut(s, n)|);
  }
}
