/** Bytes, and the little-endian words of the object formats. */
module Bytes {
  type byte = c: int | 0 <= c < 256

  const TWO_TO_8 := 0x100
  const TWO_TO_16 := 0x1_0000
  const TWO_TO_32 := 0x1_0000_0000

  function Zeros(n: nat): (z: seq<byte>)
    ensures |z| == n && forall i :: 0 <= i < n ==> z[i] == 0
  {
    seq<byte>(n, _ => 0)
  }

  function Word16(b: seq<byte>, at: nat): (r: nat)
    requires at + 2 <= |b|
    ensures r < TWO_TO_16
  {
    b[at] + TWO_TO_8 * b[at + 1]
  }

  function Word32(b: seq<byte>, at: nat): (r: nat)
    requires at + 4 <= |b|
    ensures r < TWO_TO_32
  {
    Word16(b, at) + TWO_TO_16 * Word16(b, at + 2)
  }

  function Put16(v: nat): (b: seq<byte>)
    requires v < TWO_TO_16
    ensures |b| == 2
  {
    [v % TWO_TO_8, v / TWO_TO_8]
  }

  function Put32(v: nat): (b: seq<byte>)
    requires v < TWO_TO_32
    ensures |b| == 4
  {
    Put16(v % TWO_TO_16) + Put16(v / TWO_TO_16)
  }

  /** The number that bytes stand for, the least significant first. */
  function LittleEndian(b: seq<byte>): nat
  {
    if b == [] then 0 else b[0] + TWO_TO_8 * LittleEndian(b[1..])
  }

  lemma WordsAreLittleEndian(b: seq<byte>, at: nat)
    ensures at + 2 <= |b| ==> Word16(b, at) == LittleEndian(b[at..at + 2])
    ensures at + 4 <= |b| ==> Word32(b, at) == LittleEndian(b[at..at + 4])
  {
    if at + 2 <= |b| {
      TwoBytes(b[at..at + 2]);
    }
    if at + 4 <= |b| {
      var w := b[at..at + 4];
      assert w[1..][1..] == w[2..];
      TwoBytes(w[2..]);
    }
  }

  lemma TwoBytes(w: seq<byte>)
    requires |w| == 2
    ensures LittleEndian(w) == w[0] + TWO_TO_8 * w[1]
  {
    var t := w[1..];
    assert t[0] == w[1] && t[1..] == [];
    assert LittleEndian(t) == t[0] + TWO_TO_8 * LittleEndian(t[1..]);
  }

  /** The n bytes of a number. */
  function Digits(v: nat, n: nat): (b: seq<byte>)
    ensures |b| == n
  {
    if n == 0 then [] else [v % TWO_TO_8] + Digits(v / TWO_TO_8, n - 1)
  }

  function Radix(n: nat): (r: nat)
    ensures r > 0
  {
    if n == 0 then 1 else TWO_TO_8 * Radix(n - 1)
  }

  lemma {:induction false} DigitsValue(v: nat, n: nat)
    requires v < Radix(n)
    ensures LittleEndian(Digits(v, n)) == v
  {
    if n > 0 {
      assert Digits(v, n)[1..] == Digits(v / TWO_TO_8, n - 1);
      DigitsValue(v / TWO_TO_8, n - 1);
    }
  }

  lemma Word16OfPut16(b: seq<byte>, at: nat, v: nat)
    requires v < TWO_TO_16 && at + 2 <= |b| && b[at..at + 2] == Put16(v)
    ensures Word16(b, at) == v
  {
    assert b[at] == b[at..at + 2][0] && b[at + 1] == b[at..at + 2][1];
  }

  lemma Word32OfPut32(b: seq<byte>, at: nat, v: nat)
    requires v < TWO_TO_32 && at + 4 <= |b| && b[at..at + 4] == Put32(v)
    ensures Word32(b, at) == v
  {
    assert b[at..at + 2] == b[at..at + 4][..2] == Put16(v % TWO_TO_16);
    assert b[at + 2..at + 4] == b[at..at + 4][2..] == Put16(v / TWO_TO_16);
    Word16OfPut16(b, at, v % TWO_TO_16);
    Word16OfPut16(b, at + 2, v / TWO_TO_16);
  }

  /** d stands in b at pos. */
  predicate Stands(b: seq<byte>, pos: nat, d: seq<byte>)
  {
    pos + |d| <= |b| && b[pos..pos + |d|] == d
  }

  lemma StandsApart(b: seq<byte>, pos: nat, d: seq<byte>, e: seq<byte>)
    requires Stands(b, pos, d + e)
    ensures Stands(b, pos, d) && Stands(b, pos + |d|, e)
  {
    assert b[pos..pos + |d + e|][..|d|] == d && b[pos..pos + |d + e|][|d|..] == e;
  }

  /** c with the bytes of d written over it from offset at. */
  function Overlay(c: seq<byte>, at: nat, d: seq<byte>): (r: seq<byte>)
    requires at + |d| <= |c|
    ensures |r| == |c|
  {
    c[..at] + d + c[at + |d|..]
  }

  lemma OverlayAppend(c: seq<byte>, at: nat, d: seq<byte>, e: seq<byte>)
    requires at + |d| + |e| <= |c|
    ensures Overlay(Overlay(c, at, d), at + |d|, e) == Overlay(c, at, d + e)
  {
  }
}
