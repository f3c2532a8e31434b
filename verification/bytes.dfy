/** Bytes and big-endian integers. */
module Bytes {
  type byte = x: nat | x < 256

  const CR: byte := 13
  const LF: byte := 10

  function Pow256(n: nat): (p: nat)
    ensures p >= 1
  { if n == 0 then 1 else 256 * Pow256(n - 1) }

  /** The n low-order bytes of v, most significant first. */
  function BigEndian(v: nat, n: nat): (s: seq<byte>)
    ensures |s| == n
  { if n == 0 then [] else BigEndian(v / 256, n - 1) + [v % 256] }

  function Value(s: seq<byte>): nat {
    if s == [] then 0 else 256 * Value(s[..|s| - 1]) + s[|s| - 1]
  }

  /** Reading undoes writing, for every value that fits. */
  lemma {:induction false} ReadWrite(v: nat, n: nat)
    requires v < Pow256(n)
    ensures Value(BigEndian(v, n)) == v
  {
    if n > 0 {
      ReadWrite(v / 256, n - 1);
      assert BigEndian(v, n)[..n - 1] == BigEndian(v / 256, n - 1);
    }
  }

  /** Writing undoes reading, and what is read fits. */
  lemma {:induction false} WriteRead(s: seq<byte>)
    ensures Value(s) < Pow256(|s|) && BigEndian(Value(s), |s|) == s
  {
    if s != [] {
      WriteRead(s[..|s| - 1]);
      assert s == s[..|s| - 1] + [s[|s| - 1]];
    }
  }

  /** Position of the first CR LF in s. */
  ghost predicate FirstCrLf(s: seq<byte>, i: nat) {
    && i + 1 < |s| && s[i] == CR && s[i + 1] == LF
    && forall j :: 0 <= j < i ==> !(s[j] == CR && s[j + 1] == LF)
  }

  ghost predicate NoCrLf(s: seq<byte>) { forall j :: 0 <= j < |s| - 1 ==> !(s[j] == CR && s[j + 1] == LF) }

  /** data written over s from position i on. */
  function Overwrite(s: seq<byte>, i: nat, data: seq<byte>): (r: seq<byte>)
    requires i + |data| <= |s|
    ensures |r| == |s| && r[i..i + |data|] == data && r[..i] == s[..i] && r[i + |data|..] == s[i + |data|..]
  {
    s[..i] + data + s[i + |data|..]
  }

  lemma OverwriteTwice(s: seq<byte>, i: nat, a: seq<byte>, b: seq<byte>)
    requires i + |a| + |b| <= |s|
    ensures Overwrite(Overwrite(s, i, a), i + |a|, b) == Overwrite(s, i, a + b)
  {
    var r := Overwrite(s, i, a);
    assert r[..i + |a|] == s[..i] + a && r[i + |a| + |b|..] == s[i + |a| + |b|..];
  }

  // ---- Hexadecimal digits ---------------------------------------------------------

  function HexChar(n: nat): (c: byte)
    requires n < 16
    ensures IsHexDigit(c) && HexValue(c) == n
  { if n > 9 then 55 + n else 48 + n }

  predicate IsHexDigit(c: byte) { 48 <= c <= 57 || 65 <= c <= 70 || 97 <= c <= 102 }

  function HexValue(c: byte): (n: nat)
    requires IsHexDigit(c)
    ensures n < 16
  { if c <= 57 then c - 48 else if c <= 70 then c - 55 else c - 87 }

  /** The low 32 bits of a number, as a signed one. */
  function Int32(n: int): int {
    if -0x8000_0000 <= n < 0x8000_0000 then n
    else
      var low := n % 0x1_0000_0000;
      if low < 0x8000_0000 then low else low - 0x1_0000_0000
  }
}
