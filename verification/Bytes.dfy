/** Bytes and their big-endian framing. */
module Bytes {

  type Byte = x: int | 0 <= x < 256

  function Zeros(n: nat): (s: seq<Byte>)
    ensures |s| == n && forall i :: 0 <= i < n ==> s[i] == 0
  {
    seq(n, _ => 0)
  }

  function Pow256(n: nat): (p: nat)
    ensures p > 0
  {
    if n == 0 then 1 else 256 * Pow256(n - 1)
  }

  /** Big-endian bytes of `x`, most significant first. */
  function BigEndian(x: nat, bytes: nat): (s: seq<Byte>)
    ensures |s| == bytes
  {
    if bytes == 0 then [] else BigEndian(x / 256, bytes - 1) + [x % 256]
  }

  /** The number that bytes denote, most significant first. */
  function Number(s: seq<Byte>): nat {
    if s == [] then 0 else 256 * Number(s[..|s| - 1]) + s[|s| - 1]
  }

  lemma {:induction false} NumberOfBigEndian(x: nat, n: nat)
    requires x < Pow256(n)
    ensures Number(BigEndian(x, n)) == x
  {
    if n > 0 {
      NumberOfBigEndian(x / 256, n - 1);
      assert BigEndian(x, n)[..n - 1] == BigEndian(x / 256, n - 1);
    }
  }

  lemma {:induction false} BigEndianInjective(x: nat, y: nat, n: nat)
    requires BigEndian(x, n) == BigEndian(y, n) && x < Pow256(n) && y < Pow256(n)
    ensures x == y
  {
    if n > 0 {
      var s, t := BigEndian(x, n), BigEndian(y, n);
      assert s[..n - 1] == BigEndian(x / 256, n - 1) && t[..n - 1] == BigEndian(y / 256, n - 1);
      assert s[n - 1] == x % 256 && t[n - 1] == y % 256;
      BigEndianInjective(x / 256, y / 256, n - 1);
    }
  }

  lemma {:induction false} BigEndianZero(n: nat)
    ensures BigEndian(0, n) == Zeros(n)
  {
    if n > 0 { BigEndianZero(n - 1); }
  }

  lemma {:induction false} BigEndianWidens(x: nat, n: nat, m: nat)
    requires x < Pow256(n)
    ensures BigEndian(x, m + n) == Zeros(m) + BigEndian(x, n)
  {
    if n == 0 {
      BigEndianZero(m);
    } else {
      BigEndianWidens(x / 256, n - 1, m);
      assert BigEndian(x, m + n) == BigEndian(x / 256, m + (n - 1)) + [x % 256];
    }
  }

  /** A fixed-width field in front of two equal byte strings holds the same number. */
  lemma FieldDecodes(x: nat, y: nat, n: nat, rest: seq<Byte>, rest': seq<Byte>)
    requires BigEndian(x, n) + rest == BigEndian(y, n) + rest' && x < Pow256(n) && y < Pow256(n)
    ensures x == y && rest == rest'
  {
    var s, t := BigEndian(x, n) + rest, BigEndian(y, n) + rest';
    assert s[..n] == BigEndian(x, n) && t[..n] == BigEndian(y, n);
    assert s[n..] == rest && t[n..] == rest';
    BigEndianInjective(x, y, n);
  }
}
