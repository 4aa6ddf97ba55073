/** SHA-256 of FIPS 180-4 (sections 2.2.2, 4.1.2, 5.1.1 and 6.2.2), and the
    in-place software version with JavaScript's number semantics: bitwise
    operators coerce to 32 bits and answer signed, `>>>` answers unsigned, and `+`
    is exact on numbers below 2^53. */
module Sha256 {
  import opened Bytes
  import opened Collections
  import opened Bits

  const M: int := 0x1_0000_0000
  type Word = x: int | 0 <= x < M

  // ---------- words ----------

  function Combine(f: (bool, bool) -> bool, a: Word, b: Word): Word
    requires !f(false, false)
  {
    Pow2At32();
    BitwiseFits(f, a, b, 32);
    Bitwise(f, a, b)
  }

  lemma Pow2At32()
    ensures Pow2(32) == M
  {
    assert Pow2(8) == 256 && Pow2(16) == 0x1_0000 && Pow2(24) == 0x100_0000;
  }

  function Xor(a: Word, b: Word): Word { Combine(Differ, a, b) }
  function And(a: Word, b: Word): Word { Combine(Both, a, b) }
  function Or(a: Word, b: Word): Word { Combine(Either, a, b) }
  function Not(a: Word): Word { M - 1 - a }
  function Add(a: Word, b: Word): Word { if a + b < M then a + b else a + b - M }
  function Shr(a: Word, n: nat): Word { Shrinks(a, Pow2(n)); a / Pow2(n) }
  function Shl(a: Word, n: nat): Word { (a * Pow2(n)) % M }

  lemma NonNegative(a: nat, b: int)
    requires b >= 0
    ensures a * b >= 0
  {}

  lemma Shrinks(a: nat, p: nat)
    requires p > 0
    ensures 0 <= a / p <= a
  {
    var q := a / p;
    assert a == p * q + a % p;
    NonNegative(p - 1, q);
    assert p * q == q + (p - 1) * q;
  }

  // ---------- FIPS 180-4 ----------

  const K0: seq<Word> := [0x428a_2f98, 0x7137_4491, 0xb5c0_fbcf, 0xe9b5_dba5,
                            0x3956_c25b, 0x59f1_11f1, 0x923f_82a4, 0xab1c_5ed5]
  const K1: seq<Word> := [0xd807_aa98, 0x1283_5b01, 0x2431_85be, 0x550c_7dc3,
                            0x72be_5d74, 0x80de_b1fe, 0x9bdc_06a7, 0xc19b_f174]
  const K2: seq<Word> := [0xe49b_69c1, 0xefbe_4786, 0x0fc1_9dc6, 0x240c_a1cc,
                            0x2de9_2c6f, 0x4a74_84aa, 0x5cb0_a9dc, 0x76f9_88da]
  const K3: seq<Word> := [0x983e_5152, 0xa831_c66d, 0xb003_27c8, 0xbf59_7fc7,
                            0xc6e0_0bf3, 0xd5a7_9147, 0x06ca_6351, 0x1429_2967]
  const K4: seq<Word> := [0x27b7_0a85, 0x2e1b_2138, 0x4d2c_6dfc, 0x5338_0d13,
                            0x650a_7354, 0x766a_0abb, 0x81c2_c92e, 0x9272_2c85]
  const K5: seq<Word> := [0xa2bf_e8a1, 0xa81a_664b, 0xc24b_8b70, 0xc76c_51a3,
                            0xd192_e819, 0xd699_0624, 0xf40e_3585, 0x106a_a070]
  const K6: seq<Word> := [0x19a4_c116, 0x1e37_6c08, 0x2748_774c, 0x34b0_bcb5,
                            0x391c_0cb3, 0x4ed8_aa4a, 0x5b9c_ca4f, 0x682e_6ff3]
  const K7: seq<Word> := [0x748f_82ee, 0x78a5_636f, 0x84c8_7814, 0x8cc7_0208,
                            0x90be_fffa, 0xa450_6ceb, 0xbef9_a3f7, 0xc671_78f2]

  /** The constants of section 4.2.2, in rows of eight. */
  const K: seq<Word> := K0 + K1 + K2 + K3 + K4 + K5 + K6 + K7

  datatype State = State(a: Word, b: Word, c: Word, d: Word, e: Word, f: Word, g: Word, h: Word)

  const H0: State := State(0x6a09e667, 0xbb67ae85, 0x3c6ef372, 0xa54ff53a,
                           0x510e527f, 0x9b05688c, 0x1f83d9ab, 0x5be0cd19)

  /** Section 5.1.1 on bytes: a one bit, then zero bits up to 448 modulo 512,
      then the bit length in 64 bits. */
  function Pad(message: seq<Byte>): seq<Byte> {
    message + [0x80] + Zeros((55 - |message|) % 64) + BigEndian(8 * |message|, 8)
  }

  function WordAt(bytes: seq<Byte>, i: nat): Word
    requires i + 4 <= |bytes|
  {
    (bytes[i] as int) * 0x100_0000 + (bytes[i + 1] as int) * 0x1_0000 + (bytes[i + 2] as int) * 0x100 + bytes[i + 3]
  }

  function Sum(s: State, t: State): State {
    State(Add(s.a, t.a), Add(s.b, t.b), Add(s.c, t.c), Add(s.d, t.d),
          Add(s.e, t.e), Add(s.f, t.f), Add(s.g, t.g), Add(s.h, t.h))
  }

  /** The bytes of a word, most significant first. */
  function WordBytes(x: Word): (s: seq<Byte>)
    ensures |s| == 4
  {
    [x / 0x100_0000, x / 0x1_0000 % 256, x / 0x100 % 256, x % 256]
  }

  /** The words of the state, in order. */
  function Digest(s: State): (d: seq<Byte>)
    ensures |d| == 32
  {
    WordBytes(s.a) + WordBytes(s.b) + WordBytes(s.c) + WordBytes(s.d)
    + WordBytes(s.e) + WordBytes(s.f) + WordBytes(s.g) + WordBytes(s.h)
  }

  const HEX := "0123456789abcdef"

  function Hex(bytes: seq<Byte>): string {
    if bytes == [] then "" else [HEX[bytes[0] / 16], HEX[bytes[0] % 16]] + Hex(bytes[1..])
  }

  lemma Remainder64(x: int, q: int, r: nat)
    requires x == 64 * q + r && r < 64
    ensures x % 64 == r
  {
  }

  lemma PaddingRemainder(n: nat)
    ensures (n + 9 + (55 - n) % 64) % 64 == 0
    ensures n + 72 - (n + 72) % 64 == n + 9 + (55 - n) % 64
  {
    var q, r := n / 64, n % 64;
    if r <= 55 {
      Remainder64(55 - n, -q, 55 - r);
      Remainder64(n + 72, q + 1, r + 8);
      Remainder64(n + 9 + (55 - r), q + 1, 0);
    } else {
      Remainder64(55 - n, -q - 1, 119 - r);
      Remainder64(n + 72, q + 2, r - 56);
      Remainder64(n + 9 + (119 - r), q + 2, 0);
    }
  }

  /** The padded length is the least multiple of 64 that leaves room for nine more bytes. */
  lemma PaddedLength(message: seq<Byte>)
    ensures |Pad(message)| % 64 == 0
    ensures |message| + 9 <= |Pad(message)| < |message| + 9 + 64
  {
    PaddingRemainder(|message|);
    assert |Pad(message)| == |message| + 9 + (55 - |message|) % 64;
  }

  // ---------- JavaScript numbers ----------

  function ToUint32(x: int): Word { x % M }
  function ToInt32(x: int): int { if x % M < 0x8000_0000 then x % M else x % M - M }

  /** Signed answers denote the same word. */
  lemma SignIsForgotten(x: int)
    ensures ToUint32(ToInt32(x)) == ToUint32(x)
  {}

  /** Exact addition followed by >>> 0 is addition modulo 2^32. */
  lemma SumModulo(x: int, y: int)
    ensures ToUint32(x + y) == Add(ToUint32(x), ToUint32(y))
  {
    assert x + y == (x % M + y % M) + M * (x / M + y / M);
    ModuloShift(x % M + y % M, x / M + y / M);
  }

  lemma {:induction false} ModuloShift(x: int, q: int)
    ensures (x + M * q) % M == x % M
    decreases if q < 0 then -q else q
  {
    if q > 0 {
      ModuloShift(x, q - 1);
      assert x + M * q == (x + M * (q - 1)) + M;
    } else if q < 0 {
      ModuloShift(x, q + 1);
      assert x + M * q == (x + M * (q + 1)) - M;
    }
  }

  lemma WordIsItself(x: Word)
    ensures ToUint32(x) == x
  {}

  lemma WordSum(a: Word, b: Word)
    ensures ToUint32(a + b) == Add(a, b)
  {}

  lemma Sum5(h: Word, s: int, c: int, k: Word, w: Word)
    ensures ToUint32(h + s + c + k + w) == Add(Add(Add(Add(h, ToUint32(s)), ToUint32(c)), k), w)
  {
    WordIsItself(h); WordIsItself(k); WordIsItself(w);
    SumModulo(h, s); SumModulo(h + s, c); SumModulo(h + s + c, k); SumModulo(h + s + c + k, w);
  }

  lemma Sum4(a: Word, s: int, b: Word, t: int)
    ensures ToUint32(a + s + b + t) == Add(Add(Add(ToUint32(t), b), ToUint32(s)), a)
  {
    WordIsItself(a); WordIsItself(b);
    SumModulo(t, b); SumModulo(t + b, s); SumModulo(t + b + s, a);
    assert a + s + b + t == t + b + s + a;
  }

  method AddWord(a: Word, b: Word) returns (c: Word)
    ensures c == Add(a, b)
  {
    WordSum(a, b);
    c := ToUint32(a + b);
  }

  method AddState(s: State, r: State) returns (t: State)
    ensures t == Sum(s, r)
  {
    var a := AddWord(s.a, r.a);
    var b := AddWord(s.b, r.b);
    var c := AddWord(s.c, r.c);
    var d := AddWord(s.d, r.d);
    var e := AddWord(s.e, r.e);
    var f := AddWord(s.f, r.f);
    var g := AddWord(s.g, r.g);
    var h := AddWord(s.h, r.h);
    t := State(a, b, c, d, e, f, g, h);
  }

  // ---------- the algorithm, over its 32-bit operators ----------

  /** The operators of section 2.2.2 and the constants of 4.2.2.  The specification and the program are both
      written over them, so that their agreement does not depend on how a bit is
      computed; STANDARD below fixes what they are. */
  datatype Logic = Logic(
    xor: (Word, Word) -> Word, and: (Word, Word) -> Word, or: (Word, Word) -> Word,
    not: Word -> Word, shl: (Word, nat) -> Word, shr: (Word, nat) -> Word, k: seq<Word>)
  {
    // The functions of section 4.1.2.

    function Rotr(a: Word, n: nat): Word requires n <= 32 { or(shr(a, n), shl(a, 32 - n)) }
    function Ch(x: Word, y: Word, z: Word): Word { xor(and(x, y), and(not(x), z)) }
    function Maj(x: Word, y: Word, z: Word): Word { xor(xor(and(x, y), and(x, z)), and(y, z)) }
    function BigSigma0(x: Word): Word { xor(xor(Rotr(x, 2), Rotr(x, 13)), Rotr(x, 22)) }
    function BigSigma1(x: Word): Word { xor(xor(Rotr(x, 6), Rotr(x, 11)), Rotr(x, 25)) }
    function SmallSigma0(x: Word): Word { xor(xor(Rotr(x, 7), Rotr(x, 18)), shr(x, 3)) }
    function SmallSigma1(x: Word): Word { xor(xor(Rotr(x, 17), Rotr(x, 19)), shr(x, 10)) }

    /** The first `n` words of the message schedule of a block (6.2.2 step 1). */
    function Schedule(block: seq<Byte>, n: nat): (w: seq<Word>)
      requires |block| == 64 && n <= 64
      ensures |w| == n
    {
      if n == 0 then []
      else
        var w := Schedule(block, n - 1);
        var t := n - 1;
        w + [if t < 16 then WordAt(block, 4 * t)
             else Add(Add(Add(SmallSigma1(w[t - 2]), w[t - 7]), SmallSigma0(w[t - 15])), w[t - 16])]
    }

    /** One round (6.2.2 step 3). */
    function T1(s: State, kt: Word, wt: Word): Word {
      Add(Add(Add(Add(s.h, BigSigma1(s.e)), Ch(s.e, s.f, s.g)), kt), wt)
    }

    function T2(s: State): Word { Add(BigSigma0(s.a), Maj(s.a, s.b, s.c)) }

    function Round(s: State, kt: Word, wt: Word): State {
      var t1, t2 := T1(s, kt, wt), T2(s);
      State(Add(t1, t2), s.a, s.b, s.c, Add(s.d, t1), s.e, s.f, s.g)
    }

    function Rounds(s: State, w: seq<Word>, n: nat): State
      requires |w| == 64 && |k| == 64 && n <= 64
    {
      if n == 0 then s else Round(Rounds(s, w, n - 1), k[n - 1], w[n - 1])
    }

    function Compress(s: State, block: seq<Byte>): State
      requires |block| == 64 && |k| == 64
    {
      Sum(s, Rounds(s, Schedule(block, |k|), |k|))
    }

    /** The hash value after the first `n` blocks. */
    function Hashed(padded: seq<Byte>, n: nat): State
      requires 64 * n <= |padded| && |k| == 64
    {
      if n == 0 then H0 else Compress(Hashed(padded, n - 1), padded[64 * (n - 1)..64 * (n - 1) + 64])
    }

    function HashPadded(padded: seq<Byte>): string
      requires |padded| % 64 == 0 && |k| == 64
    {
      Hex(Digest(Hashed(padded, |padded| / 64)))
    }

    // The operators of JavaScript: coerced to 32 bits, answered signed except by >>>.

    function JsXor(a: int, b: int): int { ToInt32(xor(ToUint32(a), ToUint32(b))) }
    function JsAnd(a: int, b: int): int { ToInt32(and(ToUint32(a), ToUint32(b))) }
    function JsOr(a: int, b: int): int { ToInt32(or(ToUint32(a), ToUint32(b))) }
    function JsNot(a: int): int { ToInt32(not(ToUint32(a))) }
    function JsShl(a: int, n: nat): int { ToInt32(shl(ToUint32(a), n)) }
    function JsShr(a: int, n: nat): int { shr(ToUint32(a), n) }
    function JsRotr(value: int, bits: nat): int
      requires bits <= 32
    {
      JsOr(JsShr(value, bits), JsShl(value, 32 - bits))
    }

    lemma JsRotrIsRotr(x: Word, n: nat)
      requires n <= 32
      ensures ToUint32(JsRotr(x, n)) == Rotr(x, n)
    {
      WordIsItself(x);
      WordIsItself(shr(x, n));
      SignIsForgotten(shl(x, 32 - n));
      WordIsItself(shl(x, 32 - n));
      SignIsForgotten(Rotr(x, n));
      WordIsItself(Rotr(x, n));
    }

    lemma XorSigned(a: int, b: int)
      ensures ToUint32(JsXor(a, b)) == xor(ToUint32(a), ToUint32(b))
    {
      SignIsForgotten(xor(ToUint32(a), ToUint32(b)));
      WordIsItself(xor(ToUint32(a), ToUint32(b)));
    }

    lemma AndSigned(a: int, b: int)
      ensures ToUint32(JsAnd(a, b)) == and(ToUint32(a), ToUint32(b))
    {
      SignIsForgotten(and(ToUint32(a), ToUint32(b)));
      WordIsItself(and(ToUint32(a), ToUint32(b)));
    }

    lemma Xor3Signed(a: int, b: int, c: int)
      ensures ToUint32(JsXor(JsXor(a, b), c)) == xor(xor(ToUint32(a), ToUint32(b)), ToUint32(c))
    {
      XorSigned(a, b);
      XorSigned(JsXor(a, b), c);
    }

    lemma Rotr3Signed(x: Word, i: nat, j: nat, k: nat)
      requires i <= 32 && j <= 32 && k <= 32
      ensures ToUint32(JsXor(JsXor(JsRotr(x, i), JsRotr(x, j)), JsRotr(x, k)))
              == xor(xor(Rotr(x, i), Rotr(x, j)), Rotr(x, k))
    {
      JsRotrIsRotr(x, i); JsRotrIsRotr(x, j); JsRotrIsRotr(x, k);
      Xor3Signed(JsRotr(x, i), JsRotr(x, j), JsRotr(x, k));
    }

    lemma SmallSigmaSigned(x: Word, i: nat, j: nat, k: nat)
      requires i <= 32 && j <= 32
      ensures ToUint32(JsXor(JsXor(JsRotr(x, i), JsRotr(x, j)), JsShr(x, k)))
              == xor(xor(Rotr(x, i), Rotr(x, j)), shr(x, k))
    {
      WordIsItself(x);
      WordIsItself(shr(x, k));
      JsRotrIsRotr(x, i); JsRotrIsRotr(x, j);
      Xor3Signed(JsRotr(x, i), JsRotr(x, j), JsShr(x, k));
    }

    lemma ChSigned(e: Word, f: Word, g: Word)
      ensures ToUint32(JsXor(JsAnd(e, f), JsAnd(JsNot(e), g))) == Ch(e, f, g)
    {
      WordIsItself(e); WordIsItself(f); WordIsItself(g);
      SignIsForgotten(not(e)); WordIsItself(not(e));
      AndSigned(e, f); AndSigned(JsNot(e), g);
      XorSigned(JsAnd(e, f), JsAnd(JsNot(e), g));
    }

    lemma MajSigned(a: Word, b: Word, c: Word)
      ensures ToUint32(JsXor(JsXor(JsAnd(a, b), JsAnd(a, c)), JsAnd(b, c))) == Maj(a, b, c)
    {
      WordIsItself(a); WordIsItself(b); WordIsItself(c);
      AndSigned(a, b); AndSigned(a, c); AndSigned(b, c);
      Xor3Signed(JsAnd(a, b), JsAnd(a, c), JsAnd(b, c));
    }

    /** The loop body that derives w[i] for i >= 16. */
    method NextWord(w16: Word, w15: Word, w7: Word, w2: Word) returns (r: Word)
      ensures r == Add(Add(Add(SmallSigma1(w2), w7), SmallSigma0(w15)), w16)
    {
      var s0 := JsXor(JsXor(JsRotr(w15, 7), JsRotr(w15, 18)), JsShr(w15, 3));
      var s1 := JsXor(JsXor(JsRotr(w2, 17), JsRotr(w2, 19)), JsShr(w2, 10));
      SmallSigmaSigned(w15, 7, 18, 3);
      SmallSigmaSigned(w2, 17, 19, 10);
      Sum4(w16, s0, w7, s1);
      r := ToUint32(w16 + s0 + w7 + s1);
    }

    lemma WordInBlock(bytes: seq<Byte>, offset: nat, i: nat)
      requires offset + 64 <= |bytes| && i < 16
      ensures WordAt(bytes, offset + i * 4) == WordAt(bytes[offset..offset + 64], 4 * i)
    {
      var block := bytes[offset..offset + 64];
      assert block[4 * i] == bytes[offset + i * 4] && block[4 * i + 1] == bytes[offset + i * 4 + 1];
      assert block[4 * i + 2] == bytes[offset + i * 4 + 2] && block[4 * i + 3] == bytes[offset + i * 4 + 3];
    }

    /** The first loop: the words of the block. */
    method LoadWords(padded: array<Byte>, offset: nat, ghost block: seq<Byte>, w: array<Word>)
      requires offset + 64 <= padded.Length && w.Length == 64 && block == padded[offset..offset + 64]
      modifies w
      ensures w[..16] == Schedule(block, 16)
    {
      for i := 0 to 16
        invariant w[..i] == Schedule(block, i)
      {
        var word := WordAt(padded[..], offset + i * 4);
        WordInBlock(padded[..], offset, i);
        w[i] := word;
        assert w[..i + 1] == w[..i] + [word];
      }
    }

    /** The second loop: the other 48 words. */
    method ExtendWords(ghost block: seq<Byte>, w: array<Word>)
      requires |block| == 64 && w.Length == 64 && w[..16] == Schedule(block, 16)
      modifies w
      ensures w[..] == Schedule(block, w.Length)
    {
      for i := 16 to 64
        invariant w[..i] == Schedule(block, i)
      {
        var next := NextWord(w[i - 16], w[i - 15], w[i - 7], w[i - 2]);
        ghost var before := w[..i];
        assert before[i - 2] == w[i - 2] && before[i - 15] == w[i - 15];
        assert before[i - 7] == w[i - 7] && before[i - 16] == w[i - 16];
        w[i] := next;
        assert w[..i + 1] == before + [next];
      }
      assert w[..64] == w[..];
    }

    method ExpandBlock(padded: array<Byte>, offset: nat, ghost block: seq<Byte>, w: array<Word>)
      requires offset + 64 <= padded.Length && w.Length == 64 && block == padded[offset..offset + 64]
      modifies w
      ensures w[..] == Schedule(block, w.Length)
    {
      LoadWords(padded, offset, block, w);
      ExtendWords(block, w);
    }

    method FirstTemporary(s: State, kt: Word, wt: Word) returns (t1: Word)
      ensures t1 == T1(s, kt, wt)
    {
      var e, f, g, h := s.e, s.f, s.g, s.h;
      var s1 := JsXor(JsXor(JsRotr(e, 6), JsRotr(e, 11)), JsRotr(e, 25));
      var ch := JsXor(JsAnd(e, f), JsAnd(JsNot(e), g));
      Rotr3Signed(e, 6, 11, 25);
      ChSigned(e, f, g);
      Sum5(h, s1, ch, kt, wt);
      t1 := ToUint32(h + s1 + ch + kt + wt);
    }

    method SecondTemporary(s: State) returns (t2: Word)
      ensures t2 == T2(s)
    {
      var a, b, c := s.a, s.b, s.c;
      var s0 := JsXor(JsXor(JsRotr(a, 2), JsRotr(a, 13)), JsRotr(a, 22));
      var maj := JsXor(JsXor(JsAnd(a, b), JsAnd(a, c)), JsAnd(b, c));
      Rotr3Signed(a, 2, 13, 22);
      MajSigned(a, b, c);
      SumModulo(s0, maj);
      t2 := ToUint32(s0 + maj);
    }

    /** The loop body of one round, on a..h. */
    method RoundStep(s: State, kt: Word, wt: Word) returns (t: State)
      ensures t == Round(s, kt, wt)
    {
      var a, b, c, d := s.a, s.b, s.c, s.d;
      var e, f, g, h := s.e, s.f, s.g, s.h;
      var t1 := FirstTemporary(s, kt, wt);
      var t2 := SecondTemporary(s);
      h := g;
      g := f;
      f := e;
      WordSum(d, t1);
      e := ToUint32(d as int + t1);
      d := c;
      c := b;
      b := a;
      WordSum(t1, t2);
      a := ToUint32(t1 as int + t2);
      t := State(a, b, c, d, e, f, g, h);
    }

    method CompressBlock(w: array<Word>, s: State) returns (t: State)
      requires w.Length == 64 && |k| == 64
      ensures t == Sum(s, Rounds(s, w[..], |k|))
    {
      var r := s;
      for i := 0 to 64
        invariant r == Rounds(s, w[..], i)
      {
        r := RoundStep(r, k[i], w[i]);
      }
      t := AddState(s, r);
    }

    method HashBlock(padded: array<Byte>, offset: nat, ghost block: seq<Byte>, w: array<Word>, s: State)
      returns (t: State)
      requires offset + 64 <= padded.Length && w.Length == 64 && |k| == 64
      requires padded[offset..offset + 64] == block
      modifies w
      ensures t == Compress(s, block)
    {
      ExpandBlock(padded, offset, block, w);
      t := CompressBlock(w, s);
    }

    lemma HashedNext(padded: seq<Byte>, n: nat)
      requires 64 * (n + 1) <= |padded| && |k| == 64
      ensures Hashed(padded, n + 1) == Compress(Hashed(padded, n), padded[64 * n..64 * n + 64])
    {
    }

    /** The body of the loop over the padded blocks. */
    method HashNext(padded: array<Byte>, ghost bytes: seq<Byte>, n: nat, w: array<Word>, s: State) returns (t: State)
      requires |k| == 64 && w.Length == 64 && padded[..] == bytes && 64 * (n + 1) <= |bytes|
      requires s == Hashed(bytes, n)
      modifies w
      ensures t == Hashed(bytes, n + 1)
    {
      HashedNext(bytes, n);
      var offset := 64 * n;
      ghost var block := bytes[offset..offset + 64];
      assert padded[offset..offset + 64] == padded[..][offset..offset + 64];
      t := HashBlock(padded, offset, block, w, s);
    }

    method HashBlocks(padded: array<Byte>) returns (s: State)
      requires padded.Length % 64 == 0 && |k| == 64
      ensures s == Hashed(padded[..], padded.Length / 64)
    {
      s := H0;
      var w := new Word[64];
      ghost var bytes := padded[..];
      for n := 0 to padded.Length / 64
        invariant padded[..] == bytes && s == Hashed(bytes, n)
      {
        s := HashNext(padded, bytes, n, w, s);
      }
    }
  }

  // ---------- the software hash ----------

  const STANDARD: Logic := Logic(Xor, And, Or, Not, Shl, Shr, K)

  /** SHA-256 of a message, in hexadecimal. */
  function Sha(message: seq<Byte>): string {
    PaddedLength(message);
    STANDARD.HashPadded(Pad(message))
  }

  datatype Result = Ok(hex: string) | RangeError

  function Halved(x: nat, n: nat): nat { if n == 0 then x else Halved(x / 2, n - 1) }

  lemma EvenMask(x: nat, y: nat)
    ensures Bitwise(Both, x, 2 * y) == 2 * Bitwise(Both, x / 2, y)
  {
    assert 2 * y % 2 == 0 && 2 * y / 2 == y;
  }

  lemma Doubled(a: nat, b: nat)
    ensures a * (2 * b) == 2 * (a * b)
  {}

  lemma {:induction false} MaskClears(x: nat, z: nat, n: nat)
    ensures Bitwise(Both, x, z * Pow2(n)) == Bitwise(Both, Halved(x, n), z) * Pow2(n)
  {
    if n > 0 {
      var p, cleared := Pow2(n - 1), Bitwise(Both, Halved(x / 2, n - 1), z);
      calc {
        Bitwise(Both, x, z * (2 * p));
        { Doubled(z, p); }
        Bitwise(Both, x, 2 * (z * p));
        { EvenMask(x, z * p); }
        2 * Bitwise(Both, x / 2, z * p);
        { MaskClears(x / 2, z, n - 1); }
        2 * (cleared * p);
        { Doubled(cleared, p); }
        cleared * (2 * p);
      }
    }
  }

  lemma HalvedSix(x: nat)
    ensures Halved(x, 6) == x / 64
  {
    assert Halved(x, 6) == Halved(x / 2, 5) == Halved(x / 2 / 2, 4) == Halved(x / 2 / 2 / 2, 3);
    var y := x / 2 / 2 / 2;
    assert y == x / 8;
    assert Halved(y, 3) == Halved(y / 2, 2) == Halved(y / 2 / 2, 1) == y / 2 / 2 / 2;
    assert y / 2 / 2 / 2 == y / 8;
  }

  lemma MaskHigh(x: nat, k: nat, n: nat, ones: nat)
    requires Halved(x, k) < Pow2(n) && ones == Pow2(n) - 1
    ensures Bitwise(Both, x, ones * Pow2(k)) == Halved(x, k) * Pow2(k)
  {
    MaskClears(x, ones, k);
    AndOnes(Halved(x, k), n);
  }

  lemma Pow2At6()
    ensures Pow2(6) == 64
  {
  }

  /** `x & ~63` clears the low six bits. */
  lemma AndClearsLowBits(x: Word)
    ensures And(x, M - 64) == x - x % 64
  {
    HalvedSix(x);
    Pow2At6();
    Pow2At26();
    MaskHigh(x, 6, 26, 0x3FF_FFFF);
  }

  lemma AndOnes(a: nat, n: nat)
    requires a < Pow2(n)
    ensures Bitwise(Both, a, Pow2(n) - 1) == a
  {
    MaskIsRemainder(a, n);
    Remainder(a, Pow2(n), 0, a);
  }

  lemma Pow2At26()
    ensures Pow2(26) == 0x400_0000
  {
    assert Pow2(8) == 256 && Pow2(16) == 0x1_0000 && Pow2(24) == 0x100_0000;
  }

  /** What the program hashes: like Pad, but only the low 32 bits of the length are stored. */
  function JsPad(message: seq<Byte>): seq<Byte> {
    message + [0x80] + Zeros((55 - |message|) % 64) + BigEndian(8 * |message| % M, 8)
  }

  /** The program pads as FIPS 180-4 does exactly for messages shorter than 2^29
      bytes; 2^64 bits is where the standard stops defining the hash. */
  lemma PaddingIsStandardIff(message: seq<Byte>)
    requires 8 * |message| < 0x1_0000_0000_0000_0000
    ensures JsPad(message) == Pad(message) <==> |message| < 0x2000_0000
  {
    Pow256At8();
    LengthWraps(|message|);
    FieldDecides(message + [0x80] + Zeros((55 - |message|) % 64), 8 * |message| % M, 8 * |message|, 8);
  }

  lemma Pow256At8()
    ensures Pow256(8) == 0x1_0000_0000_0000_0000
  {
    assert Pow256(4) == M;
  }

  lemma LengthWraps(n: nat)
    ensures 8 * n % M == 8 * n <==> n < 0x2000_0000
  {
  }

  lemma FieldDecides(front: seq<Byte>, x: nat, y: nat, bytes: nat)
    requires x < Pow256(bytes) && y < Pow256(bytes)
    ensures front + BigEndian(x, bytes) == front + BigEndian(y, bytes) <==> x == y
  {
    if front + BigEndian(x, bytes) == front + BigEndian(y, bytes) {
      SameTail(front, BigEndian(x, bytes), BigEndian(y, bytes));
      BigEndianInjective(x, y, bytes);
    }
  }

  lemma PaddedLengthOf(n: nat)
    ensures ToUint32(STANDARD.JsAnd(n + 1 + 8 + 63, STANDARD.JsNot(63))) == ToUint32(n + 72) - ToUint32(n + 72) % 64
  {
    var x := ToUint32(n + 72);
    SignIsForgotten(M - 64);
    WordIsItself(M - 64);
    AndClearsLowBits(x);
    SignIsForgotten(x - x % 64);
    WordIsItself(x - x % 64);
  }

  /** DataView.setUint32 */
  method SetUint32(bytes: array<Byte>, offset: nat, x: Word)
    requires offset + 4 <= bytes.Length
    modifies bytes
    ensures bytes[..] == old(bytes[..offset]) + WordBytes(x) + old(bytes[offset + 4..])
  {
    bytes[offset] := x / 0x100_0000;
    bytes[offset + 1] := x / 0x1_0000 % 256;
    bytes[offset + 2] := x / 0x100 % 256;
    bytes[offset + 3] := x % 256;
    assert bytes[..offset] == old(bytes[..offset]) && bytes[offset + 4..] == old(bytes[offset + 4..]);
    assert bytes[offset..offset + 4] == WordBytes(x);
  }

  lemma WordBytesAreBigEndian(x: Word)
    ensures BigEndian(x, 4) == WordBytes(x)
  {
    assert BigEndian(x / 0x100_0000, 1) == [x / 0x100_0000];
    assert BigEndian(x / 0x1_0000, 2) == BigEndian(x / 0x1_0000 / 256, 1) + [x / 0x1_0000 % 256];
    assert BigEndian(x / 0x100, 3) == BigEndian(x / 0x100 / 256, 2) + [x / 0x100 % 256];
    assert BigEndian(x, 4) == BigEndian(x / 256, 3) + [x % 256];
  }

  lemma PaddedAssembled(p: seq<Byte>, d: seq<Byte>, zeros: nat, field: seq<Byte>)
    requires |p| == |d| + 1 + zeros + 8 && |field| == 4
    requires p[..|d| + 1] == d + [0x80] && p[|d| + 1..] == Zeros(zeros + 8)
    ensures p[..|p| - 4] + field + p[|p|..] == d + [0x80] + Zeros(zeros) + (Zeros(4) + field)
  {
    var n := |d| + 1;
    assert p[..|p| - 4] == p[..n] + p[n..|p| - 4];
    assert p[n..|p| - 4] == p[n..][..zeros + 4] == Zeros(zeros) + Zeros(4);
  }

  /** padded.set(data) on a zeroed buffer. */
  method CopyInto(data: array<Byte>, padded: array<Byte>)
    requires padded != data && data.Length <= padded.Length && padded[..] == Zeros(padded.Length)
    modifies padded
    ensures padded[..] == data[..] + Zeros(padded.Length - data.Length)
  {
    for i := 0 to data.Length
      invariant padded[..i] == data[..i] && padded[i..] == Zeros(padded.Length - i)
    {
      padded[i] := data[i];
      assert padded[..i + 1] == padded[..i] + [data[i]];
    }
    assert padded[..] == padded[..data.Length] + padded[data.Length..];
  }

  /** The message and the bit that ends it. */
  method CopyAndMark(data: array<Byte>, padded: array<Byte>)
    requires padded != data && data.Length < padded.Length && padded[..] == Zeros(padded.Length)
    modifies padded
    ensures padded[..data.Length + 1] == data[..] + [0x80]
    ensures padded[data.Length + 1..] == Zeros(padded.Length - data.Length - 1)
  {
    CopyInto(data, padded);
    padded[data.Length] := 0x80;
    assert padded[..data.Length] == data[..];
  }

  lemma FieldIsLow(x: Word)
    ensures BigEndian(x, 8) == Zeros(4) + BigEndian(x, 4)
  {
    assert Pow256(4) == M;
    BigEndianWidens(x, 4, 4);
  }

  /** The message, the end bit, zeros and the low word of the length. */
  function PadWith(d: seq<Byte>, field: seq<Byte>): seq<Byte> {
    d + [0x80] + Zeros((55 - |d|) % 64) + (Zeros(4) + field)
  }

  lemma PadWithIsJsPad(d: seq<Byte>)
    ensures PadWith(d, WordBytes(ToUint32(|d| * 8))) == JsPad(d)
  {
    FieldIsLow(ToUint32(|d| * 8));
    WordBytesAreBigEndian(ToUint32(|d| * 8));
  }

  /** Filling the padded buffer. */
  method FillPadded(data: array<Byte>, padded: array<Byte>)
    requires padded != data && padded.Length == data.Length + 9 + (55 - data.Length) % 64
    requires padded[..] == Zeros(padded.Length)
    modifies padded
    ensures padded[..] == JsPad(data[..])
  {
    var n := data.Length;
    ghost var d := data[..];
    CopyAndMark(data, padded);
    ghost var p := padded[..];
    assert p[..n + 1] == padded[..n + 1] && p[n + 1..] == padded[n + 1..];
    var field := ToUint32(n * 8);
    SetUint32(padded, padded.Length - 4, field);
    PaddedAssembled(p, d, (55 - n) % 64, WordBytes(field));
    assert padded[..] == PadWith(d, WordBytes(field));
    PadWithIsJsPad(d);
  }

  lemma PaddedLengthIs(n: nat, x: Word)
    requires x == ToUint32(n + 72) - ToUint32(n + 72) % 64
    ensures n + 72 < M ==> x == n + 9 + (55 - n) % 64
    ensures n + 72 >= M ==> x < n
  {
    if n + 72 < M {
      WordIsItself(n + 72);
      PaddingRemainder(n);
    } else {
      WrapsBelow(n);
    }
  }

  method PaddedLengthFor(n: nat) returns (length: Word)
    ensures n + 72 < M ==> length == n + 9 + (55 - n) % 64
    ensures n + 72 >= M ==> length < n
  {
    var withOne := n + 1;
    length := ToUint32(STANDARD.JsAnd(withOne + 8 + 63, STANDARD.JsNot(63)));
    PaddedLengthOf(n);
    PaddedLengthIs(n, length);
  }

  lemma WrapsBelow(n: nat)
    requires n + 72 >= M
    ensures (n + 72) % M < n
  {
    var q := (n + 72) / M;
    assert n + 72 == M * q + (n + 72) % M && q >= 1;
  }

  /** One store into the output buffer. */
  method StoreWord(out: array<Byte>, n: nat, x: Word, ghost before: seq<Byte>)
    requires 4 * n + 4 <= out.Length && out[..4 * n] == before
    modifies out
    ensures out[..4 * n + 4] == before + WordBytes(x)
  {
    SetUint32(out, 4 * n, x);
    assert out[..4 * n + 4] == out[..][..4 * n + 4];
  }

  /** The eight stores of the hash words. */
  method StoreDigest(s: State) returns (out: array<Byte>)
    ensures out[..] == Digest(s)
  {
    out := new Byte[32](_ => 0);
    StoreWord(out, 0, s.a, []);
    StoreWord(out, 1, s.b, out[..4]);
    StoreWord(out, 2, s.c, out[..8]);
    StoreWord(out, 3, s.d, out[..12]);
    StoreWord(out, 4, s.e, out[..16]);
    StoreWord(out, 5, s.f, out[..20]);
    StoreWord(out, 6, s.g, out[..24]);
    StoreWord(out, 7, s.h, out[..28]);
    assert out[..] == out[..32];
  }

  method HashHex(padded: array<Byte>) returns (hex: string)
    requires padded.Length % 64 == 0
    ensures hex == STANDARD.HashPadded(padded[..])
  {
    var s := STANDARD.HashBlocks(padded);
    var out := StoreDigest(s);
    hex := Hex(out[..]);
  }

  /** The software SHA-256.  It answers the SHA-256 of FIPS 180-4 for every
      message shorter than 2^29 bytes, and for longer ones the same hash of a
      message padded with a truncated length, up to the size whose padded length
      wraps around and makes the buffer too small. */
  method Sha256HexSync(data: array<Byte>) returns (r: Result)
    ensures r.RangeError? <==> data.Length + 72 >= M
    ensures r.Ok? ==> |JsPad(data[..])| % 64 == 0 && r.hex == STANDARD.HashPadded(JsPad(data[..]))
    ensures data.Length < 0x2000_0000 ==> r == Ok(Sha(data[..]))
  {
    var paddedLen := PaddedLengthFor(data.Length);
    if data.Length > paddedLen { return RangeError; }
    ghost var d := data[..];
    var padded := PaddedCopy(data, paddedLen);
    PaddedLength(d);
    var hex := HashHex(padded);
    if data.Length < 0x2000_0000 { PaddingIsStandardIff(d); }
    r := Ok(hex);
  }

  /** The new buffer, filled. */
  method PaddedCopy(data: array<Byte>, length: nat) returns (padded: array<Byte>)
    requires length == data.Length + 9 + (55 - data.Length) % 64
    ensures padded.Length == length && padded[..] == JsPad(data[..])
  {
    padded := new Byte[length](_ => 0);
    assert padded[..] == Zeros(length);
    FillPadded(data, padded);
  }
}
