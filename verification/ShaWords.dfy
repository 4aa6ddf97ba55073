/** The 32-bit operators of SHA-256 bit by bit (section 2.2.2 of FIPS 180-4), and the
    bytes and digits of words. */
module ShaWords {
  import opened Wrappers
  import opened Bytes
  import opened Bits
  import opened Sha256

  // ---------- operators ----------

  lemma XorBits(a: Word, b: Word, i: nat)
    ensures BitAt(STANDARD.xor(a, b), i) == (BitAt(a, i) != BitAt(b, i))
  {
    BitOfBitwise(Differ, a, b, i);
  }

  lemma AndBits(a: Word, b: Word, i: nat)
    ensures BitAt(STANDARD.and(a, b), i) == (BitAt(a, i) && BitAt(b, i))
  {
    BitOfBitwise(Both, a, b, i);
  }

  lemma OrBits(a: Word, b: Word, i: nat)
    ensures BitAt(STANDARD.or(a, b), i) == (BitAt(a, i) || BitAt(b, i))
  {
    BitOfBitwise(Either, a, b, i);
  }

  lemma NotBits(a: Word, i: nat)
    requires i < 32
    ensures BitAt(STANDARD.not(a), i) == !BitAt(a, i)
  {
    Pow2At32();
    BitOfComplement(a, 32, i);
  }

  lemma ShrBits(a: Word, n: nat, i: nat)
    ensures BitAt(STANDARD.shr(a, n), i) == BitAt(a, i + n)
  {
    BitOfQuotient(a, n, i);
  }

  lemma ShlBits(a: Word, n: nat, i: nat)
    requires i < 32
    ensures BitAt(STANDARD.shl(a, n), i) == (i >= n && BitAt(a, i - n))
  {
    Pow2At32();
    BitOfProduct(a, n, i);
    BitOfRemainder(a * Pow2(n), 32, i);
  }

  lemma RotatedBit(a: Word, n: nat, i: nat)
    requires 0 < n < 32 && i < 32
    ensures BitAt(STANDARD.Rotr(a, n), i) == (BitAt(a, i + n) || (i + n >= 32 && BitAt(a, i + n - 32)))
  {
    OrBits(STANDARD.shr(a, n), STANDARD.shl(a, 32 - n), i);
    ShrBits(a, n, i);
    ShlBits(a, 32 - n, i);
  }

  lemma BitWraps(a: Word, k: nat)
    requires k < 64
    ensures (BitAt(a, k) || (k >= 32 && BitAt(a, k - 32))) == BitAt(a, k % 32)
  {
    if k >= 32 {
      Pow2At32();
      BitAbove(a, 32, k);
      assert k % 32 == k - 32;
    } else {
      assert k % 32 == k;
    }
  }

  /** Rotation moves every bit `n` places down and around. */
  lemma RotrBits(a: Word, n: nat, i: nat)
    requires 0 < n < 32 && i < 32
    ensures BitAt(STANDARD.Rotr(a, n), i) == BitAt(a, (i + n) % 32)
  {
    RotatedBit(a, n, i);
    BitWraps(a, i + n);
  }

  /** Ch chooses between its last two words by its first (section 4.1.2). */
  lemma ChBits(x: Word, y: Word, z: Word, i: nat)
    requires i < 32
    ensures BitAt(STANDARD.Ch(x, y, z), i) == if BitAt(x, i) then BitAt(y, i) else BitAt(z, i)
  {
    XorBits(STANDARD.and(x, y), STANDARD.and(STANDARD.not(x), z), i);
    AndBits(x, y, i);
    AndBits(STANDARD.not(x), z, i);
    NotBits(x, i);
  }

  /** Maj is the majority of its words. */
  lemma MajBits(x: Word, y: Word, z: Word, i: nat)
    ensures BitAt(STANDARD.Maj(x, y, z), i) <==>
            (BitAt(x, i) && BitAt(y, i)) || (BitAt(x, i) && BitAt(z, i)) || (BitAt(y, i) && BitAt(z, i))
  {
    XorBits(STANDARD.xor(STANDARD.and(x, y), STANDARD.and(x, z)), STANDARD.and(y, z), i);
    XorBits(STANDARD.and(x, y), STANDARD.and(x, z), i);
    AndBits(x, y, i);
    AndBits(x, z, i);
    AndBits(y, z, i);
  }

  lemma Xor3Bits(a: Word, b: Word, c: Word, i: nat)
    ensures BitAt(STANDARD.xor(STANDARD.xor(a, b), c), i) == (BitAt(a, i) != (BitAt(b, i) != BitAt(c, i)))
  {
    XorBits(a, b, i);
    XorBits(STANDARD.xor(a, b), c, i);
  }

  /** The sums of equations 4.4 to 4.7, bit by bit. */
  lemma BigSigma0Bits(x: Word, i: nat)
    requires i < 32
    ensures BitAt(STANDARD.BigSigma0(x), i) ==
            (BitAt(x, (i + 2) % 32) != (BitAt(x, (i + 13) % 32) != BitAt(x, (i + 22) % 32)))
  {
    RotationBits(x, 2, 13, 22, i);
  }

  lemma BigSigma1Bits(x: Word, i: nat)
    requires i < 32
    ensures BitAt(STANDARD.BigSigma1(x), i) ==
            (BitAt(x, (i + 6) % 32) != (BitAt(x, (i + 11) % 32) != BitAt(x, (i + 25) % 32)))
  {
    RotationBits(x, 6, 11, 25, i);
  }

  lemma SmallSigma0Bits(x: Word, i: nat)
    requires i < 32
    ensures BitAt(STANDARD.SmallSigma0(x), i) ==
            (BitAt(x, (i + 7) % 32) != (BitAt(x, (i + 18) % 32) != BitAt(x, i + 3)))
  {
    ShiftBits(x, 7, 18, 3, i);
  }

  lemma SmallSigma1Bits(x: Word, i: nat)
    requires i < 32
    ensures BitAt(STANDARD.SmallSigma1(x), i) ==
            (BitAt(x, (i + 17) % 32) != (BitAt(x, (i + 19) % 32) != BitAt(x, i + 10)))
  {
    ShiftBits(x, 17, 19, 10, i);
  }

  lemma RotationBits(x: Word, n: nat, m: nat, k: nat, i: nat)
    requires 0 < n < 32 && 0 < m < 32 && 0 < k < 32 && i < 32
    ensures BitAt(STANDARD.xor(STANDARD.xor(STANDARD.Rotr(x, n), STANDARD.Rotr(x, m)), STANDARD.Rotr(x, k)), i) ==
            (BitAt(x, (i + n) % 32) != (BitAt(x, (i + m) % 32) != BitAt(x, (i + k) % 32)))
  {
    Xor3Bits(STANDARD.Rotr(x, n), STANDARD.Rotr(x, m), STANDARD.Rotr(x, k), i);
    RotrBits(x, n, i);
    RotrBits(x, m, i);
    RotrBits(x, k, i);
  }

  lemma ShiftBits(x: Word, n: nat, m: nat, k: nat, i: nat)
    requires 0 < n < 32 && 0 < m < 32 && i < 32
    ensures BitAt(STANDARD.xor(STANDARD.xor(STANDARD.Rotr(x, n), STANDARD.Rotr(x, m)), STANDARD.shr(x, k)), i) ==
            (BitAt(x, (i + n) % 32) != (BitAt(x, (i + m) % 32) != BitAt(x, i + k)))
  {
    Xor3Bits(STANDARD.Rotr(x, n), STANDARD.Rotr(x, m), STANDARD.shr(x, k), i);
    RotrBits(x, n, i);
    RotrBits(x, m, i);
    ShrBits(x, k, i);
  }

  // ---------- bytes and digits ----------

  /** Reading a word and writing it gives the bytes back: both are big-endian. */
  lemma WordRoundTrip(bytes: seq<Byte>, i: nat)
    requires i + 4 <= |bytes|
    ensures WordBytes(WordAt(bytes, i)) == bytes[i..i + 4]
  {
    var b0, b1, b2, b3 := bytes[i] as int, bytes[i + 1] as int, bytes[i + 2] as int, bytes[i + 3] as int;
    var x := b0 * 0x100_0000 + b1 * 0x1_0000 + b2 * 0x100 + b3;
    Digits256(b0, b1, b2, b3);
    assert WordAt(bytes, i) == x;
    assert bytes[i..i + 4] == [b0, b1, b2, b3];
  }

  lemma Digits256(b0: Byte, b1: Byte, b2: Byte, b3: Byte)
    ensures var x := b0 * 0x100_0000 + b1 * 0x1_0000 + b2 * 0x100 + b3;
            x / 0x100_0000 == b0 && x / 0x1_0000 % 256 == b1 && x / 0x100 % 256 == b2 && x % 256 == b3
  {
    var x := b0 * 0x100_0000 + b1 * 0x1_0000 + b2 * 0x100 + b3;
    assert x / 0x100_0000 == b0;
    assert x / 0x1_0000 == b0 * 256 + b1;
    assert x / 0x100 == (b0 * 256 + b1) * 256 + b2;
  }

  /** The value of a lower-case hexadecimal digit. */
  function DigitValue(c: char): Option<nat> {
    if '0' <= c <= '9' then Some(c as int - 48) else if 'a' <= c <= 'f' then Some(c as int - 87) else None
  }

  function Unhex(s: string): Option<seq<Byte>> {
    if s == "" then Some([])
    else if |s| < 2 || DigitValue(s[0]).None? || DigitValue(s[1]).None? then None
    else match Unhex(s[2..])
      case None => None
      case Some(rest) => Some([16 * DigitValue(s[0]).value + DigitValue(s[1]).value] + rest)
  }

  lemma HexDigit(n: nat)
    requires n < 16
    ensures DigitValue(HEX[n]) == Some(n)
  {
  }

  lemma UnhexPair(c: char, d: char, digits: string, b: Byte, rest: seq<Byte>)
    requires DigitValue(c) == Some(b / 16) && DigitValue(d) == Some(b % 16) && Unhex(digits) == Some(rest)
    ensures Unhex([c, d] + digits) == Some([b] + rest)
  {
    assert ([c, d] + digits)[2..] == digits;
  }

  /** The hexadecimal text of a digest reads back as its bytes. */
  lemma {:induction false} HexRoundTrip(bytes: seq<Byte>)
    ensures |Hex(bytes)| == 2 * |bytes| && Unhex(Hex(bytes)) == Some(bytes)
  {
    if bytes != [] {
      HexRoundTrip(bytes[1..]);
      HexDigit(bytes[0] / 16);
      HexDigit(bytes[0] % 16);
      UnhexPair(HEX[bytes[0] / 16], HEX[bytes[0] % 16], Hex(bytes[1..]), bytes[0], bytes[1..]);
      assert bytes == [bytes[0]] + bytes[1..];
    }
  }

  // ---------- schedule and rounds as sums ----------

  lemma Sum4Words(a: Word, b: Word, c: Word, d: Word)
    ensures Add(Add(Add(a, b), c), d) == (a as int + b + c + d) % 0x1_0000_0000
  {
  }

  lemma AddModulo(a: nat, b: nat)
    ensures Add(a % 0x1_0000_0000, b % 0x1_0000_0000) == (a + b) % 0x1_0000_0000
  {
  }

  lemma Sum2Words(a: Word, b: Word)
    ensures Add(a, b) == (a as int + b) % 0x1_0000_0000
  {
  }

  lemma WordModulo(a: Word)
    ensures a % 0x1_0000_0000 == a
  {
  }

  lemma AddsUp(t: Word, u: Word, a: nat, b: nat)
    requires t == a % 0x1_0000_0000 && u == b % 0x1_0000_0000
    ensures Add(t, u) == (a + b) % 0x1_0000_0000
  {
    AddModulo(a, b);
  }

  lemma Sum5Words(a: Word, b: Word, c: Word, d: Word, e: Word)
    ensures Add(Add(Add(Add(a, b), c), d), e) == (a as int + b + c + d + e) % 0x1_0000_0000
  {
    Sum4Words(a, b, c, d);
    AddModulo(a as int + b + c + d, e);
  }

  lemma FirstAdds(h: Word, sigma1: Word, ch: Word, kt: Word, wt: Word, sigma0: Word, maj: Word)
    ensures Add(Add(Add(Add(Add(h, sigma1), ch), kt), wt), Add(sigma0, maj)) ==
            (h as int + sigma1 + ch + kt + wt + (sigma0 as int + maj)) % 0x1_0000_0000
  {
    Sum5Words(h, sigma1, ch, kt, wt);
    Sum2Words(sigma0, maj);
    AddsUp(Add(Add(Add(Add(h, sigma1), ch), kt), wt), Add(sigma0, maj), h as int + sigma1 + ch + kt + wt,
           sigma0 as int + maj);
  }

  lemma FifthAdds(d: Word, h: Word, sigma1: Word, ch: Word, kt: Word, wt: Word)
    ensures Add(d, Add(Add(Add(Add(h, sigma1), ch), kt), wt)) ==
            (d as int + (h as int + sigma1 + ch + kt + wt)) % 0x1_0000_0000
  {
    WordModulo(d);
    Sum5Words(h, sigma1, ch, kt, wt);
    AddsUp(d, Add(Add(Add(Add(h, sigma1), ch), kt), wt), d, h as int + sigma1 + ch + kt + wt);
  }

  /** `r` follows `s` by one round of section 6.2.2, each sum taken once modulo 2^32. */
  ghost predicate Follows(r: State, s: State, sigma1: Word, ch: Word, kt: Word, wt: Word, sigma0: Word, maj: Word) {
    var t1 := s.h as int + sigma1 + ch + kt + wt;
    && r.a == (t1 + (sigma0 as int + maj)) % 0x1_0000_0000 && r.e == (s.d + t1) % 0x1_0000_0000
    && r.b == s.a && r.c == s.b && r.d == s.c && r.f == s.e && r.g == s.f && r.h == s.g
  }

  lemma RoundAdds(s: State, sigma1: Word, ch: Word, kt: Word, wt: Word, sigma0: Word, maj: Word)
    ensures var t1 := Add(Add(Add(Add(s.h, sigma1), ch), kt), wt);
            Follows(State(Add(t1, Add(sigma0, maj)), s.a, s.b, s.c, Add(s.d, t1), s.e, s.f, s.g),
                    s, sigma1, ch, kt, wt, sigma0, maj)
  {
    FirstAdds(s.h, sigma1, ch, kt, wt, sigma0, maj);
    FifthAdds(s.d, s.h, sigma1, ch, kt, wt);
  }

  /** Every round is one of the standard. */
  lemma RoundSums(l: Logic, s: State, kt: Word, wt: Word)
    ensures Follows(l.Round(s, kt, wt), s, l.BigSigma1(s.e), l.Ch(s.e, s.f, s.g), kt, wt, l.BigSigma0(s.a),
                    l.Maj(s.a, s.b, s.c))
  {
    RoundAdds(s, l.BigSigma1(s.e), l.Ch(s.e, s.f, s.g), kt, wt, l.BigSigma0(s.a), l.Maj(s.a, s.b, s.c));
  }

  lemma {:induction false} SchedulePrefix(l: Logic, block: seq<Byte>, n: nat, m: nat)
    requires |block| == 64 && n <= m <= 64
    ensures l.Schedule(block, n) == l.Schedule(block, m)[..n]
  {
    if n < m { SchedulePrefix(l, block, n, m - 1); }
  }

  /** The first 16 words of the schedule are the bytes of the block. */
  lemma ScheduleStarts(l: Logic, block: seq<Byte>, t: nat)
    requires |block| == 64 && t < 16
    ensures WordBytes(l.Schedule(block, 64)[t]) == block[4 * t..4 * t + 4]
  {
    SchedulePrefix(l, block, t + 1, 64);
    assert l.Schedule(block, 64)[t] == l.Schedule(block, t + 1)[t];
    WordRoundTrip(block, 4 * t);
  }

  /** The others follow the recurrence, its sum taken once. */
  lemma ScheduleRecurs(l: Logic, block: seq<Byte>, t: nat)
    requires |block| == 64 && 16 <= t < 64
    ensures var w := l.Schedule(block, 64);
            w[t] == (l.SmallSigma1(w[t - 2]) as int + w[t - 7] + l.SmallSigma0(w[t - 15]) + w[t - 16]) % 0x1_0000_0000
  {
    var w, p := l.Schedule(block, 64), l.Schedule(block, t);
    SchedulePrefix(l, block, t, 64);
    SchedulePrefix(l, block, t + 1, 64);
    assert w[t] == l.Schedule(block, t + 1)[t];
    assert p[t - 2] == w[t - 2] && p[t - 7] == w[t - 7] && p[t - 15] == w[t - 15] && p[t - 16] == w[t - 16];
    Sum4Words(l.SmallSigma1(w[t - 2]), w[t - 7], l.SmallSigma0(w[t - 15]), w[t - 16]);
  }

  // ---------- the padding ----------

  /** The padded message of section 5.1.1: the message, a one bit, zero bits, and its
      length in bits as a 64-bit number, in the fewest blocks. */
  lemma PadLayout(message: seq<Byte>)
    requires |message| < 0x2000_0000_0000_0000
    ensures var p := Pad(message);
            && |p| % 64 == 0 && |message| + 9 <= |p| < |message| + 73
            && p[..|message|] == message && p[|message|] == 128
            && (forall i :: |message| < i < |p| - 8 ==> p[i] == 0)
            && Number(p[|p| - 8..]) == 8 * |message|
  {
    LengthField(message);
    PadParts(message, BigEndian(8 * |message|, 8));
  }

  lemma LengthField(message: seq<Byte>)
    requires |message| < 0x2000_0000_0000_0000
    ensures Number(BigEndian(8 * |message|, 8)) == 8 * |message|
  {
    assert Pow256(8) == 0x1_0000_0000_0000_0000;
    NumberOfBigEndian(8 * |message|, 8);
  }

  lemma PadParts(message: seq<Byte>, length: seq<Byte>)
    requires |length| == 8
    ensures var p := message + [0x80] + Zeros((55 - |message|) % 64) + length;
            && |p| % 64 == 0 && |message| + 9 <= |p| < |message| + 73
            && p[..|message|] == message && p[|message|] == 128
            && (forall i :: |message| < i < |p| - 8 ==> p[i] == 0) && p[|p| - 8..] == length
  {
  }
}
