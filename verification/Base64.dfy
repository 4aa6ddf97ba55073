/** The hand-written Base64 encoder against the decoding of section 4 of RFC 4648. */
module Base64 {
  import opened Wrappers
  import opened Bytes
  import opened Collections
  import opened Bits

  const UPPER: string := "ABCDEFGHIJKLMNOPQRSTUVWXYZ"
  const LOWER: string := "abcdefghijklmnopqrstuvwxyz"
  const REST: string := "0123456789+/"
  const T: string := UPPER + LOWER + REST

  // ---------- the standard ----------

  /** Table 1 of RFC 4648, read backwards. */
  function Value(c: char): Option<nat> {
    if 'A' <= c <= 'Z' then Some(c as int - 65)
    else if 'a' <= c <= 'z' then Some(c as int - 71)
    else if '0' <= c <= '9' then Some(c as int + 4)
    else if c == '+' then Some(62)
    else if c == '/' then Some(63)
    else None
  }

  /** Four 6-bit groups, concatenated. */
  function Group(s0: nat, s1: nat, s2: nat, s3: nat): nat { ((s0 * 64 + s1) * 64 + s2) * 64 + s3 }

  /** The three octets of a 24-bit group. */
  function Octets(v: nat): seq<Byte>
    requires v < 0x100_0000
  {
    [v / 0x1_0000, v / 0x100 % 0x100, v % 0x100]
  }

  /** Quanta of four characters; only the last may be padded, and the bits that
      padding leaves over are zero. */
  function Decode(s: string): Option<seq<Byte>>
    decreases |s|
  {
    if s == "" then Some([])
    else if |s| < 4 || Value(s[0]).None? || Value(s[1]).None? then None
    else if s[2] == '=' then
      var v := Group(Value(s[0]).value, Value(s[1]).value, 0, 0);
      if |s| == 4 && s[3] == '=' && v % 0x1_0000 == 0 then Some(Octets(v)[..1]) else None
    else if Value(s[2]).None? then None
    else if s[3] == '=' then
      var v := Group(Value(s[0]).value, Value(s[1]).value, Value(s[2]).value, 0);
      if |s| == 4 && v % 0x100 == 0 then Some(Octets(v)[..2]) else None
    else if Value(s[3]).None? then None
    else match Decode(s[4..])
      case None => None
      case Some(rest) => Some(Octets(Group(Value(s[0]).value, Value(s[1]).value, Value(s[2]).value, Value(s[3]).value))
                              + rest)
  }

  /** Table 1 of RFC 4648. */
  function Symbol(n: nat): (c: char)
    requires n < 64
    ensures Value(c) == Some(n) && c != '='
  {
    if n < 26 then (n + 65) as char
    else if n < 52 then (n + 71) as char
    else if n < 62 then (n - 4) as char
    else if n == 62 then '+' else '/'
  }

  // ---------- the encoder's table ----------

  lemma UpperAt(n: nat)
    requires n < 26
    ensures UPPER[n] as int == n + 65
  {
  }

  lemma LowerAt(n: nat)
    requires n < 26
    ensures LOWER[n] as int == n + 97
  {
  }

  lemma RestAt(n: nat)
    requires n < 12
    ensures REST[n] == Symbol(n + 52)
  {
  }

  /** The program's table is the standard one. */
  lemma TableIsStandard(n: nat)
    requires n < 64
    ensures T[n] == Symbol(n)
  {
    if n < 26 { UpperAt(n); } else if n < 52 { LowerAt(n - 26); } else { RestAt(n - 52); }
  }

  method Lookup(n: nat) returns (c: char)
    requires n < 64
    ensures c == Symbol(n)
  {
    TableIsStandard(n);
    c := T[n];
  }

  // ---------- the encoder ----------

  /** The four 6-bit groups of three octets. */
  function First(b0: Byte): (n: nat)
    ensures n < 64
  {
    b0 / 4
  }

  function Second(b0: Byte, b1: Byte): (n: nat)
    ensures n < 64
  {
    b0 % 4 * 16 + b1 / 16
  }

  function Third(b1: Byte, b2: Byte): (n: nat)
    ensures n < 64
  {
    b1 % 16 * 4 + b2 / 64
  }

  function Fourth(b2: Byte): (n: nat)
    ensures n < 64
  {
    b2 % 64
  }

  /** The four characters of up to three octets. */
  function Quantum(b: seq<Byte>): (s: string)
    requires 1 <= |b| <= 3
    ensures |s| == 4
  {
    var b1: Byte, b2: Byte := if |b| > 1 then b[1] else 0, if |b| > 2 then b[2] else 0;
    [Symbol(First(b[0])), Symbol(Second(b[0], b1)),
     if |b| > 1 then Symbol(Third(b1, b2)) else '=', if |b| > 2 then Symbol(Fourth(b2)) else '=']
  }

  function Head(bytes: seq<Byte>): seq<Byte> { if |bytes| <= 3 then bytes else bytes[..3] }
  function Tail(bytes: seq<Byte>): (rest: seq<Byte>)
    ensures bytes != [] ==> |rest| < |bytes|
  {
    if |bytes| <= 3 then [] else bytes[3..]
  }

  function Encode(bytes: seq<Byte>): string
    decreases |bytes|
  {
    if bytes == [] then "" else Quantum(Head(bytes)) + Encode(Tail(bytes))
  }

  function And(a: nat, b: nat): nat { Bitwise(Both, a, b) }
  function Or(a: nat, b: nat): nat { Bitwise(Either, a, b) }

  /** The shifts and masks of the loop give the 6-bit groups. */
  lemma SecondSextet(b0: Byte, b1: Byte)
    ensures Or(And(b0, 3) * 16, b1 / 16) == Second(b0, b1)
  {
    assert Pow2(1) == 2 && Pow2(2) == 4 && Pow2(3) == 8 && Pow2(4) == 16;
    MaskIsRemainder(b0, 2);
    OrIsSum(b0 % 4, b1 / 16, 4);
  }

  lemma ThirdSextet(b1: Byte, b2: Byte)
    ensures Or(And(b1, 15) * 4, b2 / 64) == Third(b1, b2)
  {
    assert Pow2(1) == 2 && Pow2(2) == 4 && Pow2(3) == 8 && Pow2(4) == 16;
    MaskIsRemainder(b1, 4);
    OrIsSum(b1 % 16, b2 / 64, 2);
  }

  lemma FourthSextet(b2: Byte)
    ensures And(b2, 63) == Fourth(b2)
  {
    assert Pow2(3) == 8 && Pow2(6) == 64;
    MaskIsRemainder(b2, 6);
  }

  method Sextets(b0: Byte, b1: Byte, b2: Byte) returns (s0: nat, s1: nat, s2: nat, s3: nat)
    ensures s0 == First(b0) && s1 == Second(b0, b1) && s2 == Third(b1, b2) && s3 == Fourth(b2)
  {
    s0 := b0 / 4;
    s1 := Or(And(b0, 3) * 16, b1 / 16);
    s2 := Or(And(b1, 15) * 4, b2 / 64);
    s3 := And(b2, 63);
    SecondSextet(b0, b1);
    ThirdSextet(b1, b2);
    FourthSextet(b2);
  }

  /** The characters pushed for the octets at `i`. */
  method PushQuantum(bytes: seq<Byte>, i: nat) returns (out: string)
    requires i < |bytes|
    ensures out == Quantum(Head(bytes[i..]))
  {
    var b0: Byte := bytes[i];
    var b1: Byte := if i + 1 < |bytes| then bytes[i + 1] else 0;
    var b2: Byte := if i + 2 < |bytes| then bytes[i + 2] else 0;
    var s0, s1, s2, s3 := Sextets(b0, b1, b2);
    var c0 := Lookup(s0);
    var c1 := Lookup(s1);
    var c2, c3 := '=', '=';
    if i + 1 < |bytes| { c2 := Lookup(s2); }
    if i + 2 < |bytes| { c3 := Lookup(s3); }
    out := [c0, c1, c2, c3];
  }

  /** data_encoding_base64 */
  method EncodeBytes(bytes: seq<Byte>) returns (out: string)
    ensures out == Encode(bytes)
  {
    out := "";
    var i := 0;
    ghost var left := bytes;
    while i < |bytes|
      invariant left == if i <= |bytes| then bytes[i..] else []
      invariant out + Encode(left) == Encode(bytes)
      decreases |bytes| - i
    {
      var quantum := PushQuantum(bytes, i);
      Regroup(out, quantum, Encode(Tail(left)));
      out := out + quantum;
      i := i + 3;
      left := Tail(left);
    }
    assert out + "" == out;
  }

  // ---------- what it computes ----------

  function Padding(n: nat): nat { (3 - n % 3) % 3 }

  predicate CharOk(s: string, i: nat, padding: nat)
    requires i < |s|
  {
    if i + padding < |s| then Value(s[i]).Some? else s[i] == '='
  }

  /** All of the alphabet except the padding at the very end. */
  ghost predicate Padded(s: string, padding: nat) { forall i :: 0 <= i < |s| ==> CharOk(s, i, padding) }

  lemma PaddedCons(a: string, b: string, padding: nat)
    requires Padded(a, 0) && Padded(b, padding) && padding <= |b|
    ensures Padded(a + b, padding)
  {
    forall i | 0 <= i < |a + b| ensures CharOk(a + b, i, padding) {
      if i < |a| { assert CharOk(a, i, 0); } else { assert CharOk(b, i - |a|, padding); }
    }
  }

  lemma ThreeMore(n: nat)
    requires n > 3
    ensures Padding(n) == Padding(n - 3) <= 2 && 4 * ((n + 2) / 3) == 4 + 4 * ((n - 1) / 3)
  {
  }

  lemma LastQuantum(n: nat)
    requires 1 <= n <= 3
    ensures Padding(n) == 3 - n && 4 * ((n + 2) / 3) == 4
  {
  }

  /** Four characters for every three octets begun. */
  lemma {:induction false} EncodeShape(bytes: seq<Byte>)
    ensures |Encode(bytes)| == 4 * ((|bytes| + 2) / 3) && Padded(Encode(bytes), Padding(|bytes|))
    decreases |bytes|
  {
    if |bytes| > 3 {
      var head, rest := Quantum(Head(bytes)), Encode(Tail(bytes));
      QuantumShape(Head(bytes));
      EncodeShape(Tail(bytes));
      ThreeMore(|bytes|);
      PaddedCons(head, rest, Padding(|bytes|));
    } else if bytes != [] {
      QuantumShape(bytes);
      LastQuantum(|bytes|);
      assert Encode(bytes) == Quantum(bytes) + "" == Quantum(bytes);
    }
  }

  lemma QuantumShape(b: seq<Byte>)
    requires 1 <= |b| <= 3
    ensures Padded(Quantum(b), 3 - |b|)
  {
  }

  lemma OctetsOf(b0: Byte, b1: Byte, b2: Byte)
    ensures b0 * 0x1_0000 + b1 * 0x100 + b2 < 0x100_0000 && Octets(b0 * 0x1_0000 + b1 * 0x100 + b2) == [b0, b1, b2]
    ensures (b0 * 0x1_0000 + b1 * 0x100 + b2) % 0x100 == b2
            && (b0 * 0x1_0000 + b1 * 0x100 + b2) % 0x1_0000 == b1 * 0x100 + b2
  {
    var v := b0 * 0x1_0000 + b1 * 0x100 + b2;
    assert v / 0x1_0000 == b0;
    assert v / 0x100 == b0 * 0x100 + b1;
    assert (b0 * 0x100 + b1) % 0x100 == b1;
    assert v % 0x100 == b2;
  }

  /** The 6-bit groups, concatenated, are the octets, concatenated. */
  lemma Concatenated(b0: Byte, b1: Byte, b2: Byte)
    ensures Group(First(b0), Second(b0, b1), Third(b1, b2), Fourth(b2)) == b0 * 0x1_0000 + b1 * 0x100 + b2
  {
    var h0, l0, h1, l1, h2, l2 := b0 / 4, b0 % 4, b1 / 16, b1 % 16, b2 / 64, b2 % 64;
    assert b0 == 4 * h0 + l0 && b1 == 16 * h1 + l1 && b2 == 64 * h2 + l2;
  }

  lemma DecodesOne(s: string, s0: nat, s1: nat, b0: Byte)
    requires |s| == 4 && Value(s[0]) == Some(s0) && Value(s[1]) == Some(s1) && s[2] == '=' && s[3] == '='
    requires Group(s0, s1, 0, 0) == b0 * 0x1_0000 + 0 * 0x100 + 0
    ensures Decode(s) == Some([b0])
  {
    OctetsOf(b0, 0, 0);
    assert [b0, 0, 0][..1] == [b0];
  }

  lemma DecodesTwo(s: string, s0: nat, s1: nat, s2: nat, b0: Byte, b1: Byte)
    requires |s| == 4 && Value(s[0]) == Some(s0) && Value(s[1]) == Some(s1) && Value(s[2]) == Some(s2)
    requires s[2] != '=' && s[3] == '=' && Group(s0, s1, s2, 0) == b0 * 0x1_0000 + b1 * 0x100 + 0
    ensures Decode(s) == Some([b0, b1])
  {
    OctetsOf(b0, b1, 0);
    assert [b0, b1, 0][..2] == [b0, b1];
  }

  lemma DecodesThree(s: string, s0: nat, s1: nat, s2: nat, s3: nat, b0: Byte, b1: Byte, b2: Byte)
    requires |s| >= 4 && Value(s[0]) == Some(s0) && Value(s[1]) == Some(s1) && Value(s[2]) == Some(s2)
             && Value(s[3]) == Some(s3)
    requires s[2] != '=' && s[3] != '=' && Group(s0, s1, s2, s3) == b0 * 0x1_0000 + b1 * 0x100 + b2
    requires Decode(s[4..]).Some?
    ensures Decode(s) == Some([b0, b1, b2] + Decode(s[4..]).value)
  {
    OctetsOf(b0, b1, b2);
  }

  lemma OneOctet(b: Byte)
    ensures Decode(Quantum([b])) == Some([b])
  {
    Concatenated(b, 0, 0);
    DecodesOne(Quantum([b]), First(b), Second(b, 0), b);
  }

  lemma TwoOctets(b0: Byte, b1: Byte)
    ensures Decode(Quantum([b0, b1])) == Some([b0, b1])
  {
    Concatenated(b0, b1, 0);
    DecodesTwo(Quantum([b0, b1]), First(b0), Second(b0, b1), Third(b1, 0), b0, b1);
  }

  lemma ThreeOctets(b0: Byte, b1: Byte, b2: Byte, rest: string)
    requires Decode(rest).Some?
    ensures Decode(Quantum([b0, b1, b2]) + rest) == Some([b0, b1, b2] + Decode(rest).value)
  {
    var s0, s1, s2, s3 := First(b0), Second(b0, b1), Third(b1, b2), Fourth(b2);
    var s := Quantum([b0, b1, b2]) + rest;
    assert s[0] == Symbol(s0) && s[1] == Symbol(s1) && s[2] == Symbol(s2) && s[3] == Symbol(s3) && s[4..] == rest;
    Concatenated(b0, b1, b2);
    DecodesThree(s, s0, s1, s2, s3, b0, b1, b2);
  }

  lemma QuantumDecodes(b: seq<Byte>, rest: string)
    requires 1 <= |b| <= 3 && (|b| < 3 ==> rest == "") && Decode(rest).Some?
    ensures Decode(Quantum(b) + rest) == Some(b + Decode(rest).value)
  {
    if |b| == 3 {
      assert b == [b[0], b[1], b[2]];
      ThreeOctets(b[0], b[1], b[2], rest);
    } else {
      assert Quantum(b) + rest == Quantum(b) && b + [] == b;
      if |b| == 1 {
        assert b == [b[0]];
        OneOctet(b[0]);
      } else {
        assert b == [b[0], b[1]];
        TwoOctets(b[0], b[1]);
      }
    }
  }

  /** Decoding the encoder's output gives every byte string back. */
  lemma {:induction false} DecodesBack(bytes: seq<Byte>)
    ensures Decode(Encode(bytes)) == Some(bytes)
    decreases |bytes|
  {
    if bytes != [] {
      DecodesBack(Tail(bytes));
      QuantumDecodes(Head(bytes), Encode(Tail(bytes)));
      assert Head(bytes) + Tail(bytes) == bytes;
    }
  }

  /** The test vectors of section 10 of RFC 4648, and the ends of its table. */
  lemma KnownVectors()
    ensures Decode("") == Some([]) && Decode("Zg==") == Some([102]) && Decode("Zm8=") == Some([102, 111])
    ensures Decode("Zm9v") == Some([102, 111, 111]) && Decode("Zm9vYg==") == Some([102, 111, 111, 98])
    ensures Value('A') == Some(0) && Value('Z') == Some(25) && Value('a') == Some(26) && Value('z') == Some(51)
    ensures Value('0') == Some(52) && Value('9') == Some(61) && Value('+') == Some(62) && Value('/') == Some(63)
  {
    assert Octets(Group(25, 32, 0, 0))[..1] == [102];
    assert Octets(Group(25, 38, 60, 0))[..2] == [102, 111];
    assert Octets(Group(25, 38, 61, 47)) == [102, 111, 111] == [102, 111, 111] + [];
    assert Octets(Group(24, 32, 0, 0))[..1] == [98];
    assert Value('Z') == Some(25) && Value('g') == Some(32) && Value('m') == Some(38) && Value('8') == Some(60);
    assert Value('9') == Some(61) && Value('v') == Some(47) && Value('Y') == Some(24);
    assert [102, 111, 111] + [98] == [102, 111, 111, 98];
    assert "Zm9vYg=="[4..] == "Yg==" && Decode("Yg==") == Some([98]);
    assert "Zm9v"[4..] == "" && Decode("Zm9v") == Some([102, 111, 111]);
  }
}
