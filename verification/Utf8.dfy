/** UTF-8 (section 3 of RFC 3629), and why working on its bytes is working on its
    characters: boundaries are found at single bytes, and one text stands inside
    another only at character boundaries. */
module Utf8 {
  import opened Bytes
  import opened Rendered

  /** A Unicode scalar value. */
  type Scalar = x: int | 0 <= x < 0xD800 || 0xE000 <= x < 0x11_0000

  function Encode(c: Scalar): (s: Text)
    ensures 1 <= |s| <= 4
  {
    if c < 0x80 then [c]
    else if c < 0x800 then [0xC0 + c / 0x40, 0x80 + c % 0x40]
    else if c < 0x1_0000 then [0xE0 + c / 0x1000, 0x80 + c / 0x40 % 0x40, 0x80 + c % 0x40]
    else [0xF0 + c / 0x4_0000, 0x80 + c / 0x1000 % 0x40, 0x80 + c / 0x40 % 0x40, 0x80 + c % 0x40]
  }

  function EncodeAll(cs: seq<Scalar>): Text {
    if cs == [] then [] else Encode(cs[0]) + EncodeAll(cs[1..])
  }

  /** Only the first byte of a character begins one. */
  lemma LeadByte(c: Scalar)
    ensures !Continuation(Encode(c)[0])
    ensures forall i :: 0 < i < |Encode(c)| ==> Continuation(Encode(c)[i])
  {
  }

  /** The first byte tells the length. */
  lemma LeadLength(c: Scalar)
    ensures var b := Encode(c)[0];
            |Encode(c)| == if b < 0x80 then 1 else if b < 0xE0 then 2 else if b < 0xF0 then 3 else 4
  {
  }

  lemma EncodeInjective(c: Scalar, d: Scalar)
    requires Encode(c) == Encode(d)
    ensures c == d
  {
    LeadLength(c);
    LeadLength(d);
    if |Encode(c)| == 2 { TwoBytes(c); TwoBytes(d); }
    if |Encode(c)| == 3 { ThreeBytes(c); ThreeBytes(d); }
    if |Encode(c)| == 4 { FourBytes(c); FourBytes(d); }
  }

  lemma TwoBytes(c: Scalar)
    requires |Encode(c)| == 2
    ensures c == (Encode(c)[0] as int - 0xC0) * 0x40 + (Encode(c)[1] as int - 0x80)
  {
  }

  lemma ThreeBytes(c: Scalar)
    requires |Encode(c)| == 3
    ensures c == (Encode(c)[0] as int - 0xE0) * 0x1000 + (Encode(c)[1] as int - 0x80) * 0x40
            + (Encode(c)[2] as int - 0x80)
  {
    assert c / 0x40 / 0x40 == c / 0x1000;
  }

  lemma FourBytes(c: Scalar)
    requires |Encode(c)| == 4
    ensures c == (Encode(c)[0] as int - 0xF0) * 0x4_0000 + (Encode(c)[1] as int - 0x80) * 0x1000
                 + (Encode(c)[2] as int - 0x80) * 0x40 + (Encode(c)[3] as int - 0x80)
  {
    assert c / 0x40 / 0x40 == c / 0x1000 && c / 0x1000 / 0x40 == c / 0x4_0000;
  }

  // ---------- boundaries ----------

  /** `i` is the length of the first `k` characters, for some `k`. */
  ghost predicate BetweenCharacters(cs: seq<Scalar>, i: nat) {
    exists k :: 0 <= k <= |cs| && |EncodeAll(cs[..k])| == i
  }

  lemma FirstCharacter(cs: seq<Scalar>, k: nat)
    requires 0 < k <= |cs|
    ensures EncodeAll(cs[..k]) == Encode(cs[0]) + EncodeAll(cs[1..][..k - 1])
  {
    assert cs[..k][1..] == cs[1..][..k - 1];
  }

  lemma BetweenNext(cs: seq<Scalar>, i: nat)
    requires cs != [] && i >= |Encode(cs[0])|
    ensures BetweenCharacters(cs, i) <==> BetweenCharacters(cs[1..], i - |Encode(cs[0])|)
  {
    if k :| 0 <= k <= |cs| && |EncodeAll(cs[..k])| == i {
      assert k > 0;
      FirstCharacter(cs, k);
    }
    if k :| 0 <= k <= |cs[1..]| && |EncodeAll(cs[1..][..k])| == i - |Encode(cs[0])| {
      FirstCharacter(cs, k + 1);
    }
  }

  lemma FirstBoundary(cs: seq<Scalar>, i: nat)
    requires cs != [] && i < |Encode(cs[0])|
    ensures BetweenCharacters(cs, i) <==> i == 0
  {
    if i == 0 { assert EncodeAll(cs[..0]) == []; }
    if k :| 0 <= k <= |cs| && |EncodeAll(cs[..k])| == i {
      if k > 0 { FirstCharacter(cs, k); }
    }
  }

  /** is_char_boundary, which looks at one byte, finds exactly the places between
      characters. */
  lemma {:induction false} BoundaryIsBetween(cs: seq<Scalar>, i: nat)
    requires i <= |EncodeAll(cs)|
    ensures Boundary(EncodeAll(cs), i) <==> BetweenCharacters(cs, i)
  {
    if cs == [] {
      assert EncodeAll(cs[..0]) == [];
    } else {
      var n := |Encode(cs[0])|;
      LeadByte(cs[0]);
      if i < n {
        FirstBoundary(cs, i);
        assert EncodeAll(cs)[i] == Encode(cs[0])[i];
      } else {
        BoundaryIsBetween(cs[1..], i - n);
        BetweenNext(cs, i);
        BoundaryLater(cs, i);
      }
    }
  }

  lemma BoundaryLater(cs: seq<Scalar>, i: nat)
    requires cs != [] && |Encode(cs[0])| <= i <= |EncodeAll(cs)|
    ensures Boundary(EncodeAll(cs), i) <==> Boundary(EncodeAll(cs[1..]), i - |Encode(cs[0])|)
  {
    var head, tail := Encode(cs[0]), EncodeAll(cs[1..]);
    TextBegins(cs[1..]);
    assert EncodeAll(cs) == head + tail;
    BoundaryShifts(head, tail, i);
  }

  lemma TextBegins(cs: seq<Scalar>)
    ensures EncodeAll(cs) == [] || !Continuation(EncodeAll(cs)[0])
  {
    if cs != [] { LeadByte(cs[0]); }
  }

  lemma BoundaryShifts(head: Text, tail: Text, i: nat)
    requires |head| <= i <= |head + tail| && (i == |head| && tail != [] ==> !Continuation(tail[0]))
    ensures Boundary(head + tail, i) <==> Boundary(tail, i - |head|)
  {
  }

  // ---------- matching bytes is matching characters ----------

  /** A text that begins with the bytes of another begins with its characters. */
  lemma {:induction false} PrefixDecodes(ds: seq<Scalar>, cs: seq<Scalar>)
    requires EncodeAll(ds) <= EncodeAll(cs)
    ensures ds <= cs
  {
    if ds != [] {
      var s, t := EncodeAll(ds), EncodeAll(cs);
      assert cs != [] && s[0] == t[0] && s[0] == Encode(ds[0])[0] && t[0] == Encode(cs[0])[0];
      LeadLength(ds[0]);
      LeadLength(cs[0]);
      var n := |Encode(ds[0])|;
      assert s[..n] == Encode(ds[0]) && t[..n] == Encode(cs[0]) && s[..n] == t[..n];
      EncodeInjective(ds[0], cs[0]);
      assert s[n..] == EncodeAll(ds[1..]) && t[n..] == EncodeAll(cs[1..]);
      assert s[n..] <= t[n..];
      PrefixDecodes(ds[1..], cs[1..]);
      assert ds == [ds[0]] + ds[1..] && cs == [cs[0]] + cs[1..];
    }
  }

  lemma {:induction false} EncodeAllSplits(cs: seq<Scalar>, ds: seq<Scalar>)
    ensures EncodeAll(cs + ds) == EncodeAll(cs) + EncodeAll(ds)
  {
    if cs == [] {
      assert cs + ds == ds;
    } else {
      assert (cs + ds)[1..] == cs[1..] + ds;
      EncodeAllSplits(cs[1..], ds);
    }
  }

  lemma SuffixAt(cs: seq<Scalar>, k: nat)
    requires k <= |cs|
    ensures |EncodeAll(cs[..k])| <= |EncodeAll(cs)|
    ensures EncodeAll(cs)[|EncodeAll(cs[..k])|..] == EncodeAll(cs[k..])
  {
    EncodeAllSplits(cs[..k], cs[k..]);
    assert cs == cs[..k] + cs[k..];
  }

  lemma MatchBeginsCharacter(cs: seq<Scalar>, ds: seq<Scalar>, i: nat)
    requires ds != [] && i + |EncodeAll(ds)| <= |EncodeAll(cs)|
    requires EncodeAll(cs)[i..i + |EncodeAll(ds)|] == EncodeAll(ds)
    ensures BetweenCharacters(cs, i)
  {
    LeadByte(ds[0]);
    assert EncodeAll(ds)[0] == Encode(ds[0])[0];
    assert EncodeAll(cs)[i] == EncodeAll(cs)[i..i + |EncodeAll(ds)|][0];
    BoundaryIsBetween(cs, i);
  }

  /** Where the bytes of a text hold the bytes of another, its characters hold the
      characters of the other: a byte search is a character search. */
  lemma MatchIsCharacters(cs: seq<Scalar>, ds: seq<Scalar>, i: nat) returns (k: nat)
    requires ds != [] && i + |EncodeAll(ds)| <= |EncodeAll(cs)|
    requires EncodeAll(cs)[i..i + |EncodeAll(ds)|] == EncodeAll(ds)
    ensures k + |ds| <= |cs| && cs[k..k + |ds|] == ds && |EncodeAll(cs[..k])| == i
  {
    MatchBeginsCharacter(cs, ds, i);
    k :| 0 <= k <= |cs| && |EncodeAll(cs[..k])| == i;
    SuffixAt(cs, k);
    var suffix := EncodeAll(cs)[i..];
    assert suffix[..|EncodeAll(ds)|] == EncodeAll(ds);
    PrefixDecodes(ds, cs[k..]);
    assert cs[k..k + |ds|] == cs[k..][..|ds|];
  }
}
