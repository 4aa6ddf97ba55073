/** Text operations the parsers share: trimming and checked decimal numbers. */
module Text {
  import opened Wrappers

  /** The Unicode White_Space property. */
  predicate IsSpace(c: char) {
    var n := c as int;
    9 <= n <= 13 || n == 32 || n == 0x85 || n == 0xA0 || n == 0x1680 || 0x2000 <= n <= 0x200A
    || n == 0x2028 || n == 0x2029 || n == 0x202F || n == 0x205F || n == 0x3000
  }

  /** Its code points, from the character database. */
  const SPACES: seq<int> := [9, 10, 11, 12, 13, 32, 0x85, 0xA0, 0x1680, 0x2000, 0x2001, 0x2002, 0x2003, 0x2004, 0x2005]
    + [0x2006, 0x2007, 0x2008, 0x2009, 0x200A, 0x2028, 0x2029, 0x202F, 0x205F, 0x3000]

  lemma SpacesAreListed(c: char)
    ensures IsSpace(c) <==> c as int in SPACES
  {
    var n := c as int;
    if n < 0x2006 { assert IsSpace(c) <==> n in SPACES[..15]; } else { assert IsSpace(c) <==> n in SPACES[15..]; }
  }

  function TrimBy(space: char -> bool, s: string): string {
    if s == "" then s
    else if space(s[0]) then TrimBy(space, s[1..])
    else if space(s[|s| - 1]) then TrimBy(space, s[..|s| - 1])
    else s
  }

  function Trim(s: string): string { TrimBy(IsSpace, s) }

  ghost predicate AllOf(space: char -> bool, s: string) { forall i :: 0 <= i < |s| ==> space(s[i]) }

  lemma FirstGoes(space: char -> bool, s: string, before: string, middle: string, after: string)
    requires s != "" && space(s[0]) && s[1..] == before + middle + after && AllOf(space, before)
    ensures s == ([s[0]] + before) + middle + after && AllOf(space, [s[0]] + before)
  {
    assert s == [s[0]] + s[1..];
  }

  lemma LastGoes(space: char -> bool, s: string, before: string, middle: string, after: string)
    requires s != "" && space(s[|s| - 1]) && s[..|s| - 1] == before + middle + after && AllOf(space, after)
    ensures s == before + middle + (after + [s[|s| - 1]]) && AllOf(space, after + [s[|s| - 1]])
  {
    assert s == s[..|s| - 1] + [s[|s| - 1]];
  }

  lemma {:induction false} TrimByIsMiddle(space: char -> bool, s: string) returns (before: string, after: string)
    ensures s == before + TrimBy(space, s) + after && AllOf(space, before) && AllOf(space, after)
    ensures var t := TrimBy(space, s); t != "" ==> !space(t[0]) && !space(t[|t| - 1])
  {
    before, after := "", "";
    if s != "" {
      if space(s[0]) {
        before, after := TrimByIsMiddle(space, s[1..]);
        FirstGoes(space, s, before, TrimBy(space, s), after);
        before := [s[0]] + before;
      } else if space(s[|s| - 1]) {
        before, after := TrimByIsMiddle(space, s[..|s| - 1]);
        LastGoes(space, s, before, TrimBy(space, s), after);
        after := after + [s[|s| - 1]];
      }
    }
  }

  /** Trimming takes exactly the space at both ends away. */
  lemma TrimIsMiddle(s: string) returns (before: string, after: string)
    ensures s == before + Trim(s) + after
    ensures (forall i :: 0 <= i < |before| ==> IsSpace(before[i]))
            && (forall i :: 0 <= i < |after| ==> IsSpace(after[i]))
    ensures Trim(s) != "" ==> !IsSpace(Trim(s)[0]) && !IsSpace(Trim(s)[|Trim(s)| - 1])
  {
    before, after := TrimByIsMiddle(IsSpace, s);
  }

  lemma TrimLeavesNothing(s: string)
    ensures Trim(s) == "" <==> forall i :: 0 <= i < |s| ==> IsSpace(s[i])
  {
    var before, after := TrimIsMiddle(s);
    if Trim(s) != "" { assert s[|before|] == Trim(s)[0]; }
  }

  predicate IsDigit(c: char) { '0' <= c <= '9' }
  predicate AllDigits(s: string) { forall i :: 0 <= i < |s| ==> IsDigit(s[i]) }

  /** What a digit string denotes. */
  function DecimalValue(s: string): nat
    requires AllDigits(s)
  {
    if s == "" then 0 else 10 * DecimalValue(s[..|s| - 1]) + (s[|s| - 1] as int - '0' as int)
  }

  /** A checked parse below `limit`: digits only, an optional plus sign. */
  function ParseBelow(s: string, limit: nat): Option<nat> {
    var digits := if s != "" && s[0] == '+' then s[1..] else s;
    if digits == "" || !AllDigits(digits) || DecimalValue(digits) >= limit then None else Some(DecimalValue(digits))
  }

  /** The shortest digits of a number. */
  function Decimal(n: nat): (s: string)
    ensures |s| > 0 && AllDigits(s)
  {
    var last := [('0' as int + n % 10) as char];
    if n < 10 then last else Decimal(n / 10) + last
  }

  lemma {:induction false} DecimalRoundTrips(n: nat)
    ensures DecimalValue(Decimal(n)) == n
  {
    var s := Decimal(n);
    if n >= 10 {
      DecimalRoundTrips(n / 10);
      assert s[..|s| - 1] == Decimal(n / 10);
    } else {
      assert s[..|s| - 1] == "";
    }
  }

  /** Checked parsing reads back what is printed, with or without a plus sign, as long
      as it is below the limit. */
  lemma ParsesDecimal(n: nat, limit: nat)
    ensures ParseBelow(Decimal(n), limit) == if n < limit then Some(n) else None
    ensures ParseBelow("+" + Decimal(n), limit) == if n < limit then Some(n) else None
  {
    DecimalRoundTrips(n);
    assert ("+" + Decimal(n))[1..] == Decimal(n);
  }

  /** Leading zeros do not matter. */
  lemma {:induction false} LeadingZero(s: string)
    requires AllDigits(s)
    ensures DecimalValue("0" + s) == DecimalValue(s)
  {
    if s == "" {
      assert ("0" + s)[..0] == "";
    } else {
      assert ("0" + s)[..|s|] == "0" + s[..|s| - 1];
      LeadingZero(s[..|s| - 1]);
    }
  }

  /** And nothing but digits after the sign is parsed. */
  lemma ParsesDigitsOnly(s: string, limit: nat)
    ensures ParseBelow(s, limit).Some? ==>
              s != "" && (s[0] == '+' || '0' <= s[0] <= '9') && forall i :: 0 < i < |s| ==> '0' <= s[i] <= '9'
    ensures ParseBelow("", limit).None? && ParseBelow("+", limit).None?
  {
    if ParseBelow(s, limit).Some? && s != "" && s[0] == '+' {
      assert forall i :: 0 < i < |s| ==> s[i] == s[1..][i - 1];
    }
    assert "+"[1..] == "";
  }
}
