/** A1 addresses: columns in bijective base 26 under checked 32-bit arithmetic. */
module A1 {
  import opened Wrappers
  import opened Text

  const LIMIT: nat := 0x1_0000_0000

  type Cell = (nat, nat)

  datatype Range = Range(a1: string, startRow: nat, startColumn: nat, endRow: nat, endColumn: nat)

  // ---------- columns ----------

  predicate IsLetter(c: char) { 'A' <= c <= 'Z' }
  predicate AllLetters(s: string) { forall i :: 0 <= i < |s| ==> IsLetter(s[i]) }

  function Ordinal(c: char): nat
    requires IsLetter(c)
  {
    c as int - 'A' as int + 1
  }

  /** The column a letter string denotes, without any bound. */
  function ColumnValue(s: string): nat
    requires AllLetters(s)
  {
    if s == "" then 0 else 26 * ColumnValue(s[..|s| - 1]) + Ordinal(s[|s| - 1])
  }

  /** The letters of a column. */
  function ColumnName(n: nat): (s: string)
    ensures AllLetters(s) && (s == "" <==> n == 0)
  {
    if n == 0 then "" else ColumnName((n - 1) / 26) + [('A' as int + (n - 1) % 26) as char]
  }

  lemma {:induction false} ColumnNameDenotes(n: nat)
    ensures ColumnValue(ColumnName(n)) == n
  {
    if n > 0 {
      var s := ColumnName(n);
      assert s[..|s| - 1] == ColumnName((n - 1) / 26);
      ColumnNameDenotes((n - 1) / 26);
    }
  }

  lemma {:induction false} ColumnNameIsUnique(s: string)
    requires AllLetters(s)
    ensures ColumnName(ColumnValue(s)) == s
  {
    if s != "" {
      var rest, last := s[..|s| - 1], s[|s| - 1];
      ColumnNameIsUnique(rest);
      assert (ColumnValue(s) - 1) / 26 == ColumnValue(rest) && (ColumnValue(s) - 1) % 26 == Ordinal(last) - 1;
      assert s == rest + [last];
    }
  }

  lemma {:induction false} ColumnGrows(s: string, n: nat)
    requires AllLetters(s) && n <= |s|
    ensures ColumnValue(s[..n]) <= ColumnValue(s)
    decreases |s|
  {
    if n == |s| {
      assert s[..n] == s;
    } else {
      ColumnGrows(s[..|s| - 1], n);
      assert s[..|s| - 1][..n] == s[..n];
    }
  }

  /** The accumulating loop: it stops exactly when the true column does not fit. */
  method Column(letters: string) returns (column: Option<nat>)
    requires AllLetters(letters)
    ensures column == if ColumnValue(letters) < 0x1_0000_0000 then Some(ColumnValue(letters)) else None
  {
    var sum := 0;
    for i := 0 to |letters|
      invariant sum == ColumnValue(letters[..i]) < LIMIT
    {
      assert letters[..i + 1][..i] == letters[..i];
      ColumnGrows(letters, i + 1);
      if sum * 26 >= LIMIT { return None; }
      if sum * 26 + Ordinal(letters[i]) >= LIMIT { return None; }
      sum := sum * 26 + Ordinal(letters[i]);
    }
    assert letters[..|letters|] == letters;
    column := Some(sum);
  }

  // ---------- cells ----------

  function Upper(c: char): char { if 'a' <= c <= 'z' then (c as int - 32) as char else c }

  function UpperWithout(s: string): string {
    if s == "" then "" else (if s[0] == '$' then "" else [Upper(s[0])]) + UpperWithout(s[1..])
  }

  /** Trimmed, without dollar signs, in upper case. */
  function Normalised(s: string): string { UpperWithout(Trim(s)) }

  /** The position of the first digit, or the length. */
  function FirstDigit(s: string): (n: nat)
    ensures n <= |s| && (forall i :: 0 <= i < n ==> !IsDigit(s[i])) && (n < |s| ==> IsDigit(s[n]))
  {
    if s == "" || IsDigit(s[0]) then 0 else 1 + FirstDigit(s[1..])
  }

  /** Letters and then digits, at least one of each. */
  ghost predicate Splits(t: string, letters: string, digits: string) {
    t == letters + digits && letters != "" && digits != "" && AllLetters(letters) && AllDigits(digits)
  }

  /** `value` denotes the cell: letters and digits of a row and a column from 1 to
      the largest 32-bit number. */
  ghost predicate Denotes(value: string, letters: string, digits: string, cell: Cell) {
    && Splits(Normalised(value), letters, digits)
    && cell == (DecimalValue(digits), ColumnValue(letters)) && 0 < cell.0 < 0x1_0000_0000 && 0 < cell.1 < 0x1_0000_0000
  }

  ghost predicate IsCell(value: string, cell: Cell) { exists l, d :: Denotes(value, l, d, cell) }

  lemma SplitIsUnique(t: string, letters: string, digits: string)
    requires Splits(t, letters, digits)
    ensures FirstDigit(t) == |letters| && t[..FirstDigit(t)] == letters && t[FirstDigit(t)..] == digits
  {
    assert IsDigit(t[|letters|]) by { assert t[|letters|] == digits[0]; }
    assert forall i :: 0 <= i < |letters| ==> t[i] == letters[i] && IsLetter(t[i]);
  }

  lemma CellIsUnique(value: string, a: Cell, b: Cell)
    requires IsCell(value, a) && IsCell(value, b)
    ensures a == b
  {
    var l, d :| Denotes(value, l, d, a);
    var l', d' :| Denotes(value, l', d', b);
    SplitIsUnique(Normalised(value), l, d);
    SplitIsUnique(Normalised(value), l', d');
  }

  /** parse_a1_cell */
  method ParseCell(value: string) returns (cell: Option<Cell>)
    ensures cell.Some? ==> IsCell(value, cell.value)
    ensures cell.None? ==> forall c :: !IsCell(value, c)
  {
    var t := Normalised(value);
    var split := FirstDigit(t);
    forall l, d, c | Denotes(value, l, d, c) ensures t[..split] == l && t[split..] == d && 0 < split < |t| {
      SplitIsUnique(t, l, d);
    }
    if split == |t| || split == 0 { return None; }
    var letters, digits := t[..split], t[split..];
    if !AllLetters(letters) || !AllDigits(digits) { return None; }
    assert Splits(t, letters, digits);
    var column := Column(letters);
    if column.None? { return None; }
    var row := ParseBelow(digits, LIMIT);
    if row.None? { return None; }
    if row.value > 0 && column.value > 0 {
      assert Denotes(value, letters, digits, (row.value, column.value));
      cell := Some((row.value, column.value));
    } else {
      cell := None;
    }
  }

  // ---------- printing ----------

  function PrintCell(cell: Cell): string { ColumnName(cell.1) + Decimal(cell.0) }

  predicate Plain(s: string) { forall i :: 0 <= i < |s| ==> IsLetter(s[i]) || IsDigit(s[i]) }

  lemma {:induction false} PlainIsNormal(s: string)
    requires Plain(s)
    ensures Normalised(s) == s
  {
    assert Trim(s) == s;
    PlainIsUpper(s);
  }

  lemma {:induction false} PlainIsUpper(s: string)
    requires Plain(s)
    ensures UpperWithout(s) == s
  {
    if s != "" {
      PlainIsUpper(s[1..]);
      assert s == [s[0]] + s[1..];
    }
  }

  /** Parsing what is printed gives the cell back. */
  lemma PrintedIsCell(cell: Cell)
    requires 0 < cell.0 < LIMIT && 0 < cell.1 < LIMIT
    ensures IsCell(PrintCell(cell), cell)
  {
    PlainIsNormal(PrintCell(cell));
    DecimalRoundTrips(cell.0);
    ColumnNameDenotes(cell.1);
    assert Denotes(PrintCell(cell), ColumnName(cell.1), Decimal(cell.0), cell);
  }

  function StripZeros(digits: string): string {
    if |digits| > 1 && digits[0] == '0' then StripZeros(digits[1..]) else digits
  }

  lemma {:induction false} ZeroIsZeros(digits: string)
    requires AllDigits(digits)
    ensures DecimalValue(digits) == 0 <==> forall i :: 0 <= i < |digits| ==> digits[i] == '0'
  {
    if digits != "" {
      var n := |digits| - 1;
      ZeroIsZeros(digits[..n]);
      assert digits == digits[..n] + [digits[n]];
    }
  }

  lemma {:induction false} StripSnoc(digits: string, last: char)
    requires digits != "" && AllDigits(digits)
    ensures StripZeros(digits + [last]) == if DecimalValue(digits) == 0 then [last] else StripZeros(digits) + [last]
  {
    var all := digits + [last];
    ZeroIsZeros(digits);
    if digits[0] == '0' {
      assert all[1..] == digits[1..] + [last];
      ZeroIsZeros(digits[1..]);
      if |digits| > 1 {
        StripSnoc(digits[1..], last);
        assert forall i :: 1 <= i < |digits| ==> digits[i] == digits[1..][i - 1];
      } else {
        assert all[1..] == [last];
      }
    }
  }

  lemma {:induction false} DecimalIsStripped(digits: string)
    requires digits != "" && AllDigits(digits)
    ensures Decimal(DecimalValue(digits)) == StripZeros(digits)
  {
    var rest, last := digits[..|digits| - 1], digits[|digits| - 1];
    assert digits == rest + [last];
    var v := DecimalValue(digits);
    assert v / 10 == DecimalValue(rest) && v % 10 == last as int - '0' as int;
    if rest != "" {
      DecimalIsStripped(rest);
      StripSnoc(rest, last);
    } else {
      assert DecimalValue(rest) == 0;
    }
  }

  /** Printing what was parsed gives the normalised address back, up to the
      leading zeros of its row. */
  lemma ParsedPrintsBack(value: string, letters: string, digits: string, cell: Cell)
    requires Denotes(value, letters, digits, cell)
    ensures Normalised(value) == letters + digits && PrintCell(cell) == letters + StripZeros(digits)
  {
    ColumnNameIsUnique(letters);
    DecimalIsStripped(digits);
  }

  /** The letters of the first columns, and where their number grows. */
  lemma KnownColumns()
    ensures ColumnValue("A") == 1 && ColumnValue("B") == 2 && ColumnValue("Z") == 26
    ensures ColumnValue("AA") == 27 && ColumnValue("AB") == 28 && ColumnValue("BA") == 53 && ColumnValue("ZZ") == 702
  {
    assert "A"[..0] == "" && "B"[..0] == "" && "Z"[..0] == "";
    assert "AA"[..1] == "A" && "AB"[..1] == "A" && "BA"[..1] == "B" && "ZZ"[..1] == "Z";
  }

  // ---------- decoration ----------

  /** `t` is `plain` with dollar signs put in and letters in either case. */
  ghost predicate Decorates(t: string, plain: string) {
    if t == "" then plain == ""
    else if t[0] == '$' then Decorates(t[1..], plain)
    else
      && plain != "" && Decorates(t[1..], plain[1..])
      && (t[0] == plain[0] || ('a' <= t[0] <= 'z' && 'A' <= plain[0] <= 'Z'
                               && t[0] as int - 97 == plain[0] as int - 65))
  }

  lemma {:induction false} DecorationIsRemoved(t: string, plain: string)
    requires Plain(plain) && Decorates(t, plain)
    ensures UpperWithout(t) == plain
  {
    if t != "" {
      if t[0] == '$' {
        DecorationIsRemoved(t[1..], plain);
      } else {
        DecorationIsRemoved(t[1..], plain[1..]);
        assert plain == [plain[0]] + plain[1..];
      }
    }
  }

  lemma {:induction false} DecorationHasNoSpace(t: string, plain: string)
    requires Plain(plain) && Decorates(t, plain)
    ensures forall i :: 0 <= i < |t| ==> !IsSpace(t[i])
    ensures plain != "" ==> t != ""
  {
    if t != "" {
      DecorationHasNoSpace(t[1..], if t[0] == '$' then plain else plain[1..]);
      assert t == [t[0]] + t[1..];
    }
  }

  ghost predicate Spaces(s: string) { forall i :: 0 <= i < |s| ==> IsSpace(s[i]) }

  lemma {:induction false} TrimsSpaces(before: string, t: string, after: string)
    requires Spaces(before) && Spaces(after) && t != "" && !IsSpace(t[0]) && !IsSpace(t[|t| - 1])
    ensures Trim(before + t + after) == t
    decreases |before| + |after|
  {
    var s := before + t + after;
    if before != "" {
      assert s[1..] == before[1..] + t + after;
      TrimsSpaces(before[1..], t, after);
    } else if after != "" {
      assert s[0] == t[0];
      assert s[..|s| - 1] == before + t + after[..|after| - 1];
      TrimsSpaces(before, t, after[..|after| - 1]);
    } else {
      assert s == t;
    }
  }

  /** Dollar signs, lower case and space around it do not change what an address
      denotes: however a printed cell is decorated, it denotes the cell. */
  lemma DecoratedIsCell(before: string, t: string, after: string, cell: Cell)
    requires 0 < cell.0 < LIMIT && 0 < cell.1 < LIMIT && Decorates(t, PrintCell(cell))
    requires Spaces(before) && Spaces(after)
    ensures IsCell(before + t + after, cell)
  {
    DecorationHasNoSpace(t, PrintCell(cell));
    TrimsSpaces(before, t, after);
    DecorationIsRemoved(t, PrintCell(cell));
    DecimalRoundTrips(cell.0);
    ColumnNameDenotes(cell.1);
    assert Denotes(before + t + after, ColumnName(cell.1), Decimal(cell.0), cell);
  }

  // ---------- ranges ----------

  function Split(s: string): (parts: seq<string>)
    ensures |parts| > 0
  {
    if s == "" then [""]
    else if s[0] == ':' then [""] + Split(s[1..])
    else var rest := Split(s[1..]); [[s[0]] + rest[0]] + rest[1..]
  }

  lemma {:induction false} SplitNone(s: string)
    ensures ':' !in s <==> |Split(s)| == 1
    ensures ':' !in s ==> Split(s) == [s]
    ensures ':' !in Split(s)[0]
  {
    if s != "" {
      SplitNone(s[1..]);
      assert s == [s[0]] + s[1..];
    }
  }

  lemma {:induction false} SplitTwo(a: string, b: string)
    requires ':' !in a
    ensures Split(a + ":" + b) == [a] + Split(b)
  {
    var s := a + ":" + b;
    if a == "" {
      assert s[1..] == b;
    } else {
      assert s[1..] == a[1..] + ":" + b;
      SplitTwo(a[1..], b);
      assert a == [a[0]] + a[1..];
    }
  }

  lemma {:induction false} SplitJoins(s: string)
    requires |Split(s)| == 2
    ensures s == Split(s)[0] + ":" + Split(s)[1] && ':' !in Split(s)[0] && ':' !in Split(s)[1]
  {
    SplitNone(s);
    assert s == [s[0]] + s[1..];
    if s[0] == ':' {
      SplitNone(s[1..]);
    } else {
      SplitJoins(s[1..]);
    }
  }

  /** One cell, or a first and a last cell around one colon. */
  ghost predicate Corners(value: string, first: string, last: string) {
    (value == first == last || value == first + ":" + last) && ':' !in first && ':' !in last
  }

  /** `r` is what the text denotes. */
  ghost predicate IsRange(value: string, r: Range, first: string, last: string) {
    && Corners(value, first, last)
    && IsCell(first, (r.startRow, r.startColumn)) && IsCell(last, (r.endRow, r.endColumn))
    && r.startRow <= r.endRow && r.startColumn <= r.endColumn && r.a1 == value
  }

  ghost predicate DenotesRange(value: string, r: Range) { exists f, l :: IsRange(value, r, f, l) }

  lemma CornersAreParts(value: string, first: string, last: string)
    requires Corners(value, first, last)
    ensures var parts := Split(value);
            |parts| <= 2 && parts[0] == first && last == if |parts| == 2 then parts[1] else value
  {
    if value == first { SplitNone(value); } else { SplitTwo(first, last); SplitNone(last); }
  }

  lemma PartsAreCorners(value: string)
    requires |Split(value)| <= 2
    ensures var parts := Split(value); Corners(value, parts[0], if |parts| == 2 then parts[1] else value)
  {
    if |Split(value)| == 2 { SplitJoins(value); } else { SplitNone(value); }
  }

  /** parse_a1_range */
  method ParseRange(value: string) returns (range: Option<Range>)
    ensures range.Some? ==> DenotesRange(value, range.value)
    ensures range.None? ==> forall r :: !DenotesRange(value, r)
  {
    var parts := Split(value);
    var first, last := parts[0], if |parts| > 1 then parts[1] else value;
    forall r, f, l | IsRange(value, r, f, l) ensures |parts| <= 2 && f == first && l == last {
      CornersAreParts(value, f, l);
    }
    var start := ParseCell(first);
    if start.None? { return None; }
    var end := ParseCell(last);
    if end.None? { return None; }
    forall r, f, l | IsRange(value, r, f, l)
      ensures start.value == (r.startRow, r.startColumn) && end.value == (r.endRow, r.endColumn)
    {
      CellIsUnique(first, start.value, (r.startRow, r.startColumn));
      CellIsUnique(last, end.value, (r.endRow, r.endColumn));
    }
    if |parts| > 2 || end.value.0 < start.value.0 || end.value.1 < start.value.1 { return None; }
    PartsAreCorners(value);
    var r := Range(value, start.value.0, start.value.1, end.value.0, end.value.1);
    assert IsRange(value, r, first, last);
    range := Some(r);
  }

  /** What a text denotes is one range. */
  lemma RangeIsUnique(value: string, r: Range, s: Range)
    requires DenotesRange(value, r) && DenotesRange(value, s)
    ensures r == s
  {
    var f, l :| IsRange(value, r, f, l);
    var f', l' :| IsRange(value, s, f', l');
    CornersAreParts(value, f, l);
    CornersAreParts(value, f', l');
    CellIsUnique(f, (r.startRow, r.startColumn), (s.startRow, s.startColumn));
    CellIsUnique(l, (r.endRow, r.endColumn), (s.endRow, s.endColumn));
  }

  /** from_proto_range: accepted exactly when the numbers on the wire are those
      the text denotes; the bounds checked beside follow from that. */
  method FromProtoRange(wire: Range) returns (r: Result<Range, string>)
    ensures r.Ok? <==> DenotesRange(wire.a1, wire)
    ensures r.Ok? ==> r.value == wire
  {
    var parsed := ParseRange(wire.a1);
    if parsed.Some? && DenotesRange(wire.a1, wire) { RangeIsUnique(wire.a1, wire, parsed.value); }
    if wire.a1 == "" || wire.startRow == 0 || wire.startColumn == 0 || wire.endRow < wire.startRow
       || wire.endColumn < wire.startColumn
       || parsed.None? || parsed.value.startRow != wire.startRow || parsed.value.startColumn != wire.startColumn
       || parsed.value.endRow != wire.endRow || parsed.value.endColumn != wire.endColumn
    {
      return Err("DocReader returned invalid spreadsheet range");
    }
    r := Ok(wire);
  }

  /** Every range of cells prints to a text that denotes it. */
  lemma PrintedIsRange(first: Cell, last: Cell)
    requires 0 < first.0 <= last.0 < LIMIT && 0 < first.1 <= last.1 < LIMIT
    ensures var text := PrintCell(first) + ":" + PrintCell(last);
            DenotesRange(text, Range(text, first.0, first.1, last.0, last.1))
  {
    var text := PrintCell(first) + ":" + PrintCell(last);
    PrintedIsCell(first);
    PrintedIsCell(last);
    assert IsRange(text, Range(text, first.0, first.1, last.0, last.1), PrintCell(first), PrintCell(last));
  }
}
