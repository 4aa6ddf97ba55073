/** Literal replacement in rendered Markdown, with the exact byte spans of the
    source units remapped.  Text is UTF-8 bytes; because UTF-8 is
    self-synchronising, matching bytes is matching characters. */
module Rendered {
  import opened Bytes
  import opened Collections
  import opened Wrappers

  type Text = seq<Byte>

  datatype Span = Span(start: nat, end: nat)
  datatype Verdict = Kept | Cut | Overflow

  predicate StartsWith(s: Text, pattern: Text) {
    |pattern| <= |s| && s[..|pattern|] == pattern
  }

  /** str::replace: leftmost, non-overlapping. */
  function Replace(s: Text, from: Text, to: Text): Text
    requires |from| > 0
    decreases |s|
  {
    if s == [] then []
    else if StartsWith(s, from) then to + Replace(s[|from|..], from, to)
    else [s[0]] + Replace(s[1..], from, to)
  }

  /** str::match_indices, as half-open ranges of the text that starts at `base`. */
  function Matches(s: Text, from: Text, base: nat): seq<(nat, nat)>
    requires |from| > 0
    decreases |s|
  {
    if s == [] then []
    else if StartsWith(s, from) then [(base, base + |from|)] + Matches(s[|from|..], from, base + |from|)
    else Matches(s[1..], from, base + 1)
  }

  /** The boundary `offset` lies strictly inside a match. */
  ghost predicate CutBy(ranges: seq<(nat, nat)>, offset: nat) {
    exists i :: 0 <= i < |ranges| && ranges[i].0 < offset < ranges[i].1
  }

  /** The number of matches that end at or before `offset`. */
  function EndedBy(ranges: seq<(nat, nat)>, offset: nat): nat {
    if ranges == [] then 0
    else (if ranges[0].1 <= offset then 1 else 0) + EndedBy(ranges[1..], offset)
  }

  lemma {:induction false} EndedBySnoc(ranges: seq<(nat, nat)>, offset: nat)
    requires ranges != []
    ensures EndedBy(ranges, offset) == EndedBy(ranges[..|ranges| - 1], offset)
            + (if ranges[|ranges| - 1].1 <= offset then 1 else 0)
  {
    if |ranges| > 1 {
      EndedBySnoc(ranges[1..], offset);
      assert ranges[1..][..|ranges| - 2] == ranges[..|ranges| - 1][1..];
    }
  }

  /** The loop that moves one boundary past the replacements before it. */
  method Shift(ranges: seq<(nat, nat)>, offset: nat, from: Text, to: Text) returns (r: Verdict, shifted: nat)
    ensures r.Cut? <==> CutBy(ranges, offset)
    ensures r.Overflow? <==> !CutBy(ranges, offset) && offset + EndedBy(ranges, offset) * (|to| - |from|) < 0
    ensures r.Kept? ==> shifted == offset + EndedBy(ranges, offset) * (|to| - |from|)
  {
    var adjustment: int := 0;
    shifted := 0;
    for i := 0 to |ranges|
      invariant adjustment == EndedBy(ranges[..i], offset) * (|to| - |from|)
      invariant !CutBy(ranges[..i], offset)
    {
      var (start, end) := ranges[i];
      if start < offset && offset < end {
        return Cut, 0;
      }
      EndedBySnoc(ranges[..i + 1], offset);
      assert ranges[..i + 1][..i] == ranges[..i];
      if end <= offset {
        adjustment := adjustment + (|to| - |from|);
      }
    }
    assert ranges[..|ranges|] == ranges;
    if offset + adjustment < 0 { return Overflow, 0; }
    return Kept, offset + adjustment;
  }

  // ---------- cutting a text at an uncut boundary ----------

  lemma {:induction false} MatchesShape(s: Text, from: Text, base: nat)
    requires |from| > 0
    ensures forall r :: r in Matches(s, from, base) ==> base <= r.0 && r.1 == r.0 + |from| <= base + |s|
    decreases |s|
  {
    if s == [] {
    } else if StartsWith(s, from) {
      MatchesShape(s[|from|..], from, base + |from|);
    } else {
      MatchesShape(s[1..], from, base + 1);
    }
  }

  lemma EndedByNone(ranges: seq<(nat, nat)>, offset: nat)
    requires forall r :: r in ranges ==> offset < r.1
    ensures EndedBy(ranges, offset) == 0
  {
    if ranges != [] {
      assert ranges[0] in ranges;
      assert forall r :: r in ranges[1..] ==> r in ranges;
    }
  }

  lemma CutByTail(ranges: seq<(nat, nat)>, offset: nat)
    requires ranges != [] && !CutBy(ranges, offset)
    ensures !CutBy(ranges[1..], offset) && !(ranges[0].0 < offset < ranges[0].1)
  {}

  lemma MatchedPrefix(s: Text, from: Text, to: Text, a: nat)
    requires |from| > 0 && StartsWith(s, from) && |from| <= a <= |s|
    ensures Replace(s[..a], from, to) == to + Replace(s[|from|..][..a - |from|], from, to)
    ensures s[|from|..][a - |from|..] == s[a..]
  {
    assert StartsWith(s[..a], from);
    assert s[..a][|from|..] == s[|from|..][..a - |from|];
  }

  lemma UnmatchedPrefix(s: Text, from: Text, to: Text, a: nat)
    requires |from| > 0 && !StartsWith(s, from) && 0 < a <= |s|
    ensures Replace(s[..a], from, to) == [s[0]] + Replace(s[1..][..a - 1], from, to)
    ensures s[1..][a - 1..] == s[a..]
  {
    PrefixHasNoMatch(s, from, a);
    assert s[..a][1..] == s[1..][..a - 1];
  }

  lemma SplitAfterMatch(s: Text, from: Text, to: Text, a: nat)
    requires |from| > 0 && StartsWith(s, from) && |from| <= a <= |s|
    requires var rest, b := s[|from|..], a - |from|;
             Replace(rest, from, to) == Replace(rest[..b], from, to) + Replace(rest[b..], from, to)
    ensures Replace(s, from, to) == Replace(s[..a], from, to) + Replace(s[a..], from, to)
  {
    MatchedPrefix(s, from, to, a);
    Regroup(to, Replace(s[|from|..][..a - |from|], from, to), Replace(s[a..], from, to));
  }

  lemma SplitAfterByte(s: Text, from: Text, to: Text, a: nat)
    requires |from| > 0 && !StartsWith(s, from) && 0 < a <= |s|
    requires Replace(s[1..], from, to) == Replace(s[1..][..a - 1], from, to) + Replace(s[1..][a - 1..], from, to)
    ensures Replace(s, from, to) == Replace(s[..a], from, to) + Replace(s[a..], from, to)
  {
    UnmatchedPrefix(s, from, to, a);
    Regroup([s[0]], Replace(s[1..][..a - 1], from, to), Replace(s[a..], from, to));
  }

  /** What an uncut boundary `a` after the first match, or the first byte, gives
      for the rest of the text. */
  lemma UncutRest(s: Text, from: Text, base: nat, a: nat)
    requires |from| > 0 && 0 < a <= |s| && !CutBy(Matches(s, from, base), base + a)
    ensures StartsWith(s, from) ==> |from| <= a && !CutBy(Matches(s[|from|..], from, base + |from|), base + a)
    ensures !StartsWith(s, from) ==> !CutBy(Matches(s[1..], from, base + 1), base + a)
  {
    var ranges := Matches(s, from, base);
    if StartsWith(s, from) {
      CutByTail(ranges, base + a);
      assert ranges[1..] == Matches(s[|from|..], from, base + |from|);
    }
  }

  /** At a boundary `a` that no match straddles, replacement splits into the
      replacement of the two sides. */
  lemma {:induction false} ReplaceSplits(s: Text, from: Text, to: Text, base: nat, a: nat)
    requires |from| > 0 && a <= |s| && !CutBy(Matches(s, from, base), base + a)
    ensures Replace(s, from, to) == Replace(s[..a], from, to) + Replace(s[a..], from, to)
    decreases |s|
  {
    var n := |from|;
    if a == 0 {
      assert s[..0] == [] && s[0..] == s;
    } else {
      UncutRest(s, from, base, a);
      if StartsWith(s, from) {
        ReplaceSplits(s[n..], from, to, base + n, a - n);
        SplitAfterMatch(s, from, to, a);
      } else {
        ReplaceSplits(s[1..], from, to, base + 1, a - 1);
        SplitAfterByte(s, from, to, a);
      }
    }
  }

  /** Such a boundary is shifted to the length of what precedes it, so the
      shifted offset is never negative. */
  lemma {:induction false} ShiftIsLength(s: Text, from: Text, to: Text, base: nat, a: nat)
    requires |from| > 0 && a <= |s| && !CutBy(Matches(s, from, base), base + a)
    ensures a + EndedBy(Matches(s, from, base), base + a) * (|to| - |from|) == |Replace(s[..a], from, to)|
    decreases |s|
  {
    var n := |from|;
    if a == 0 {
      MatchesShape(s, from, base);
      EndedByNone(Matches(s, from, base), base);
    } else {
      UncutRest(s, from, base, a);
      if StartsWith(s, from) {
        ShiftIsLength(s[n..], from, to, base + n, a - n);
        ShiftAfterMatch(s, from, to, base, a);
      } else {
        ShiftIsLength(s[1..], from, to, base + 1, a - 1);
        ShiftAfterByte(s, from, to, base, a);
      }
    }
  }

  lemma ShiftAfterMatch(s: Text, from: Text, to: Text, base: nat, a: nat)
    requires |from| > 0 && StartsWith(s, from) && |from| <= a <= |s|
    requires var rest, b := s[|from|..], a - |from|;
             b + EndedBy(Matches(rest, from, base + |from|), base + a) * (|to| - |from|) ==
             |Replace(rest[..b], from, to)|
    ensures a + EndedBy(Matches(s, from, base), base + a) * (|to| - |from|) == |Replace(s[..a], from, to)|
  {
    EndedRest(s, from, base, a);
    MatchedPrefix(s, from, to, a);
    OneMore(EndedBy(Matches(s[|from|..], from, base + |from|), base + a), |to| - |from|);
  }

  lemma ShiftAfterByte(s: Text, from: Text, to: Text, base: nat, a: nat)
    requires |from| > 0 && !StartsWith(s, from) && 0 < a <= |s|
    requires (a - 1) + EndedBy(Matches(s[1..], from, base + 1), base + a) * (|to| - |from|) ==
             |Replace(s[1..][..a - 1], from, to)|
    ensures a + EndedBy(Matches(s, from, base), base + a) * (|to| - |from|) == |Replace(s[..a], from, to)|
  {
    EndedRest(s, from, base, a);
    UnmatchedPrefix(s, from, to, a);
  }

  lemma EndedRest(s: Text, from: Text, base: nat, a: nat)
    requires |from| > 0 && 0 < a <= |s| && (StartsWith(s, from) ==> |from| <= a)
    ensures EndedBy(Matches(s, from, base), base + a) ==
            if StartsWith(s, from) then 1 + EndedBy(Matches(s[|from|..], from, base + |from|), base + a)
            else EndedBy(Matches(s[1..], from, base + 1), base + a)
  {
    if StartsWith(s, from) {
      assert Matches(s, from, base)[1..] == Matches(s[|from|..], from, base + |from|);
    }
  }

  lemma OneMore(count: nat, step: int)
    ensures (1 + count) * step == count * step + step
  {}

  lemma PrefixHasNoMatch(s: Text, from: Text, a: nat)
    requires a <= |s| && !StartsWith(s, from)
    ensures !StartsWith(s[..a], from)
  {}

  /** Cutting a text at an uncut boundary keeps the later boundaries uncut. */
  lemma {:induction false} SuffixUncut(s: Text, from: Text, base: nat, a: nat, offset: nat)
    requires |from| > 0 && a <= |s| && !CutBy(Matches(s, from, base), base + a)
    requires !CutBy(Matches(s, from, base), offset)
    ensures !CutBy(Matches(s[a..], from, base + a), offset)
    decreases |s|
  {
    var ranges := Matches(s, from, base);
    if a == 0 {
      assert s[0..] == s;
    } else if StartsWith(s, from) {
      CutByTail(ranges, base + a);
      CutByTail(ranges, offset);
      SuffixUncut(s[|from|..], from, base + |from|, a - |from|, offset);
      assert s[|from|..][a - |from|..] == s[a..];
    } else {
      SuffixUncut(s[1..], from, base + 1, a - 1, offset);
      assert s[1..][a - 1..] == s[a..];
    }
  }

  // ---------- what is matched and replaced ----------

  /** The matches at or after `position`, as ranges of the whole text. */
  function MatchesFrom(s: Text, from: Text, position: nat): seq<(nat, nat)>
    requires |from| > 0 && position <= |s|
  {
    Matches(s[position..], from, position)
  }

  lemma MatchesStep(s: Text, from: Text, to: Text, position: nat)
    requires |from| > 0 && position < |s|
    ensures var found := position + |from| <= |s| && s[position..position + |from|] == from;
            && (found ==>
                  && MatchesFrom(s, from, position) ==
                     [(position, position + |from|)] + MatchesFrom(s, from, position + |from|)
                  && Replace(s[position..], from, to) == to + Replace(s[position + |from|..], from, to))
            && (!found ==>
                  && MatchesFrom(s, from, position) == MatchesFrom(s, from, position + 1)
                  && Replace(s[position..], from, to) == [s[position]] + Replace(s[position + 1..], from, to))
  {
    var t := s[position..];
    if |from| <= |t| {
      assert t[..|from|] == s[position..position + |from|];
      assert t[|from|..] == s[position + |from|..];
    }
    assert t[1..] == s[position + 1..];
  }

  ghost predicate InOrder(ranges: seq<(nat, nat)>, low: nat, high: nat) {
    && (forall k :: 0 <= k < |ranges| ==> low <= ranges[k].0 <= ranges[k].1 <= high)
    && (forall k, l :: 0 <= k < l < |ranges| ==> ranges[k].1 <= ranges[l].0)
  }

  /** The listed ranges hold the pattern, in order and disjoint. */
  lemma {:induction false} MatchesHoldPattern(s: Text, from: Text, position: nat)
    requires |from| > 0 && position <= |s|
    ensures InOrder(MatchesFrom(s, from, position), position, |s|)
    ensures forall r :: r in MatchesFrom(s, from, position) ==>
              r.0 < r.1 <= |s| && s[r.0..r.1] == from
    decreases |s| - position
  {
    if position < |s| {
      MatchesStep(s, from, from, position);
      if position + |from| <= |s| && s[position..position + |from|] == from {
        MatchesHoldPattern(s, from, position + |from|);
      } else {
        MatchesHoldPattern(s, from, position + 1);
      }
    }
  }

  /** Wherever the text holds the pattern there is a listed range: the place itself,
      or a match that begins before it and overlaps it. */
  lemma {:induction false} OccurrenceIsMatched(s: Text, from: Text, position: nat, i: nat)
    requires |from| > 0 && position <= i && i + |from| <= |s| && s[i..i + |from|] == from
    ensures exists r :: r in MatchesFrom(s, from, position) && r.0 <= i < r.1
    decreases |s| - position
  {
    MatchesStep(s, from, from, position);
    if position + |from| <= |s| && s[position..position + |from|] == from {
      if i < position + |from| {
        assert (position, position + |from|) in MatchesFrom(s, from, position);
      } else {
        OccurrenceIsMatched(s, from, position + |from|, i);
      }
    } else {
      OccurrenceIsMatched(s, from, position + 1, i);
    }
  }

  /** `s` from `position` on, with the ranges replaced. */
  function Spliced(s: Text, ranges: seq<(nat, nat)>, to: Text, position: nat): Text
    requires position <= |s| && InOrder(ranges, position, |s|)
    decreases |ranges|
  {
    if ranges == [] then s[position..]
    else s[position..ranges[0].0] + to + Spliced(s, ranges[1..], to, ranges[0].1)
  }

  lemma SpliceByte(s: Text, ranges: seq<(nat, nat)>, to: Text, position: nat)
    requires position < |s| && InOrder(ranges, position + 1, |s|)
    ensures Spliced(s, ranges, to, position) == [s[position]] + Spliced(s, ranges, to, position + 1)
  {
    if ranges == [] {
      assert s[position..] == [s[position]] + s[position + 1..];
    } else {
      var head, tail := s[position + 1..ranges[0].0], Spliced(s, ranges[1..], to, ranges[0].1);
      assert s[position..ranges[0].0] == [s[position]] + head;
      Regroup([s[position]], head, to);
      Regroup([s[position]], head + to, tail);
    }
  }

  lemma SpliceRange(s: Text, ranges: seq<(nat, nat)>, to: Text, position: nat, next: nat)
    requires position <= next <= |s| && InOrder(ranges, next, |s|)
    ensures InOrder([(position, next)] + ranges, position, |s|)
    ensures Spliced(s, [(position, next)] + ranges, to, position) == to + Spliced(s, ranges, to, next)
  {
    assert ([(position, next)] + ranges)[1..] == ranges;
    assert s[position..position] + to == to;
  }

  /** What ReplaceFrom states of one position. */
  ghost predicate IsSpliced(s: Text, from: Text, to: Text, position: nat)
    requires |from| > 0 && position <= |s|
  {
    var ranges := MatchesFrom(s, from, position);
    InOrder(ranges, position, |s|) && Replace(s[position..], from, to) == Spliced(s, ranges, to, position)
  }

  lemma SplicedAtMatch(s: Text, from: Text, to: Text, position: nat)
    requires |from| > 0 && position + |from| <= |s| && s[position..position + |from|] == from
    requires IsSpliced(s, from, to, position + |from|)
    ensures IsSpliced(s, from, to, position)
  {
    var next := position + |from|;
    var ranges := MatchesFrom(s, from, next);
    MatchesStep(s, from, to, position);
    SpliceRange(s, ranges, to, position, next);
    assert MatchesFrom(s, from, position) == [(position, next)] + ranges;
  }

  lemma SplicedAtByte(s: Text, from: Text, to: Text, position: nat)
    requires |from| > 0 && position < |s|
    requires !(position + |from| <= |s| && s[position..position + |from|] == from)
    requires IsSpliced(s, from, to, position + 1)
    ensures IsSpliced(s, from, to, position)
  {
    MatchesStep(s, from, to, position);
    SpliceByte(s, MatchesFrom(s, from, position + 1), to, position);
  }

  lemma {:induction false} ReplaceFrom(s: Text, from: Text, to: Text, position: nat)
    requires |from| > 0 && position <= |s|
    ensures IsSpliced(s, from, to, position)
    decreases |s| - position
  {
    if position < |s| {
      if position + |from| <= |s| && s[position..position + |from|] == from {
        ReplaceFrom(s, from, to, position + |from|);
        SplicedAtMatch(s, from, to, position);
      } else {
        ReplaceFrom(s, from, to, position + 1);
        SplicedAtByte(s, from, to, position);
      }
    }
  }

  /** Replacement is the text with exactly the listed ranges replaced: they hold the
      pattern, they are in order and disjoint, and they meet every place that holds
      the pattern. */
  lemma ReplaceIsSpliced(s: Text, from: Text, to: Text)
    requires |from| > 0
    ensures var ranges := Matches(s, from, 0);
            && InOrder(ranges, 0, |s|) && Replace(s, from, to) == Spliced(s, ranges, to, 0)
            && (forall r :: r in ranges ==> r.0 < r.1 <= |s| && s[r.0..r.1] == from)
            && (forall i, j | 0 <= i <= j <= |s| && s[i..j] == from :: exists r :: r in ranges && r.0 <= i < r.1)
  {
    assert s[0..] == s;
    ReplaceFrom(s, from, to, 0);
    MatchesHoldPattern(s, from, 0);
    forall i, j | 0 <= i <= j <= |s| && s[i..j] == from ensures exists r :: r in Matches(s, from, 0) && r.0 <= i < r.1 {
      assert j == i + |from|;
      OccurrenceIsMatched(s, from, 0, i);
    }
  }

  // ---------- the mapping ----------

  ghost function Moved(s: Text, from: Text, to: Text, offset: nat): nat
    requires |from| > 0 && offset <= |s|
  {
    |Replace(s[..offset], from, to)|
  }

  ghost predicate Uncut(s: Text, from: Text, span: Span)
    requires |from| > 0
  {
    !CutBy(Matches(s, from, 0), span.start) && !CutBy(Matches(s, from, 0), span.end)
  }

  predicate InText(s: Text, span: Span) {
    span.start <= span.end <= |s|
  }

  function At(s: Text, span: Span): Text
    requires InText(s, span)
  {
    s[span.start..span.end]
  }

  /** The text under a remapped span is the old text under it with the same
      replacement made. */
  lemma SpanFollowsText(s: Text, from: Text, to: Text, span: Span)
    requires |from| > 0 && InText(s, span) && Uncut(s, from, span)
    ensures var t := Replace(s, from, to);
            var moved := Span(Moved(s, from, to, span.start), Moved(s, from, to, span.end));
            InText(t, moved) && At(t, moved) == Replace(At(s, span), from, to)
  {
    var a, b := span.start, span.end;
    ReplaceSplits(s, from, to, 0, a);
    ReplaceSplits(s, from, to, 0, b);
    SuffixSplits(s, from, to, a, b);
    Middle(Replace(s[..a], from, to), Replace(s[a..b], from, to), Replace(s[b..], from, to), Replace(s[..b], from, to));
  }

  lemma SuffixSplits(s: Text, from: Text, to: Text, a: nat, b: nat)
    requires |from| > 0 && a <= b <= |s| && Uncut(s, from, Span(a, b))
    ensures Replace(s[a..], from, to) == Replace(s[a..b], from, to) + Replace(s[b..], from, to)
  {
    SuffixUncut(s, from, 0, a, b);
    Resliced(s, a, b);
    ReplaceSplits(s[a..], from, to, a, b - a);
  }

  lemma Middle(x: Text, y: Text, z: Text, w: Text)
    requires x + (y + z) == w + z
    ensures |w| == |x| + |y| && (w + z)[|x|..|w|] == y
  {
    assert |x + (y + z)| == |x| + |y| + |z|;
    assert (x + (y + z))[|x|..|x| + |y|] == y;
  }

  /** Two boundaries in order stay in order, and a non-empty text under a span
      stays non-empty when the replacement is not empty. */
  lemma {:induction false} ReplaceNonEmpty(s: Text, from: Text, to: Text)
    requires |from| > 0 && |to| > 0
    ensures Replace(s, from, to) != [] <==> s != []
  {}

  ghost predicate Ordered(spans: seq<Span>, length: nat) {
    && (forall i :: 0 <= i < |spans| ==> spans[i].start < spans[i].end <= length)
    && (forall i, j :: 0 <= i < j < |spans| ==> spans[i].end <= spans[j].start)
  }

  // ---------- character boundaries ----------

  predicate Continuation(b: Byte) { 0x80 <= b < 0xC0 }

  /** str::is_char_boundary */
  predicate Boundary(s: Text, i: nat) {
    i == 0 || i == |s| || (i < |s| && !Continuation(s[i]))
  }

  /** Not empty, and its first byte begins a character. */
  predicate StartsCharacter(s: Text) { s != [] && !Continuation(s[0]) }

  ghost predicate Bounded(spans: seq<Span>, s: Text) {
    forall i :: 0 <= i < |spans| ==> Boundary(s, spans[i].start) && Boundary(s, spans[i].end)
  }

  /** What the validator of a source contract demands of the spans of a unit. */
  ghost predicate Mapped(spans: seq<Span>, s: Text) { Ordered(spans, |s|) && Bounded(spans, s) }

  /** An uncut character boundary is moved to a character boundary. */
  lemma BoundaryKept(s: Text, from: Text, to: Text, a: nat)
    requires |from| > 0 && StartsCharacter(to) && a <= |s| && Boundary(s, a) && !CutBy(Matches(s, from, 0), a)
    ensures Boundary(Replace(s, from, to), Moved(s, from, to, a))
  {
    ReplaceSplits(s, from, to, 0, a);
    if a < |s| {
      var rest := Replace(s[a..], from, to);
      assert rest[0] == if StartsWith(s[a..], from) then to[0] else s[a];
      assert a == 0 ==> s[..a] == [];
    } else {
      assert s[a..] == [];
    }
  }

  ghost predicate AllUncut(s: Text, from: Text, spans: seq<Span>)
    requires |from| > 0
  {
    forall i :: 0 <= i < |spans| ==> Uncut(s, from, spans[i])
  }

  ghost predicate AllInText(s: Text, spans: seq<Span>) {
    forall i :: 0 <= i < |spans| ==> InText(s, spans[i])
  }

  ghost function MovedSpan(s: Text, from: Text, to: Text, span: Span): Span
    requires |from| > 0 && InText(s, span)
  {
    Span(Moved(s, from, to, span.start), Moved(s, from, to, span.end))
  }

  /** Remapped spans are ordered, disjoint, non-empty and in bounds again. */
  lemma SpansStayOrdered(s: Text, from: Text, to: Text, spans: seq<Span>, moved: seq<Span>)
    requires |from| > 0 && |to| > 0 && Ordered(spans, |s|) && AllUncut(s, from, spans)
    requires |moved| == |spans|
    requires forall i :: 0 <= i < |spans| ==> InText(s, spans[i]) && moved[i] == MovedSpan(s, from, to, spans[i])
    ensures Ordered(moved, |Replace(s, from, to)|)
  {
    forall i | 0 <= i < |spans| ensures moved[i].start < moved[i].end <= |Replace(s, from, to)| {
      SpanFollowsText(s, from, to, spans[i]);
      ReplaceNonEmpty(At(s, spans[i]), from, to);
    }
    forall i, j | 0 <= i < j < |spans| ensures moved[i].end <= moved[j].start {
      SpanFollowsText(s, from, to, Span(spans[i].end, spans[j].start));
    }
  }

  // ---------- the contract in place ----------

  /** One replacement, where an empty pattern replaces nothing. */
  function Rewritten(s: Text, from: Text, to: Text): Text {
    if from == [] then s else Replace(s, from, to)
  }

  function RewrittenAll(s: Text, aliases: seq<(Text, Text)>): Text
    decreases |aliases|
  {
    if aliases == [] then s
    else Rewritten(RewrittenAll(s, aliases[..|aliases| - 1]), aliases[|aliases| - 1].0, aliases[|aliases| - 1].1)
  }

  lemma {:induction false} ReplaceBySame(s: Text, from: Text)
    requires |from| > 0
    ensures Replace(s, from, from) == s
    decreases |s|
  {
    if s == [] {
    } else if StartsWith(s, from) {
      ReplaceBySame(s[|from|..], from);
    } else {
      ReplaceBySame(s[1..], from);
    }
  }

  lemma {:induction false} ReplaceNothing(s: Text, from: Text, to: Text, base: nat)
    requires |from| > 0 && Matches(s, from, base) == []
    ensures Replace(s, from, to) == s
    decreases |s|
  {
    if s != [] { ReplaceNothing(s[1..], from, to, base + 1); }
  }

  /** `moved` maps every span of `spans` in `s` to the rewritten text in `t`. */
  ghost predicate Follows(s: Text, spans: seq<Span>, t: Text, moved: seq<Span>, from: Text, to: Text) {
    && |moved| == |spans|
    && (forall i :: 0 <= i < |spans| ==>
          InText(s, spans[i]) && InText(t, moved[i]) && At(t, moved[i]) == Rewritten(At(s, spans[i]), from, to))
  }

  /** One offset of a span. */
  method ShiftOffset(s: Text, ranges: seq<(nat, nat)>, offset: nat, from: Text, to: Text)
    returns (r: Verdict, shifted: nat)
    requires |from| > 0 && offset <= |s| && ranges == Matches(s, from, 0)
    ensures !r.Overflow? && (r.Kept? <==> !CutBy(ranges, offset))
    ensures r.Kept? ==> shifted == Moved(s, from, to, offset)
  {
    r, shifted := Shift(ranges, offset, from, to);
    if !CutBy(ranges, offset) { ShiftIsLength(s, from, to, 0, offset); }
  }

  /** The remapping loop over the spans of one unit. */
  method ShiftSpans(s: Text, from: Text, to: Text, spans: seq<Span>) returns (r: Verdict, moved: seq<Span>)
    requires |from| > 0 && AllInText(s, spans)
    ensures !r.Overflow?
    ensures r.Kept? <==> AllUncut(s, from, spans)
    ensures r.Kept? ==> |moved| == |spans|
    ensures r.Kept? ==> forall i :: 0 <= i < |spans| ==> moved[i] == MovedSpan(s, from, to, spans[i])
  {
    var ranges := Matches(s, from, 0);
    moved := [];
    for i := 0 to |spans|
      invariant |moved| == i && AllUncut(s, from, spans[..i])
      invariant forall j :: 0 <= j < i ==> moved[j] == MovedSpan(s, from, to, spans[j])
    {
      var start, end;
      r, start := ShiftOffset(s, ranges, spans[i].start, from, to);
      if !r.Kept? { assert !Uncut(s, from, spans[i]); return; }
      r, end := ShiftOffset(s, ranges, spans[i].end, from, to);
      if !r.Kept? { assert !Uncut(s, from, spans[i]); return; }
      moved := moved + [Span(start, end)];
    }
    r := Kept;
  }

  ghost predicate UnitsInText(s: Text, units: seq<seq<Span>>) {
    forall u :: 0 <= u < |units| ==> AllInText(s, units[u])
  }

  /** A replacement is allowed if it does nothing or cuts no span. */
  ghost predicate Passes(s: Text, units: seq<seq<Span>>, from: Text, to: Text) {
    from == [] || from == to || forall u :: 0 <= u < |units| ==> AllUncut(s, from, units[u])
  }

  ghost function MovedSpans(s: Text, from: Text, to: Text, spans: seq<Span>): (moved: seq<Span>)
    requires |from| > 0 && AllInText(s, spans)
    ensures Remapped(s, from, to, spans, moved)
  {
    seq(|spans|, i requires 0 <= i < |spans| => MovedSpan(s, from, to, spans[i]))
  }

  ghost function MovedUnits(s: Text, units: seq<seq<Span>>, from: Text, to: Text): (moved: seq<seq<Span>>)
    requires UnitsInText(s, units)
  {
    if from == [] || from == to || Matches(s, from, 0) == [] then units
    else seq(|units|, u requires 0 <= u < |units| => MovedSpans(s, from, to, units[u]))
  }

  lemma MovedInText(s: Text, units: seq<seq<Span>>, from: Text, to: Text)
    requires UnitsInText(s, units) && Passes(s, units, from, to)
    ensures UnitsInText(Rewritten(s, from, to), MovedUnits(s, units, from, to))
  {
    var moved := MovedUnits(s, units, from, to);
    if from != [] && from == to {
      ReplaceBySame(s, from);
    } else if from != [] && Matches(s, from, 0) == [] {
      ReplaceNothing(s, from, to, 0);
    } else if from != [] {
      forall u | 0 <= u < |units| ensures AllInText(Replace(s, from, to), moved[u]) {
        RemappedFollows(s, from, to, units[u], moved[u]);
      }
    }
  }

  /** The text and spans after the aliases in turn, unless one of them would cut a
      span of the text rewritten so far. */
  ghost function Chain(s: Text, units: seq<seq<Span>>, aliases: seq<(Text, Text)>): (r: Option<(Text, seq<seq<Span>>)>)
    requires UnitsInText(s, units)
    ensures r.Some? ==> UnitsInText(r.value.0, r.value.1)
  {
    if aliases == [] then Some((s, units))
    else
      var (from, to) := aliases[|aliases| - 1];
      match Chain(s, units, aliases[..|aliases| - 1])
      case None => None
      case Some((t, moved)) =>
        if !Passes(t, moved, from, to) then None
        else
          MovedInText(t, moved, from, to);
          Some((Rewritten(t, from, to), MovedUnits(t, moved, from, to)))
  }

  /** Once an alias is refused, every longer list is. */
  lemma {:induction false} ChainStops(s: Text, units: seq<seq<Span>>, aliases: seq<(Text, Text)>, n: nat)
    requires UnitsInText(s, units) && n <= |aliases| && Chain(s, units, aliases[..n]).None?
    ensures Chain(s, units, aliases).None?
    decreases |aliases|
  {
    if n == |aliases| {
      assert aliases[..n] == aliases;
    } else {
      assert aliases[..|aliases| - 1][..n] == aliases[..n];
      ChainStops(s, units, aliases[..|aliases| - 1], n);
    }
  }

  /** The remapping of the cloned units. */
  method ShiftUnits(s: Text, units: seq<seq<Span>>, from: Text, to: Text) returns (r: Verdict, updated: seq<seq<Span>>)
    requires |from| > 0 && UnitsInText(s, units)
    ensures r == Kept || r == Cut
    ensures r.Kept? <==> forall u :: 0 <= u < |units| ==> AllUncut(s, from, units[u])
    ensures r.Kept? ==> |updated| == |units|
    ensures r.Kept? ==> forall u :: 0 <= u < |units| ==> updated[u] == MovedSpans(s, from, to, units[u])
  {
    updated := [];
    for u := 0 to |units|
      invariant |updated| == u
      invariant forall v :: 0 <= v < u ==>
                AllUncut(s, from, units[v]) && updated[v] == MovedSpans(s, from, to, units[v])
    {
      var moved;
      r, moved := ShiftSpans(s, from, to, units[u]);
      if !r.Kept? { return; }
      assert moved == MovedSpans(s, from, to, units[u]);
      updated := updated + [moved];
    }
    r := Kept;
  }

  lemma UnitsFollow(s: Text, units: seq<seq<Span>>, updated: seq<seq<Span>>, from: Text, to: Text)
    requires |from| > 0 && from != to && UnitsInText(s, units) && Matches(s, from, 0) != []
    requires forall u :: 0 <= u < |units| ==> AllUncut(s, from, units[u])
    requires |updated| == |units| && forall u :: 0 <= u < |units| ==> updated[u] == MovedSpans(s, from, to, units[u])
    ensures updated == MovedUnits(s, units, from, to) && UnitsInText(Replace(s, from, to), updated)
    ensures forall u :: 0 <= u < |units| ==> Follows(s, units[u], Replace(s, from, to), updated[u], from, to)
    ensures forall u :: 0 <= u < |units| ==>
              |to| > 0 && Ordered(units[u], |s|) ==> Ordered(updated[u], |Replace(s, from, to)|)
    ensures forall u :: 0 <= u < |units| ==>
              StartsCharacter(to) && Bounded(units[u], s) ==> Bounded(updated[u], Replace(s, from, to))
  {
    forall u | 0 <= u < |units|
      ensures Follows(s, units[u], Replace(s, from, to), updated[u], from, to)
      ensures AllInText(Replace(s, from, to), updated[u])
      ensures |to| > 0 && Ordered(units[u], |s|) ==> Ordered(updated[u], |Replace(s, from, to)|)
      ensures StartsCharacter(to) && Bounded(units[u], s) ==> Bounded(updated[u], Replace(s, from, to))
    {
      RemappedFollows(s, from, to, units[u], updated[u]);
    }
  }

  class RenderedSource<Digest(==)> {
    const hash: Text -> Digest
    var markdown: Text
    var units: seq<seq<Span>>
    var markdownSha: Digest

    /** What a validated source contract states about its mappings. */
    ghost predicate Valid()
      reads this
    {
      markdownSha == hash(markdown) && forall u :: 0 <= u < |units| ==> AllInText(markdown, units[u])
    }

    ghost predicate AllOrdered()
      reads this
    {
      forall u :: 0 <= u < |units| ==> Ordered(units[u], |markdown|)
    }

    ghost predicate AllBounded()
      reads this
    {
      forall u :: 0 <= u < |units| ==> Bounded(units[u], markdown)
    }

    constructor (hash: Text -> Digest, markdown: Text, units: seq<seq<Span>>)
      requires forall u :: 0 <= u < |units| ==> AllInText(markdown, units[u])
      ensures Valid() && this.hash == hash && this.markdown == markdown && this.units == units
    {
      this.hash, this.markdown, this.units, this.markdownSha := hash, markdown, units, hash(markdown);
    }

    method ReplaceRendered(from: Text, to: Text) returns (r: Verdict)
      requires Valid()
      modifies this`markdown, this`units, this`markdownSha
      ensures Valid()
      ensures r != Overflow
      ensures r.Kept? <==> Passes(old(markdown), old(units), from, to)
      ensures !r.Kept? ==> markdown == old(markdown) && units == old(units)
      ensures UnitsInText(old(markdown), old(units))
      ensures r.Kept? ==> markdown == Rewritten(old(markdown), from, to) && |units| == |old(units)|
      ensures r.Kept? ==> units == MovedUnits(old(markdown), old(units), from, to)
      ensures r.Kept? ==> forall u :: 0 <= u < |units| ==>
                Follows(old(markdown), old(units)[u], markdown, units[u], from, to)
      ensures r.Kept? && |to| > 0 && old(AllOrdered()) ==> AllOrdered()
      ensures r.Kept? && StartsCharacter(to) && old(AllBounded()) ==> AllBounded()
    {
      if from == [] || from == to {
        if from != [] { ReplaceAlready(markdown, from, units); }
        return Kept;
      }
      var ranges := Matches(markdown, from, 0);
      if ranges == [] {
        ReplaceNothing(markdown, from, to, 0);
        forall u | 0 <= u < |units| ensures Follows(markdown, units[u], markdown, units[u], from, to) {
          UntouchedFollows(markdown, from, to, units[u]);
        }
        return Kept;
      }
      var updated;
      r, updated := ShiftUnits(markdown, units, from, to);
      if !r.Kept? { return; }
      UnitsFollow(markdown, units, updated, from, to);
      markdown := Replace(markdown, from, to);
      units := updated;
      markdownSha := hash(markdown);
    }

    /** The alias loop of the image rewriter: each alias in turn, stopping at the
        first one that would cut a span of the text rewritten so far.  It succeeds
        exactly when none does. */
    method RewriteAliases(aliases: seq<(Text, Text)>) returns (r: Verdict)
      requires Valid() && AllOrdered()
      requires forall i :: 0 <= i < |aliases| ==> aliases[i].1 != []
      modifies this`markdown, this`units, this`markdownSha
      ensures Valid() && AllOrdered() && |units| == |old(units)|
      ensures (forall i :: 0 <= i < |aliases| ==> StartsCharacter(aliases[i].1)) && old(AllBounded()) ==> AllBounded()
      ensures UnitsInText(old(markdown), old(units))
      ensures r.Kept? <==> Chain(old(markdown), old(units), aliases).Some?
      ensures r.Kept? ==> Chain(old(markdown), old(units), aliases) == Some((markdown, units))
      ensures r.Kept? ==> markdown == RewrittenAll(old(markdown), aliases)
      ensures r.Kept? ==> forall u :: 0 <= u < |units| ==>
                FollowsAll(old(markdown), old(units)[u], markdown, units[u], aliases)
      ensures !r.Kept? ==> r == Cut
      ensures !r.Kept? ==>
                exists n :: 0 <= n < |aliases| && StoppedAt(old(markdown), old(units), aliases, n, markdown, units)
    {
      r := Kept;
      for i := 0 to |aliases|
        invariant Valid() && AllOrdered() && |units| == |old(units)| && r.Kept?
        invariant (forall j :: 0 <= j < |aliases| ==> StartsCharacter(aliases[j].1)) && old(AllBounded()) ==>
                  AllBounded()
        invariant Chain(old(markdown), old(units), aliases[..i]) == Some((markdown, units))
        invariant markdown == RewrittenAll(old(markdown), aliases[..i])
        invariant forall u :: 0 <= u < |units| ==>
                    FollowsAll(old(markdown), old(units)[u], markdown, units[u], aliases[..i])
      {
        ghost var before, spans := markdown, units;
        assert aliases[..i + 1][..i] == aliases[..i];
        r := ReplaceRendered(aliases[i].0, aliases[i].1);
        if !r.Kept? {
          ChainStops(old(markdown), old(units), aliases, i + 1);
          assert StoppedAt(old(markdown), old(units), aliases, i, markdown, units);
          return;
        }
        forall u | 0 <= u < |units|
          ensures FollowsAll(old(markdown), old(units)[u], markdown, units[u], aliases[..i + 1])
        {
          FollowsThen(old(markdown), old(units)[u], before, spans[u], markdown, units[u], aliases[..i + 1]);
        }
      }
      assert aliases[..|aliases|] == aliases;
    }
  }

  /** `t` and `moved` are what alias `n` found, and it would cut a span of them. */
  ghost predicate StoppedAt(s: Text, units: seq<seq<Span>>, aliases: seq<(Text, Text)>, n: nat, t: Text,
                            moved: seq<seq<Span>>)
    requires UnitsInText(s, units) && n < |aliases|
  {
    && Chain(s, units, aliases[..n]) == Some((t, moved)) && t == RewrittenAll(s, aliases[..n])
    && !Passes(t, moved, aliases[n].0, aliases[n].1)
  }

  ghost predicate Remapped(s: Text, from: Text, to: Text, spans: seq<Span>, moved: seq<Span>)
    requires |from| > 0 && AllInText(s, spans)
  {
    |moved| == |spans| && forall i :: 0 <= i < |spans| ==> moved[i] == MovedSpan(s, from, to, spans[i])
  }

  lemma RemappedBounded(s: Text, from: Text, to: Text, spans: seq<Span>, moved: seq<Span>)
    requires |from| > 0 && AllInText(s, spans) && AllUncut(s, from, spans) && Remapped(s, from, to, spans, moved)
    requires StartsCharacter(to) && Bounded(spans, s)
    ensures Bounded(moved, Replace(s, from, to))
  {
    forall i | 0 <= i < |spans|
      ensures Boundary(Replace(s, from, to), moved[i].start) && Boundary(Replace(s, from, to), moved[i].end)
    {
      assert Uncut(s, from, spans[i]);
      BoundaryKept(s, from, to, spans[i].start);
      BoundaryKept(s, from, to, spans[i].end);
    }
  }

  lemma RemappedFollows(s: Text, from: Text, to: Text, spans: seq<Span>, moved: seq<Span>)
    requires |from| > 0 && AllInText(s, spans) && AllUncut(s, from, spans) && Remapped(s, from, to, spans, moved)
    ensures Follows(s, spans, Replace(s, from, to), moved, from, to)
    ensures |to| > 0 && Ordered(spans, |s|) ==> Ordered(moved, |Replace(s, from, to)|)
    ensures StartsCharacter(to) && Bounded(spans, s) ==> Bounded(moved, Replace(s, from, to))
  {
    if StartsCharacter(to) && Bounded(spans, s) { RemappedBounded(s, from, to, spans, moved); }
    forall i | 0 <= i < |spans|
      ensures InText(Replace(s, from, to), moved[i])
      ensures At(Replace(s, from, to), moved[i]) == Replace(At(s, spans[i]), from, to)
    {
      SpanFollowsText(s, from, to, spans[i]);
    }
    if |to| > 0 && Ordered(spans, |s|) { SpansStayOrdered(s, from, to, spans, moved); }
  }

  lemma ReplaceAlready(s: Text, from: Text, units: seq<seq<Span>>)
    requires |from| > 0 && forall u :: 0 <= u < |units| ==> AllInText(s, units[u])
    ensures Replace(s, from, from) == s
    ensures forall u :: 0 <= u < |units| ==> Follows(s, units[u], s, units[u], from, from)
  {
    ReplaceBySame(s, from);
    forall u | 0 <= u < |units| ensures Follows(s, units[u], s, units[u], from, from) {
      forall i | 0 <= i < |units[u]| ensures At(s, units[u][i]) == Rewritten(At(s, units[u][i]), from, from) {
        ReplaceBySame(At(s, units[u][i]), from);
      }
    }
  }

  lemma UntouchedFollows(s: Text, from: Text, to: Text, spans: seq<Span>)
    requires |from| > 0 && AllInText(s, spans) && Matches(s, from, 0) == []
    ensures Follows(s, spans, s, spans, from, to)
  {
    forall i | 0 <= i < |spans| ensures At(s, spans[i]) == Rewritten(At(s, spans[i]), from, to) {
      UntouchedSpan(s, from, to, spans[i]);
    }
  }

  lemma {:induction false} PrefixUnmatched(s: Text, from: Text, base: nat, a: nat)
    requires |from| > 0 && a <= |s| && Matches(s, from, base) == []
    ensures Matches(s[..a], from, base) == []
    decreases |s|
  {
    if a > 0 {
      PrefixUnmatched(s[1..], from, base + 1, a - 1);
      PrefixHasNoMatch(s, from, a);
      assert s[..a][1..] == s[1..][..a - 1];
    }
  }

  lemma StaysPut(s: Text, from: Text, to: Text, offset: nat)
    requires |from| > 0 && offset <= |s| && Matches(s, from, 0) == []
    ensures Moved(s, from, to, offset) == offset
  {
    PrefixUnmatched(s, from, 0, offset);
    ReplaceNothing(s[..offset], from, to, 0);
  }

  lemma UntouchedSpan(s: Text, from: Text, to: Text, span: Span)
    requires |from| > 0 && InText(s, span) && Matches(s, from, 0) == []
    ensures Replace(At(s, span), from, to) == At(s, span)
  {
    ReplaceNothing(s, from, to, 0);
    SpanFollowsText(s, from, to, span);
    StaysPut(s, from, to, span.start);
    StaysPut(s, from, to, span.end);
  }

  ghost predicate FollowsAll(s: Text, spans: seq<Span>, t: Text, moved: seq<Span>, aliases: seq<(Text, Text)>) {
    && |moved| == |spans|
    && (forall i :: 0 <= i < |spans| ==>
          InText(s, spans[i]) && InText(t, moved[i]) && At(t, moved[i]) == RewrittenAll(At(s, spans[i]), aliases))
  }

  lemma FollowsThen(s: Text, spans: seq<Span>, t: Text, moved: seq<Span>, t': Text, moved': seq<Span>,
                    aliases: seq<(Text, Text)>)
    requires aliases != [] && FollowsAll(s, spans, t, moved, aliases[..|aliases| - 1])
    requires Follows(t, moved, t', moved', aliases[|aliases| - 1].0, aliases[|aliases| - 1].1)
    ensures FollowsAll(s, spans, t', moved', aliases)
  {}
}
