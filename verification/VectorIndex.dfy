/** Publishing a generation of vectors: the snapshot framing is injective, and a
    fence around the slow provider call lets a rebuild publish only vectors of the
    sources that are current when it publishes. */
module VectorIndex {
  import opened Wrappers
  import opened Bytes
  import opened Collections
  import opened Embedding

  // ---------- texts ----------

  function HexDigit(n: nat): Byte
    requires n < 16
  {
    if n < 10 then 48 + n else 87 + n
  }

  function Hex(s: seq<Byte>): (h: Text)
    ensures |h| == 2 * |s|
  {
    if s == [] then [] else Hex(s[..|s| - 1]) + [HexDigit(s[|s| - 1] / 16), HexDigit(s[|s| - 1] % 16)]
  }

  lemma ByteHexInjective(a: Byte, b: Byte)
    requires HexDigit(a / 16) == HexDigit(b / 16) && HexDigit(a % 16) == HexDigit(b % 16)
    ensures a == b
  {
    assert a == 16 * (a / 16) + a % 16 && b == 16 * (b / 16) + b % 16;
  }

  lemma HexSplits(s: seq<Byte>)
    requires s != []
    ensures var n, h := |s| - 1, Hex(s);
            h[..2 * n] == Hex(s[..n]) && h[2 * n] == HexDigit(s[n] / 16) && h[2 * n + 1] == HexDigit(s[n] % 16)
  {
  }

  lemma {:induction false} HexInjective(a: seq<Byte>, b: seq<Byte>)
    requires Hex(a) == Hex(b)
    ensures a == b
  {
    if a != [] {
      assert |a| == |b|;
      var n := |a| - 1;
      HexSplits(a);
      HexSplits(b);
      ByteHexInjective(a[n], b[n]);
      HexInjective(a[..n], b[..n]);
      assert a == a[..n] + [a[n]] && b == b[..n] + [b[n]];
    }
  }

  predicate IsId(id: Id) { id < Pow256(16) }

  /** The hyphenated text of a UUID. */
  function IdText(id: Id): (t: Text)
    ensures |t| == 36
  {
    var h := Hex(BigEndian(id, 16));
    h[..8] + [45] + h[8..12] + [45] + h[12..16] + [45] + h[16..20] + [45] + h[20..]
  }

  lemma IdTextHex(id: Id)
    ensures var t := IdText(id); Hex(BigEndian(id, 16)) == t[..8] + t[9..13] + t[14..18] + t[19..23] + t[24..]
  {
    var h, t := Hex(BigEndian(id, 16)), IdText(id);
    assert t[..8] == h[..8] && t[9..13] == h[8..12] && t[14..18] == h[12..16] && t[19..23] == h[16..20]
           && t[24..] == h[20..];
    assert h == h[..8] + h[8..12] + h[12..16] + h[16..20] + h[20..];
  }

  /** Hyphens stand at four places, and everything else are the digits of the id. */
  lemma IdTextLayout(id: Id)
    ensures var t := IdText(id);
            && t[8] == '-' as int && t[13] == '-' as int && t[18] == '-' as int && t[23] == '-' as int
            && t[..8] + t[9..13] + t[14..18] + t[19..23] + t[24..] == Hex(BigEndian(id, 16))
  {
    IdTextHex(id);
  }

  lemma DigitIsAscii(n: nat)
    requires n < 16
    ensures HexDigit(n) == "0123456789abcdef"[n] as int
  {
  }

  lemma IdTextInjective(a: Id, b: Id)
    requires IdText(a) == IdText(b) && IsId(a) && IsId(b)
    ensures a == b
  {
    IdTextHex(a);
    IdTextHex(b);
    HexInjective(BigEndian(a, 16), BigEndian(b, 16));
    BigEndianInjective(a, b, 16);
  }

  // ---------- the snapshot ----------

  type Hash = Text -> Text

  function Line(input: Input): Text { IdText(input.chunk) + [58] + input.digest + [10] }

  function Lines(inputs: seq<Input>): Text {
    if inputs == [] then [] else Lines(inputs[..|inputs| - 1]) + Line(inputs[|inputs| - 1])
  }

  function Framed(revision: Text, inputs: seq<Input>): Text { revision + [10] + Lines(inputs) }

  /** source_snapshot_sha256_v2 feeds the hasher piece by piece. */
  method SnapshotInput(revision: Text, inputs: seq<Input>) returns (fed: Text)
    ensures fed == Framed(revision, inputs)
  {
    fed := revision;
    fed := fed + [10];
    for n := 0 to |inputs|
      invariant fed == revision + [10] + Lines(inputs[..n])
    {
      ghost var before := fed;
      fed := fed + IdText(inputs[n].chunk);
      fed := fed + [58];
      fed := fed + inputs[n].digest;
      fed := fed + [10];
      assert inputs[..n + 1][..n] == inputs[..n];
      assert fed == before + Line(inputs[n]);
    }
    assert inputs[..|inputs|] == inputs;
  }

  ghost predicate FixedWidth(inputs: seq<Input>, width: nat) {
    forall i :: 0 <= i < |inputs| ==> |inputs[i].digest| == width && IsId(inputs[i].chunk)
  }

  /** Where the separators of the framed text stand: each line is 102 characters. */
  lemma LineLayout(revision: Text, inputs: seq<Input>, input: Input)
    requires |input.digest| == 64
    ensures var t := Framed(revision, inputs + [input]);
            var start := |t| - 102;
            && start > |revision| && t[..|revision|] == revision && t[|revision|] == '\n' as int
            && t[start..start + 36] == IdText(input.chunk) && t[start + 36] == ':' as int
            && t[start + 37..start + 101] == input.digest && t[start + 101] == '\n' as int
            && t[..start] == Framed(revision, inputs)
  {
    var before, line := Framed(revision, inputs), Line(input);
    assert (inputs + [input])[..|inputs|] == inputs;
    Regroup(revision + [10], Lines(inputs), line);
    assert line[..36] == IdText(input.chunk) && line[37..101] == input.digest;
    LastPart(before, line);
  }

  lemma LastPart(before: Text, line: Text)
    requires |line| == 102
    ensures (before + line)[..|before|] == before
    ensures forall i, j :: 0 <= i <= j <= 102 ==> (before + line)[|before| + i..|before| + j] == line[i..j]
  {
  }

  lemma LineLength(input: Input)
    ensures |Line(input)| == 38 + |input.digest|
  {
  }

  /** The chunk and the digest of an input, which is what the framing carries. */
  function Entry(input: Input): (Id, Text) { (input.chunk, input.digest) }

  ghost predicate SameEntries(a: seq<Input>, b: seq<Input>) {
    |a| == |b| && forall i :: 0 <= i < |a| ==> Entry(a[i]) == Entry(b[i])
  }

  lemma LineInjective(a: Input, b: Input)
    requires Line(a) == Line(b) && |a.digest| == |b.digest| && IsId(a.chunk) && IsId(b.chunk)
    ensures Entry(a) == Entry(b)
  {
    var x, y := Line(a), Line(b);
    var w := |a.digest|;
    assert x[..36] == IdText(a.chunk) && y[..36] == IdText(b.chunk);
    assert x[37..37 + w] == a.digest && y[37..37 + w] == b.digest;
    IdTextInjective(a.chunk, b.chunk);
  }

  lemma LastLine(a: seq<Input>, x: Input, b: seq<Input>, y: Input)
    requires Lines(a) + Line(x) == Lines(b) + Line(y) && |x.digest| == |y.digest|
    ensures Lines(a) == Lines(b) && Line(x) == Line(y)
  {
    LineLength(x);
    LineLength(y);
    var s, t := Lines(a) + Line(x), Lines(b) + Line(y);
    var k := |Lines(a)|;
    assert s[..k] == Lines(a) && t[..k] == Lines(b);
    assert s[k..] == Line(x) && t[k..] == Line(y);
  }

  lemma NoLines(a: seq<Input>)
    ensures Lines(a) == [] <==> a == []
  {
    if a != [] { LineLength(a[|a| - 1]); }
  }

  lemma SameEntriesSnoc(a: seq<Input>, b: seq<Input>)
    requires a != [] && b != []
    requires SameEntries(a[..|a| - 1], b[..|b| - 1]) && Entry(a[|a| - 1]) == Entry(b[|b| - 1])
    ensures SameEntries(a, b)
  {
    forall i | 0 <= i < |a| ensures Entry(a[i]) == Entry(b[i]) {
      if i < |a| - 1 { assert Entry(a[..|a| - 1][i]) == Entry(b[..|b| - 1][i]); }
    }
  }

  lemma {:induction false} LinesInjective(a: seq<Input>, b: seq<Input>, width: nat)
    requires Lines(a) == Lines(b) && FixedWidth(a, width) && FixedWidth(b, width)
    ensures SameEntries(a, b)
  {
    NoLines(a);
    NoLines(b);
    if a != [] {
      var x, y := a[|a| - 1], b[|b| - 1];
      LastLine(a[..|a| - 1], x, b[..|b| - 1], y);
      LinesInjective(a[..|a| - 1], b[..|b| - 1], width);
      LineInjective(x, y);
      SameEntriesSnoc(a, b);
    }
  }

  /** The framing is uniquely decodable: for revisions of one width and digests of
      one width, equal texts have equal revisions and equal ordered entries. */
  lemma FramingIsInjective(r: Text, a: seq<Input>, s: Text, b: seq<Input>, width: nat)
    requires |r| == |s| && FixedWidth(a, width) && FixedWidth(b, width)
    ensures Framed(r, a) == Framed(s, b) <==> r == s && SameEntries(a, b)
  {
    if Framed(r, a) == Framed(s, b) {
      assert Framed(r, a)[..|r|] == r && Framed(s, b)[..|r|] == s;
      assert Framed(r, a)[|r| + 1..] == Lines(a) && Framed(s, b)[|r| + 1..] == Lines(b);
      LinesInjective(a, b, width);
    }
    if r == s && SameEntries(a, b) { SameLines(a, b); }
  }

  lemma {:induction false} SameLines(a: seq<Input>, b: seq<Input>)
    requires SameEntries(a, b)
    ensures Lines(a) == Lines(b)
  {
    if a != [] {
      var n := |a| - 1;
      forall i | 0 <= i < n ensures Entry(a[..n][i]) == Entry(b[..n][i]) { assert Entry(a[i]) == Entry(b[i]); }
      SameLines(a[..n], b[..n]);
      assert Entry(a[n]) == Entry(b[n]);
    }
  }

  // ---------- the sources ----------

  datatype Chunk = Chunk(id: Id, header: Text, content: Text)

  /** `canonical` says that the stored revision artifact is canonical and has the
      bound digest. */
  datatype Binding = Binding(sha: Text, supported: bool, canonical: bool, revision: Revision)

  /** The committed rows of one product version: its indexed chunks in the order of
      their ids, and its binding. */
  datatype Source = Source(live: bool, binding: Option<Binding>, chunks: seq<Chunk>)

  function Canonical(c: Chunk): Text { c.header + [10] + c.content }

  /** The header, a line break and the content. */
  lemma CanonicalLayout(c: Chunk)
    ensures var t := Canonical(c);
            t[..|c.header|] == c.header && t[|c.header|] == '\n' as int && t[|c.header| + 1..] == c.content
  {
  }

  function InputOf(c: Chunk, sha: Hash): Input { Input(c.id, Canonical(c), sha(Canonical(c))) }

  function Inputs(chunks: seq<Chunk>, sha: Hash): (s: seq<Input>)
    ensures |s| == |chunks| && forall i :: 0 <= i < |s| ==> s[i] == InputOf(chunks[i], sha)
  {
    if chunks == [] then [] else Inputs(chunks[..|chunks| - 1], sha) + [InputOf(chunks[|chunks| - 1], sha)]
  }

  /** The aggregate the database computes over the current rows. */
  function Aggregate(chunks: seq<Chunk>, sha: Hash): Text {
    if chunks == [] then []
    else IdText(chunks[0].id) + [58] + sha(chunks[0].header + [10] + chunks[0].content) + [10]
         + Aggregate(chunks[1..], sha)
  }

  function DatabaseSnapshot(revision: Text, chunks: seq<Chunk>, sha: Hash): (Text, nat) {
    (sha(revision + [10] + Aggregate(chunks, sha)), |chunks|)
  }

  lemma LinesSnoc(a: seq<Input>, x: Input)
    ensures Lines(a + [x]) == Lines(a) + Line(x)
  {
    assert (a + [x])[..|a|] == a;
  }

  lemma {:induction false} LinesSplit(a: seq<Input>, b: seq<Input>)
    ensures Lines(a + b) == Lines(a) + Lines(b)
  {
    if b == [] {
      assert a + b == a;
    } else {
      var c, x := b[..|b| - 1], b[|b| - 1];
      assert a + b == a + c + [x];
      LinesSnoc(a + c, x);
      LinesSplit(a, c);
      Regroup(Lines(a), Lines(c), Line(x));
    }
  }

  lemma FirstLine(chunks: seq<Chunk>, sha: Hash)
    requires chunks != []
    ensures Aggregate(chunks, sha) == Line(InputOf(chunks[0], sha)) + Aggregate(chunks[1..], sha)
  {
  }

  lemma OneLine(x: Input)
    ensures Lines([x]) == Line(x)
  {
    assert [x][..0] == [];
  }

  /** The database's aggregate and the program's loop frame the same text. */
  lemma {:induction false} AggregateIsLines(chunks: seq<Chunk>, sha: Hash)
    ensures Aggregate(chunks, sha) == Lines(Inputs(chunks, sha))
  {
    if chunks != [] {
      var first := InputOf(chunks[0], sha);
      AggregateIsLines(chunks[1..], sha);
      var rest := Inputs(chunks[1..], sha);
      assert Inputs(chunks, sha) == [first] + rest;
      LinesSplit([first], rest);
      FirstLine(chunks, sha);
      OneLine(first);
    }
  }

  // ---------- the rebuild ----------

  datatype VectorRow = VectorRow(revision: Text, snapshot: Text, digest: Text, embedding: Vector)
  datatype Generation = Generation(revision: Text, snapshot: Text, count: nat)

  ghost predicate Bound(s: Source) { s.live && s.binding.Some? && s.binding.value.supported }

  ghost predicate Freezable(s: Source, sha: Hash) {
    Bound(s) && s.binding.value.canonical && InputsOk(Inputs(s.chunks, sha), sha)
  }

  function Snapshot(s: Source, revision: Text, sha: Hash): Text { sha(Framed(revision, Inputs(s.chunks, sha))) }

  ghost predicate AsExpected(s: Source, expected: Option<(Text, Text)>, pending: bool, sha: Hash)
    requires s.binding.Some?
  {
    expected.Some? ==> expected.value == (s.binding.value.sha, Snapshot(s, s.binding.value.sha, sha)) && !pending
  }

  /** The provider is not called for a version without inputs. */
  function Provided(s: Source, reply: Result<seq<Vector>, IndexError>): Result<seq<Vector>, IndexError> {
    if s.chunks == [] then Ok([]) else reply
  }

  ghost predicate VectorsFor(s: Source, reply: Result<seq<Vector>, IndexError>) {
    && Provided(s, reply).Ok? && |Provided(s, reply).value| == |s.chunks|
    && forall i :: 0 <= i < |s.chunks| ==> VectorOk(Provided(s, reply).value[i])
  }

  /** The re-read after the call finds the same binding, digest and count. */
  ghost predicate Fence(frozen: Source, current: Source, sha: Hash)
    requires frozen.binding.Some?
  {
    var revision := frozen.binding.value.sha;
    && Bound(current) && current.binding.value.sha == revision
    && DatabaseSnapshot(revision, current.chunks, sha) == (Snapshot(frozen, revision, sha), |frozen.chunks|)
  }

  ghost predicate Publishable(expected: Option<(Text, Text)>, frozen: Source, pending: bool,
                              reply: Result<seq<Vector>, IndexError>, current: Source, sha: Hash)
  {
    && Freezable(frozen, sha) && AsExpected(frozen, expected, pending, sha)
    && VectorsFor(frozen, reply) && Fence(frozen, current, sha)
  }

  function GenerationOf(s: Source, sha: Hash): Generation
    requires s.binding.Some?
  {
    Generation(s.binding.value.sha, Snapshot(s, s.binding.value.sha, sha), |s.chunks|)
  }

  function RowOf(inputs: seq<Input>, vectors: seq<Vector>, g: Generation, i: nat): VectorRow
    requires i < |inputs| <= |vectors|
  {
    VectorRow(g.revision, g.snapshot, inputs[i].digest, vectors[i])
  }

  function Rows(inputs: seq<Input>, vectors: seq<Vector>, g: Generation, n: nat): map<Id, VectorRow>
    requires n <= |inputs| <= |vectors|
  {
    if n == 0 then map[] else Rows(inputs, vectors, g, n - 1)[inputs[n - 1].chunk := RowOf(inputs, vectors, g, n - 1)]
  }

  /** Distinct chunks have one row each, the one built from their own input. */
  lemma {:induction false} RowsAreExact(inputs: seq<Input>, vectors: seq<Vector>, g: Generation, n: nat)
    requires n <= |inputs| <= |vectors|
    requires forall i, j :: 0 <= i < j < |inputs| ==> inputs[i].chunk != inputs[j].chunk
    ensures forall k :: k in Rows(inputs, vectors, g, n) <==> HasInput(inputs, n, k)
    ensures forall i :: 0 <= i < n ==> inputs[i].chunk in Rows(inputs, vectors, g, n)
    ensures forall i :: 0 <= i < n ==> Rows(inputs, vectors, g, n)[inputs[i].chunk] == RowOf(inputs, vectors, g, i)
  {
    if n > 0 { RowsAreExact(inputs, vectors, g, n - 1); }
  }

  /** The rows that publishing the answer for a source creates. */
  function RowsOf(s: Source, reply: Result<seq<Vector>, IndexError>, g: Generation, sha: Hash): map<Id, VectorRow>
    requires Provided(s, reply).Ok? && |Provided(s, reply).value| == |s.chunks|
  {
    Rows(Inputs(s.chunks, sha), Provided(s, reply).value, g, |s.chunks|)
  }

  method CheckVectors(vectors: seq<Vector>) returns (ok: bool)
    ensures ok <==> forall i :: 0 <= i < |vectors| ==> VectorOk(vectors[i])
  {
    for n := 0 to |vectors|
      invariant forall i :: 0 <= i < n ==> VectorOk(vectors[i])
    {
      var valid := ValidateVector(vectors[n]);
      if !valid { return false; }
    }
    ok := true;
  }

  /** freeze_vector_index_snapshot_v2 */
  method Freeze(s: Source, sha: Hash) returns (r: Result<(Text, seq<Input>, Text), IndexError>)
    ensures r.Ok? <==> Freezable(s, sha)
    ensures r.Ok? ==> r.value == (s.binding.value.sha, Inputs(s.chunks, sha), Snapshot(s, s.binding.value.sha, sha))
  {
    if !s.live || s.binding.None? || !s.binding.value.supported { return Err(InvalidConfiguration(Unbound)); }
    if !s.binding.value.canonical { return Err(InvalidConfiguration(BadArtifact)); }
    var inputs := Inputs(s.chunks, sha);
    var bounded := CheckInputs(inputs, sha);
    if bounded.Err? { return Err(bounded.error); }
    var fed := SnapshotInput(s.binding.value.sha, inputs);
    r := Ok((s.binding.value.sha, inputs, sha(fed)));
  }

  /** Everything before the re-read: the frozen inputs and a valid vector for each. */
  method Embedded(expected: Option<(Text, Text)>, frozen: Source, pending: bool,
                  reply: Result<seq<Vector>, IndexError>, sha: Hash)
    returns (r: Result<(Text, seq<Input>, Text, seq<Vector>), IndexError>)
    ensures r.Ok? <==> Freezable(frozen, sha) && AsExpected(frozen, expected, pending, sha) && VectorsFor(frozen, reply)
    ensures r.Ok? ==> r.value == (frozen.binding.value.sha, Inputs(frozen.chunks, sha),
                                  Snapshot(frozen, frozen.binding.value.sha, sha), Provided(frozen, reply).value)
  {
    var freeze := Freeze(frozen, sha);
    if freeze.Err? { return Err(freeze.error); }
    var (revision, inputs, snapshot) := freeze.value;
    if expected.Some? && expected.value != (revision, snapshot) { return Err(SnapshotChanged); }
    if expected.Some? && pending { return Err(PendingDerived); }
    var provided := if inputs == [] then Ok([]) else reply;
    if provided.Err? { return Err(provided.error); }
    if |provided.value| != |inputs| { return Err(Unavailable(PartialOutput)); }
    var valid := CheckVectors(provided.value);
    if !valid { return Err(Unavailable(InvalidVector)); }
    r := Ok((revision, inputs, snapshot, provided.value));
  }

  class IndexTables {
    var vectors: map<Id, map<Id, VectorRow>>
    var generations: map<Id, Generation>

    constructor ()
      ensures vectors == map[] && generations == map[]
    {
      vectors, generations := map[], map[];
    }

    /** Delete the version's rows, insert the new ones, and record the generation. */
    method Publish(version: Id, inputs: seq<Input>, embeddings: seq<Vector>, g: Generation)
      requires |inputs| == |embeddings|
      modifies this
      ensures vectors == old(vectors)[version := Rows(inputs, embeddings, g, |inputs|)]
      ensures generations == old(generations)[version := g]
    {
      vectors := vectors[version := map[]];
      for n := 0 to |inputs|
        invariant vectors == old(vectors)[version := Rows(inputs, embeddings, g, n)]
        invariant generations == old(generations)
      {
        var row := VectorRow(g.revision, g.snapshot, inputs[n].digest, embeddings[n]);
        vectors := vectors[version := vectors[version][inputs[n].chunk := row]];
      }
      generations := generations[version := g];
    }

    /** One rebuild of `version`.  The source is read as `frozen`, then the provider
        answers `reply` while anything may change, and the source is read again,
        locked, as `current`.  Any failure leaves both tables as they were. */
    method Rebuild(version: Id, expected: Option<(Text, Text)>, frozen: Source, pending: bool,
                   reply: Result<seq<Vector>, IndexError>, current: Source, sha: Hash)
      returns (r: Result<Generation, IndexError>)
      modifies this
      ensures r.Ok? <==> Publishable(expected, frozen, pending, reply, current, sha)
      ensures r.Err? ==> vectors == old(vectors) && generations == old(generations)
      ensures r.Ok? ==>
                && r.value.revision == frozen.binding.value.sha && r.value.count == |frozen.chunks|
                && r.value.snapshot == sha(Framed(frozen.binding.value.sha, Inputs(frozen.chunks, sha)))
                && r.value == GenerationOf(frozen, sha) && generations == old(generations)[version := r.value]
                && vectors == old(vectors)[version := RowsOf(frozen, reply, r.value, sha)]
    {
      var embedded := Embedded(expected, frozen, pending, reply, sha);
      if embedded.Err? { return Err(embedded.error); }
      var (revision, inputs, snapshot, embeddings) := embedded.value;
      if !current.live || current.binding.None? || current.binding.value.sha != revision
         || !current.binding.value.supported
      {
        return Err(InvalidConfiguration(UnsupportedBinding));
      }
      var (actual, count) := DatabaseSnapshot(revision, current.chunks, sha);
      if actual != snapshot || count != |inputs| { return Err(SnapshotChanged); }
      var g := Generation(revision, snapshot, |inputs|);
      Publish(version, inputs, embeddings, g);
      r := Ok(g);
    }
  }

  // ---------- what is published ----------

  ghost predicate Distinguishes(sha: Hash, x: Text, y: Text) { sha(x) == sha(y) ==> x == y }

  /** No collision of the hash between the two reads: neither on the whole snapshot
      texts nor on the canonical inputs standing at one place. */
  ghost predicate Separated(frozen: Source, current: Source, revision: Text, sha: Hash) {
    && Distinguishes(sha, Framed(revision, Inputs(frozen.chunks, sha)), Framed(revision, Inputs(current.chunks, sha)))
    && forall i :: 0 <= i < |frozen.chunks| && i < |current.chunks| ==>
         Distinguishes(sha, Canonical(frozen.chunks[i]), Canonical(current.chunks[i]))
  }

  ghost predicate Digests(sha: Hash) { forall t :: |sha(t)| == 64 }

  ghost predicate KnownIds(s: Source) { forall i :: 0 <= i < |s.chunks| ==> IsId(s.chunks[i].id) }

  ghost predicate SameSources(a: Source, b: Source) {
    && |a.chunks| == |b.chunks|
    && forall i :: 0 <= i < |a.chunks| ==>
       a.chunks[i].id == b.chunks[i].id && Canonical(a.chunks[i]) == Canonical(b.chunks[i])
  }

  lemma InputsFixed(s: Source, sha: Hash)
    requires Digests(sha) && KnownIds(s)
    ensures FixedWidth(Inputs(s.chunks, sha), 64)
  {
  }

  /** The fence passes exactly when the second read has the chunks of the first,
      with the same canonical inputs, under the same supported binding. */
  lemma FenceIsExact(frozen: Source, current: Source, sha: Hash)
    requires frozen.binding.Some? && Digests(sha) && KnownIds(frozen) && KnownIds(current)
    requires Separated(frozen, current, frozen.binding.value.sha, sha)
    ensures Fence(frozen, current, sha) <==>
            Bound(current) && current.binding.value.sha == frozen.binding.value.sha && SameSources(frozen, current)
  {
    var revision := frozen.binding.value.sha;
    var a, b := Inputs(frozen.chunks, sha), Inputs(current.chunks, sha);
    AggregateIsLines(current.chunks, sha);
    InputsFixed(frozen, sha);
    InputsFixed(current, sha);
    FramingIsInjective(revision, a, revision, b, 64);
    SameEntriesIff(frozen, current, revision, sha);
  }

  lemma SameEntriesIff(frozen: Source, current: Source, revision: Text, sha: Hash)
    requires Separated(frozen, current, revision, sha)
    ensures SameEntries(Inputs(frozen.chunks, sha), Inputs(current.chunks, sha)) <==> SameSources(frozen, current)
  {
    var a, b := Inputs(frozen.chunks, sha), Inputs(current.chunks, sha);
    if SameEntries(a, b) {
      forall i | 0 <= i < |frozen.chunks|
        ensures frozen.chunks[i].id == current.chunks[i].id
                && Canonical(frozen.chunks[i]) == Canonical(current.chunks[i])
      {
        assert Entry(a[i]) == Entry(b[i]);
        assert Distinguishes(sha, Canonical(frozen.chunks[i]), Canonical(current.chunks[i]));
      }
    }
    if SameSources(frozen, current) {
      forall i | 0 <= i < |a| ensures Entry(a[i]) == Entry(b[i]) {
        assert frozen.chunks[i].id == current.chunks[i].id;
      }
    }
  }

  ghost predicate HasChunk(s: Source, id: Id) { exists i :: 0 <= i < |s.chunks| && s.chunks[i].id == id }

  /** `rows` holds one valid row per chunk of `s`, with the digest of its text. */
  ghost predicate RowsFor(s: Source, rows: map<Id, VectorRow>, vectors: seq<Vector>, g: Generation, sha: Hash) {
    && |vectors| == |s.chunks|
    && (forall k :: k in rows <==> HasChunk(s, k))
    && (forall i :: 0 <= i < |s.chunks| ==>
          && VectorOk(vectors[i]) && s.chunks[i].id in rows
          && rows[s.chunks[i].id] == VectorRow(g.revision, g.snapshot, sha(Canonical(s.chunks[i])), vectors[i]))
  }

  lemma InputsFollow(frozen: Source, current: Source, sha: Hash, i: nat)
    requires SameSources(frozen, current) && i < |current.chunks|
    ensures var input := Inputs(frozen.chunks, sha)[i];
            input.chunk == current.chunks[i].id && input.digest == sha(Canonical(current.chunks[i]))
  {
    assert frozen.chunks[i].id == current.chunks[i].id;
  }

  lemma RowKeys(frozen: Source, current: Source, rows: map<Id, VectorRow>, sha: Hash, k: Id)
    requires SameSources(frozen, current)
    requires var inputs := Inputs(frozen.chunks, sha); k in rows <==> HasInput(inputs, |inputs|, k)
    ensures k in rows <==> HasChunk(current, k)
  {
    var inputs := Inputs(frozen.chunks, sha);
    if i :| 0 <= i < |inputs| && inputs[i].chunk == k {
      InputsFollow(frozen, current, sha, i);
      assert current.chunks[i].id == k;
    }
    if i :| 0 <= i < |current.chunks| && current.chunks[i].id == k {
      InputsFollow(frozen, current, sha, i);
      assert inputs[i].chunk == k;
    }
  }

  lemma RowsFollow(frozen: Source, current: Source, vectors: seq<Vector>, g: Generation, sha: Hash)
    requires SameSources(frozen, current) && InputsOk(Inputs(frozen.chunks, sha), sha)
    requires |vectors| == |frozen.chunks| && forall i :: 0 <= i < |vectors| ==> VectorOk(vectors[i])
    ensures RowsFor(current, Rows(Inputs(frozen.chunks, sha), vectors, g, |frozen.chunks|), vectors, g, sha)
  {
    var inputs := Inputs(frozen.chunks, sha);
    var rows := Rows(inputs, vectors, g, |inputs|);
    RowsAreExact(inputs, vectors, g, |inputs|);
    forall k ensures k in rows <==> HasChunk(current, k) { RowKeys(frozen, current, rows, sha, k); }
    forall i | 0 <= i < |current.chunks|
      ensures current.chunks[i].id in rows
      ensures rows[current.chunks[i].id] ==
              VectorRow(g.revision, g.snapshot, sha(Canonical(current.chunks[i])), vectors[i])
    {
      InputsFollow(frozen, current, sha, i);
      assert rows[inputs[i].chunk] == RowOf(inputs, vectors, g, i);
    }
  }

  lemma SameGeneration(frozen: Source, current: Source, sha: Hash)
    requires frozen.binding.Some? && Fence(frozen, current, sha)
    ensures GenerationOf(frozen, sha) == GenerationOf(current, sha)
  {
    AggregateIsLines(current.chunks, sha);
  }

  /** Whatever changed between freezing and publishing, what a rebuild publishes
      is one row per current chunk, with the digest of its current text, the
      provider's vector for it, and the current snapshot. */
  lemma PublishedIsCurrent(expected: Option<(Text, Text)>, frozen: Source, pending: bool,
                           reply: Result<seq<Vector>, IndexError>, current: Source, sha: Hash)
    requires Publishable(expected, frozen, pending, reply, current, sha)
    requires Digests(sha) && KnownIds(frozen) && KnownIds(current)
    requires Separated(frozen, current, frozen.binding.value.sha, sha)
    ensures Bound(current) && GenerationOf(frozen, sha) == GenerationOf(current, sha)
    ensures var rows := RowsOf(frozen, reply, GenerationOf(frozen, sha), sha);
            RowsFor(current, rows, Provided(current, reply).value, GenerationOf(current, sha), sha)
  {
    FenceIsExact(frozen, current, sha);
    SameGeneration(frozen, current, sha);
    var vectors := Provided(frozen, reply).value;
    RowsFollow(frozen, current, vectors, GenerationOf(frozen, sha), sha);
  }

  /** The call that embeds the inputs of a frozen source. */
  function CallFor(s: Source, credential: string, sent: Transport, sha: Hash): Call
    requires s.binding.Some?
  {
    Call(s.binding.value.revision, credential, Inputs(s.chunks, sha), sent)
  }

  /** The row of every chunk of `s` holds the vector that the provider tagged with
      the place of the chunk's own canonical text in the request that carried it. */
  ghost predicate RowsAnswer(s: Source, rows: map<Id, VectorRow>, call: Call) {
    && |call.inputs| == |s.chunks|
    && forall i :: 0 <= i < |s.chunks| ==>
         && s.chunks[i].id in rows
         && AnswersText(call.RequestAt(i / BATCH), call.ReplyTo(i / BATCH), i % BATCH, Canonical(s.chunks[i]),
                        rows[s.chunks[i].id].embedding)
  }

  lemma AnsweredRows(frozen: Source, current: Source, rows: map<Id, VectorRow>, vectors: seq<Vector>, g: Generation,
                     call: Call, sha: Hash)
    requires SameSources(frozen, current) && call.inputs == Inputs(frozen.chunks, sha)
    requires RowsFor(current, rows, vectors, g, sha) && AlignedAll(call, vectors)
    ensures RowsAnswer(current, rows, call)
  {
    forall i | 0 <= i < |current.chunks|
      ensures current.chunks[i].id in rows
      ensures AnswersText(call.RequestAt(i / BATCH), call.ReplyTo(i / BATCH), i % BATCH, Canonical(current.chunks[i]),
                          rows[current.chunks[i].id].embedding)
    {
      assert AlignedAt(call, i, vectors[i]);
      assert call.inputs[i] == InputOf(frozen.chunks[i], sha);
    }
  }

  /** What PublishedIsCurrent says, with the provider's answers. */
  lemma RowsAnswerCurrent(expected: Option<(Text, Text)>, frozen: Source, pending: bool,
                          reply: Result<seq<Vector>, IndexError>, current: Source,
                          credential: Result<string, IndexError>, sent: Transport, sha: Hash)
    requires Publishable(expected, frozen, pending, reply, current, sha)
    requires Digests(sha) && KnownIds(frozen) && KnownIds(current)
    requires Separated(frozen, current, frozen.binding.value.sha, sha)
    requires frozen.chunks != [] ==>
               credential.Ok? && AlignedAll(CallFor(frozen, credential.value, sent, sha), reply.value)
    ensures Bound(current) && GenerationOf(frozen, sha) == GenerationOf(current, sha)
    ensures var rows := RowsOf(frozen, reply, GenerationOf(frozen, sha), sha);
            && (forall k :: k in rows <==> HasChunk(current, k))
            && (current.chunks != [] ==>
                  credential.Ok? && RowsAnswer(current, rows, CallFor(frozen, credential.value, sent, sha)))
  {
    PublishedIsCurrent(expected, frozen, pending, reply, current, sha);
    FenceIsExact(frozen, current, sha);
    var rows := RowsOf(frozen, reply, GenerationOf(frozen, sha), sha);
    if current.chunks != [] {
      AnsweredRows(frozen, current, rows, reply.value, GenerationOf(frozen, sha),
                   CallFor(frozen, credential.value, sent, sha), sha);
    }
  }

  /** There is nothing to embed, or the call is admitted and every request of it is
      answered well. */
  ghost predicate Embeddable(s: Source, credential: Result<string, IndexError>, sent: Transport, sha: Hash)
    requires s.binding.Some?
  {
    s.chunks == []
    || (Admitted(s.binding.value.revision, Inputs(s.chunks, sha), credential, sha)
        && AllAnswered(CallFor(s, credential.value, sent, sha), Batches(|s.chunks|)))
  }

  /** A provider's answer is usable exactly when the source is embeddable. */
  lemma EmbeddableIff(s: Source, credential: Result<string, IndexError>, sent: Transport, sha: Hash,
                      reply: Result<seq<Vector>, IndexError>)
    requires s.binding.Some?
    requires s.chunks != [] ==> (reply.Ok? <==> Embeddable(s, credential, sent, sha))
    requires s.chunks != [] && reply.Ok? ==>
               |reply.value| == |s.chunks| && AlignedAll(CallFor(s, credential.value, sent, sha), reply.value)
    ensures VectorsFor(s, reply) <==> Embeddable(s, credential, sent, sha)
  {
    if s.chunks != [] && reply.Ok? {
      forall i | 0 <= i < |reply.value| ensures VectorOk(reply.value[i]) {
        assert AlignedAt(CallFor(s, credential.value, sent, sha), i, reply.value[i]);
      }
    }
  }

  /** Embedding and publishing together: it succeeds exactly when the source can be
      frozen, is the expected one and can be embedded, and the fence holds.  Whatever changed during the provider's
      work, a rebuild that succeeds leaves, for every current chunk, the vector
      the provider tagged for that chunk's current text.  The provider's answers
      are given in advance, so it does not matter that it is asked before the
      checks that may refuse the rebuild. */
  method RebuildWithProvider(tables: IndexTables, version: Id, expected: Option<(Text, Text)>, frozen: Source,
                             pending: bool, credential: Result<string, IndexError>, sent: Transport,
                             current: Source, sha: Hash)
    returns (r: Result<Generation, IndexError>)
    modifies tables
    ensures r.Ok? <==> && Freezable(frozen, sha) && AsExpected(frozen, expected, pending, sha)
                       && Embeddable(frozen, credential, sent, sha) && Fence(frozen, current, sha)
    ensures r.Err? ==> tables.vectors == old(tables.vectors) && tables.generations == old(tables.generations)
    ensures r.Ok? ==> && Bound(frozen) && version in tables.vectors
                      && tables.vectors == old(tables.vectors)[version := tables.vectors[version]]
                      && tables.generations == old(tables.generations)[version := r.value]
    ensures r.Ok? && Digests(sha) && KnownIds(frozen) && KnownIds(current)
            && Separated(frozen, current, frozen.binding.value.sha, sha) ==>
              && Bound(current) && r.value == GenerationOf(current, sha)
              && (forall k :: k in tables.vectors[version] <==> HasChunk(current, k))
              && (current.chunks != [] ==>
                    credential.Ok? && RowsAnswer(current, tables.vectors[version],
                                                 CallFor(frozen, credential.value, sent, sha)))
  {
    if !frozen.live || frozen.binding.None? || !frozen.binding.value.supported {
      return Err(InvalidConfiguration(Unbound));
    }
    var inputs := Inputs(frozen.chunks, sha);
    var reply := EmbedBatch(frozen.binding.value.revision, inputs, credential, sent, sha);
    EmbeddableIff(frozen, credential, sent, sha, reply);
    r := tables.Rebuild(version, expected, frozen, pending, reply, current, sha);
    if r.Ok? && Digests(sha) && KnownIds(frozen) && KnownIds(current)
       && Separated(frozen, current, frozen.binding.value.sha, sha)
    {
      RowsAnswerCurrent(expected, frozen, pending, reply, current, credential, sent, sha);
    }
  }
}
