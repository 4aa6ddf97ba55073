/** The embedding client: input bounds, batches of 64 and the reordering of each
    response by the index the provider put on every vector. */
module Embedding {
  import opened Wrappers
  import opened Bytes
  import opened Collections

  type Bits = x: int | 0 <= x < 0x1_0000_0000

  /** A vector of IEEE 754 singles, each its bit pattern. */
  type Vector = seq<Bits>
  type Id = nat
  type Text = seq<Byte>

  const DIMENSION := 1024
  const BATCH := 64
  const MAX_INPUTS := 16384
  const MAX_INPUT_BYTES := 1024 * 1024
  const MAX_REQUEST_BYTES := 8 * 1024 * 1024
  const MAX_BATCH_BYTES := 64 * 1024 * 1024
  const MAX_TOTAL_BYTES := 256 * 1024 * 1024

  datatype Configuration =
    | BadRevision | InsecureEndpoint | TooManyInputs | InputTooLarge | RequestTooLarge | DuplicateChunk
    | DigestMismatch | NoCredential | Rejected | ResponseIdentity | Unbound | BadArtifact | UnsupportedBinding
  datatype Outage =
    | Transport | ServerStatus | ResponseTooLarge | TotalTooLarge | MalformedJson | PartialResponse | BadIndex
    | InvalidVector | MissingIndex | PartialOutput
  datatype IndexError =
    | InvalidConfiguration(why: Configuration) | Unavailable(what: Outage) | PendingDerived | SnapshotChanged

  datatype Revision = Revision(valid: bool, endpoint: string, model: string, modelSha: string, configSha: string)
  datatype Input = Input(chunk: Id, canonical: Text, digest: Text)

  datatype Datum = Datum(index: nat, embedding: Vector)
  datatype Response = Response(data: seq<Datum>, model: string, modelSha: string, configSha: string)

  /** What one send returned: `body` is absent when its bytes are not the expected JSON. */
  datatype Reply = Reply(status: nat, contentLength: Option<nat>, size: nat, body: Option<Response>)

  // ---------- one vector ----------

  /** The exponent field of a single, and the fraction field. */
  function Exponent(bits: Bits): nat { bits / 0x80_0000 % 256 }
  function Fraction(bits: Bits): nat { bits % 0x80_0000 }

  /** A single is its sign, its exponent and its fraction (IEEE 754, binary32). */
  lemma SingleFields(sign: nat, exponent: nat, fraction: nat)
    requires sign < 2 && exponent < 256 && fraction < 0x80_0000
    ensures var bits := sign * 0x8000_0000 + exponent * 0x80_0000 + fraction;
            bits < 0x1_0000_0000 && Exponent(bits) == exponent && Fraction(bits) == fraction
  {
    var bits := sign * 0x8000_0000 + exponent * 0x80_0000 + fraction;
    assert bits / 0x80_0000 == sign * 256 + exponent;
  }

  predicate IsFinite(bits: Bits) { bits / 0x80_0000 % 256 != 255 }
  predicate IsZero(bits: Bits) { bits % 0x8000_0000 == 0 }

  /** Not an infinity and not NaN; and neither zero of the two. */
  lemma SingleClasses(bits: Bits)
    ensures IsFinite(bits) <==> Exponent(bits) != 255
    ensures IsZero(bits) <==> Exponent(bits) == 0 && Fraction(bits) == 0
  {
  }

  /** 1024 finite components, not all of them zero. */
  ghost predicate VectorOk(v: Vector) {
    && |v| == 1024 && (forall i :: 0 <= i < |v| ==> Exponent(v[i]) != 255)
    && (exists i :: 0 <= i < |v| && (Exponent(v[i]) != 0 || Fraction(v[i]) != 0))
  }

  method ValidateVector(v: Vector) returns (ok: bool)
    ensures ok <==> VectorOk(v)
  {
    if |v| != DIMENSION { return false; }
    var zero := true;
    for n := 0 to |v|
      invariant forall i :: 0 <= i < n ==> Exponent(v[i]) != 255
      invariant zero <==> forall i :: 0 <= i < n ==> Exponent(v[i]) == 0 && Fraction(v[i]) == 0
    {
      SingleClasses(v[n]);
      if !IsFinite(v[n]) { return false; }
      if !IsZero(v[n]) { zero := false; }
    }
    ok := !zero;
  }

  // ---------- one batch ----------

  ghost predicate Identified(response: Response, revision: Revision) {
    response.model == revision.model && response.modelSha == revision.modelSha
    && response.configSha == revision.configSha
  }

  /** The indices are 0 to n - 1, each once. */
  ghost predicate Permuted(data: seq<Datum>, n: nat) {
    && |data| == n && (forall i :: 0 <= i < n ==> data[i].index < n)
    && (forall i, j :: 0 <= i < j < n ==> data[i].index != data[j].index)
  }

  ghost predicate BatchOk(body: Option<Response>, revision: Revision, n: nat) {
    && body.Some? && Identified(body.value, revision) && Permuted(body.value.data, n)
    && forall i :: 0 <= i < n ==> VectorOk(body.value.data[i].embedding)
  }

  /** `v` is the vector the response tagged `i`. */
  ghost predicate Tagged(data: seq<Datum>, i: nat, v: Vector) {
    exists j :: 0 <= j < |data| && data[j].index == i && data[j].embedding == v
  }

  ghost function Indices(data: seq<Datum>): set<nat> { set d | d in data :: d.index }

  lemma {:induction false} DistinctSize(data: seq<Datum>)
    requires forall i, j :: 0 <= i < j < |data| ==> data[i].index != data[j].index
    ensures |Indices(data)| == |data|
  {
    if data != [] {
      var n := |data| - 1;
      DistinctSize(data[..n]);
      assert data == data[..n] + [data[n]];
      assert Indices(data) == Indices(data[..n]) + {data[n].index};
    }
  }

  /** n distinct indices below n leave none out. */
  lemma NoneMissing(data: seq<Datum>, n: nat, i: nat)
    requires Permuted(data, n) && i < n
    ensures exists j :: 0 <= j < n && data[j].index == i
  {
    DistinctSize(data);
    var all := Interval(0, n);
    assert Indices(data) <= all;
    assert all == Indices(data) + (all - Indices(data));
    assert i in Indices(data);
  }

  /** Slot `i` after the first `n` data. */
  ghost predicate Slot(data: seq<Datum>, n: nat, i: nat, slot: Option<Vector>)
    requires n <= |data|
  {
    && (slot.Some? ==> Tagged(data[..n], i, slot.value))
    && (slot.None? ==> forall j :: 0 <= j < n ==> data[j].index != i)
  }

  lemma SlotNext(data: seq<Datum>, n: nat, i: nat, before: Option<Vector>, after: Option<Vector>)
    requires n < |data| && Slot(data, n, i, before)
    requires after == if data[n].index == i then Some(data[n].embedding) else before
    ensures Slot(data, n + 1, i, after)
  {
    if data[n].index == i {
      assert data[..n + 1][n].index == i;
    } else if before.Some? {
      var j :| 0 <= j < n && data[..n][j].index == i && data[..n][j].embedding == before.value;
      assert data[..n + 1][j] == data[j];
    }
  }

  ghost predicate Slots(data: seq<Datum>, n: nat, slots: seq<Option<Vector>>)
    requires n <= |data|
  {
    forall i :: 0 <= i < |slots| ==> Slot(data, n, i, slots[i])
  }

  /** The first `n` data were accepted. */
  ghost predicate Accepted(data: seq<Datum>, n: nat)
    requires n <= |data|
  {
    && (forall i, j :: 0 <= i < j < n ==> data[i].index != data[j].index)
    && (forall i :: 0 <= i < n ==> data[i].index < |data| && VectorOk(data[i].embedding))
  }

  lemma Fill(data: seq<Datum>, n: nat, slots: seq<Option<Vector>>)
    requires n < |data| == |slots| && Slots(data, n, slots) && Accepted(data, n)
    requires data[n].index < |data| && slots[data[n].index].None? && VectorOk(data[n].embedding)
    ensures Slots(data, n + 1, slots[data[n].index := Some(data[n].embedding)]) && Accepted(data, n + 1)
  {
    var next := slots[data[n].index := Some(data[n].embedding)];
    assert Slot(data, n, data[n].index, slots[data[n].index]);
    forall i | 0 <= i < |slots| ensures Slot(data, n + 1, i, next[i]) { SlotNext(data, n, i, slots[i], next[i]); }
  }

  lemma Refuse(data: seq<Datum>, n: nat, slots: seq<Option<Vector>>)
    requires n < |data| == |slots| && Slots(data, n, slots)
    requires data[n].index >= |data| || slots[data[n].index].Some?
    ensures !Permuted(data, |data|)
  {
    if data[n].index < |data| {
      assert Slot(data, n, data[n].index, slots[data[n].index]);
      var j :| 0 <= j < n && data[..n][j].index == data[n].index;
      assert data[j].index == data[n].index;
    }
  }

  /** The array indexed by the tags. */
  method Order(data: seq<Datum>) returns (r: Result<seq<Vector>, IndexError>)
    ensures r.Ok? <==> Permuted(data, |data|) && Accepted(data, |data|)
    ensures r.Ok? ==> |r.value| == |data|
    ensures r.Ok? ==> forall i :: 0 <= i < |data| ==> Tagged(data, i, r.value[i]) && VectorOk(r.value[i])
    ensures r != Err(Unavailable(MissingIndex))
  {
    var ordered := new Option<Vector>[|data|](_ => None);
    for k := 0 to |data|
      invariant Slots(data, k, ordered[..]) && Accepted(data, k)
    {
      var datum := data[k];
      if datum.index >= |data| || ordered[datum.index].Some? {
        Refuse(data, k, ordered[..]);
        return Err(Unavailable(BadIndex));
      }
      var valid := ValidateVector(datum.embedding);
      if !valid { return Err(Unavailable(InvalidVector)); }
      Fill(data, k, ordered[..]);
      ghost var next := ordered[..][datum.index := Some(datum.embedding)];
      ordered[datum.index] := Some(datum.embedding);
      assert ordered[..] == next;
    }
    ghost var slots := ordered[..];
    assert forall i :: 0 <= i < |data| ==> Slot(data, |data|, i, slots[i]);
    r := Collect(data, |data|, ordered);
  }

  /** parse_batch_response: accepted exactly when the indices are a permutation
      with valid vectors, and then output i is the vector tagged i.  The error for
      a missing index cannot happen. */
  method ParseBatchResponse(body: Option<Response>, revision: Revision, n: nat)
    returns (r: Result<seq<Vector>, IndexError>)
    ensures r.Ok? <==> BatchOk(body, revision, n)
    ensures r.Ok? ==> |r.value| == n
    ensures r.Ok? ==> forall i :: 0 <= i < n ==> Tagged(body.value.data, i, r.value[i]) && VectorOk(r.value[i])
    ensures r != Err(Unavailable(MissingIndex))
  {
    if body.None? { return Err(Unavailable(MalformedJson)); }
    if body.value.model != revision.model || body.value.modelSha != revision.modelSha
       || body.value.configSha != revision.configSha
    {
      return Err(InvalidConfiguration(ResponseIdentity));
    }
    if |body.value.data| != n { return Err(Unavailable(PartialResponse)); }
    r := Order(body.value.data);
  }

  method Collect(data: seq<Datum>, n: nat, ordered: array<Option<Vector>>) returns (r: Result<seq<Vector>, IndexError>)
    requires ordered.Length == n && Permuted(data, n)
    requires forall i :: 0 <= i < n ==> Slot(data, n, i, ordered[i])
    requires forall i :: 0 <= i < n ==> VectorOk(data[i].embedding)
    ensures r.Ok? && |r.value| == n
    ensures forall i :: 0 <= i < n ==> Tagged(data, i, r.value[i]) && VectorOk(r.value[i])
  {
    var out: seq<Vector> := [];
    assert data[..n] == data;
    for i := 0 to n
      invariant |out| == i
      invariant forall k :: 0 <= k < i ==> Tagged(data, k, out[k]) && VectorOk(out[k])
    {
      NoneMissing(data, n, i);
      assert Slot(data, n, i, ordered[i]);
      if ordered[i].None? { return Err(Unavailable(MissingIndex)); }
      out := out + [ordered[i].value];
    }
    r := Ok(out);
  }

  // ---------- every batch ----------

  /** What is sent for one batch. */
  datatype Request = Request(endpoint: string, credential: string, model: string, configSha: string, texts: seq<Text>)

  /** The answer to each send: the provider sees its number and the request. */
  type Transport = (nat, Request) -> Result<Reply, IndexError>

  function Texts(inputs: seq<Input>): (texts: seq<Text>)
    ensures |texts| == |inputs| && forall i :: 0 <= i < |texts| ==> texts[i] == inputs[i].canonical
  {
    seq(|inputs|, i requires 0 <= i < |inputs| => inputs[i].canonical)
  }

  function BatchSize(n: nat, b: nat): nat
    requires BATCH * b <= n
  {
    if n - BATCH * b < BATCH then n - BATCH * b else BATCH
  }

  function Batches(n: nat): (b: nat)
    ensures n <= BATCH * b < n + BATCH
  {
    (n + BATCH - 1) / BATCH
  }

  datatype Call = Call(revision: Revision, credential: string, inputs: seq<Input>, sent: Transport) {
    /** The request for the `b`-th 64 inputs, in their order. */
    function RequestAt(b: nat): Request
      requires BATCH * b <= |inputs|
    {
      Request(revision.endpoint, credential, revision.model, revision.configSha,
              Texts(inputs[BATCH * b..BATCH * b + BatchSize(|inputs|, b)]))
    }

    function ReplyTo(b: nat): Result<Reply, IndexError>
      requires BATCH * b <= |inputs|
    {
      sent(b, RequestAt(b))
    }
  }

  /** At most 64 MiB, announced and received. */
  ghost predicate ReplyFits(reply: Reply) {
    (reply.contentLength.None? || reply.contentLength.value <= 67108864) && reply.size <= 67108864
  }

  ghost predicate Successful(status: nat) { 200 <= status < 300 }

  function TotalBytes(call: Call, b: nat): nat
    requires BATCH * b < |call.inputs| + BATCH
  {
    if b == 0 then 0
    else TotalBytes(call, b - 1) + (if call.ReplyTo(b - 1).Ok? then call.ReplyTo(b - 1).value.size else 0)
  }

  /** The `b`-th request was answered well. */
  ghost predicate Answered(call: Call, b: nat)
    requires BATCH * b < |call.inputs|
  {
    var reply := call.ReplyTo(b);
    && reply.Ok? && Successful(reply.value.status) && ReplyFits(reply.value)
    && TotalBytes(call, b + 1) <= 268435456
    && BatchOk(reply.value.body, call.revision, BatchSize(|call.inputs|, b))
  }

  ghost predicate AllAnswered(call: Call, batches: nat)
    requires BATCH * batches < |call.inputs| + BATCH
  {
    forall b :: 0 <= b < batches ==> Answered(call, b)
  }

  /** `v` is the valid vector that `reply` tagged with the place of `text` in `request`. */
  ghost predicate AnswersText(request: Request, reply: Result<Reply, IndexError>, j: nat, text: Text, v: Vector) {
    && j < |request.texts| && request.texts[j] == text
    && reply.Ok? && reply.value.body.Some? && Tagged(reply.value.body.value.data, j, v) && VectorOk(v)
  }

  /** Output `k` is the vector that the reply to request k / 64 tagged k % 64,
      which is the place of the text of input `k` in that request. */
  ghost predicate AlignedAt(call: Call, k: nat, v: Vector)
    requires k < |call.inputs|
  {
    AnswersText(call.RequestAt(k / BATCH), call.ReplyTo(k / BATCH), k % BATCH, call.inputs[k].canonical, v)
  }

  /** So are the outputs from `start` on. */
  ghost predicate AlignedFrom(call: Call, start: nat, out: seq<Vector>)
    requires start + |out| <= |call.inputs|
  {
    forall i :: 0 <= i < |out| ==> AlignedAt(call, start + i, out[i])
  }

  ghost predicate AlignedAll(call: Call, out: seq<Vector>)
    requires |out| <= |call.inputs|
  {
    forall k :: 0 <= k < |out| ==> AlignedAt(call, k, out[k])
  }

  function StatusError(status: nat): IndexError {
    if status == 408 || status == 429 || 500 <= status < 600
    then Unavailable(ServerStatus) else InvalidConfiguration(Rejected)
  }

  /** A timeout, too many requests and server errors may be tried again; every other
      status is final. */
  lemma StatusClasses(status: nat)
    ensures StatusError(status).Unavailable? <==> status == 408 || status == 429 || status / 100 == 5
    ensures StatusError(status).InvalidConfiguration? <==> !(status == 408 || status == 429 || status / 100 == 5)
  {
  }

  /** Input BATCH * b + i stands at place `i` of request `b`. */
  lemma PlaceInBatch(call: Call, b: nat, i: nat)
    requires BATCH * b <= |call.inputs| && i < BatchSize(|call.inputs|, b)
    ensures (BATCH * b + i) / BATCH == b && (BATCH * b + i) % BATCH == i
    ensures |call.RequestAt(b).texts| == BatchSize(|call.inputs|, b)
    ensures call.RequestAt(b).texts[i] == call.inputs[BATCH * b + i].canonical
  {
  }

  /** One turn of the batch loop. */
  method Batch(call: Call, b: nat, total: nat) returns (r: Result<seq<Vector>, IndexError>, total': nat)
    requires BATCH * b < |call.inputs| && total == TotalBytes(call, b)
    ensures var request := call.RequestAt(b);
            && request.endpoint == call.revision.endpoint && request.credential == call.credential
            && request.model == call.revision.model && request.configSha == call.revision.configSha
            && |request.texts| == (if |call.inputs| - 64 * b < 64 then |call.inputs| - 64 * b else 64)
            && (forall i :: 0 <= i < |request.texts| ==> request.texts[i] == call.inputs[64 * b + i].canonical)
            && call.ReplyTo(b) == call.sent(b, request)
    ensures r.Ok? <==> Answered(call, b)
    ensures r.Ok? ==> total' == TotalBytes(call, b + 1)
    ensures r.Ok? ==> |r.value| == BatchSize(|call.inputs|, b) && AlignedFrom(call, BATCH * b, r.value)
  {
    total' := total;
    var batch := call.inputs[BATCH * b..BATCH * b + BatchSize(|call.inputs|, b)];
    var request := Request(call.revision.endpoint, call.credential, call.revision.model, call.revision.configSha,
                           Texts(batch));
    var answer := call.sent(b, request);
    assert answer == call.ReplyTo(b);
    if answer.Err? { return Err(answer.error), total; }
    var reply := answer.value;
    if reply.status / 100 != 2 { return Err(StatusError(reply.status)), total; }
    if (reply.contentLength.Some? && reply.contentLength.value > MAX_BATCH_BYTES) || reply.size > MAX_BATCH_BYTES {
      return Err(Unavailable(ResponseTooLarge)), total;
    }
    total' := total + reply.size;
    if total' > MAX_TOTAL_BYTES { return Err(Unavailable(TotalTooLarge)), total'; }
    r := ParseBatchResponse(reply.body, call.revision, |batch|);
    if r.Ok? {
      forall i | 0 <= i < |r.value| ensures AlignedAt(call, BATCH * b + i, r.value[i]) {
        PlaceInBatch(call, b, i);
        assert Tagged(reply.body.value.data, i, r.value[i]);
      }
    }
  }

  lemma AlignedMore(call: Call, out: seq<Vector>, more: seq<Vector>)
    requires |out| + |more| <= |call.inputs| && AlignedAll(call, out) && AlignedFrom(call, |out|, more)
    ensures AlignedAll(call, out + more)
  {
    forall k | 0 <= k < |out + more| ensures AlignedAt(call, k, (out + more)[k]) {
      if k >= |out| { assert AlignedAt(call, |out| + (k - |out|), more[k - |out|]); }
    }
  }

  /** The loop over the batches: it succeeds exactly when every request was
      answered well, and then output `k` belongs to the text of input `k`. */
  method SendBatches(call: Call) returns (r: Result<seq<Vector>, IndexError>)
    ensures r.Ok? <==> AllAnswered(call, Batches(|call.inputs|))
    ensures r.Ok? ==> |r.value| == |call.inputs| && AlignedAll(call, r.value)
  {
    var out: seq<Vector> := [];
    var b, total, n := 0, 0, |call.inputs|;
    ghost var batches := Batches(n);
    while BATCH * b < n
      invariant b <= batches
      invariant |out| == if BATCH * b < n then BATCH * b else n
      invariant AllAnswered(call, b) && total == TotalBytes(call, b)
      invariant AlignedAll(call, out)
      decreases batches - b
    {
      var batch;
      batch, total := Batch(call, b, total);
      if batch.Err? {
        assert !Answered(call, b);
        return Err(batch.error);
      }
      AlignedMore(call, out, batch.value);
      out := out + batch.value;
      b := b + 1;
    }
    if |out| != n { return Err(Unavailable(PartialOutput)); }
    r := Ok(out);
  }

  // ---------- the call ----------

  function TotalInput(inputs: seq<Input>): nat {
    if inputs == [] then 0 else TotalInput(inputs[..|inputs| - 1]) + |inputs[|inputs| - 1].canonical|
  }

  lemma {:induction false} TotalGrows(inputs: seq<Input>, n: nat)
    requires n <= |inputs|
    ensures TotalInput(inputs[..n]) <= TotalInput(inputs)
    decreases |inputs|
  {
    if n < |inputs| {
      TotalGrows(inputs[..|inputs| - 1], n);
      assert inputs[..|inputs| - 1][..n] == inputs[..n];
    } else {
      assert inputs[..n] == inputs;
    }
  }

  ghost predicate InputOk(input: Input, sha: Text -> Text) {
    |input.canonical| <= 1048576 && sha(input.canonical) == input.digest
  }

  ghost predicate InputsOk(inputs: seq<Input>, sha: Text -> Text) {
    && |inputs| <= 16384 && TotalInput(inputs) <= 8388608
    && (forall i :: 0 <= i < |inputs| ==> InputOk(inputs[i], sha))
    && (forall i, j :: 0 <= i < j < |inputs| ==> inputs[i].chunk != inputs[j].chunk)
  }

  ghost predicate HasInput(inputs: seq<Input>, n: nat, chunk: Id)
    requires n <= |inputs|
  {
    exists i :: 0 <= i < n && inputs[i].chunk == chunk
  }

  lemma TotalNext(inputs: seq<Input>, n: nat)
    requires n < |inputs|
    ensures TotalInput(inputs[..n + 1]) == TotalInput(inputs[..n]) + |inputs[n].canonical| <= TotalInput(inputs)
  {
    assert inputs[..n + 1][..n] == inputs[..n];
    TotalGrows(inputs, n + 1);
  }

  method CheckInputs(inputs: seq<Input>, sha: Text -> Text) returns (r: Result<(), IndexError>)
    ensures r.Ok? <==> InputsOk(inputs, sha)
  {
    if |inputs| > MAX_INPUTS { return Err(InvalidConfiguration(TooManyInputs)); }
    var total, ids := 0, {};
    for n := 0 to |inputs|
      invariant total == TotalInput(inputs[..n]) <= MAX_REQUEST_BYTES
      invariant forall i :: 0 <= i < n ==> InputOk(inputs[i], sha)
      invariant forall c :: c in ids <==> HasInput(inputs, n, c)
      invariant forall i, j :: 0 <= i < j < n ==> inputs[i].chunk != inputs[j].chunk
    {
      var input := inputs[n];
      if |input.canonical| > MAX_INPUT_BYTES { return Err(InvalidConfiguration(InputTooLarge)); }
      TotalNext(inputs, n);
      total := total + |input.canonical|;
      if total > MAX_REQUEST_BYTES { return Err(InvalidConfiguration(RequestTooLarge)); }
      if input.chunk in ids { return Err(InvalidConfiguration(DuplicateChunk)); }
      ids := ids + {input.chunk};
      if sha(input.canonical) != input.digest { return Err(InvalidConfiguration(DigestMismatch)); }
    }
    assert inputs[..|inputs|] == inputs;
    r := Ok(());
  }

  ghost predicate Callable(revision: Revision) { revision.valid && "https://" <= revision.endpoint }

  /** When the call can be made at all. */
  ghost predicate Admitted(revision: Revision, inputs: seq<Input>, credential: Result<string, IndexError>,
                           sha: Text -> Text) {
    Callable(revision) && InputsOk(inputs, sha) && credential.Ok? && credential.value != ""
  }

  /** embed_batch: either no input, or bounded inputs, a credential and a good
      answer to every request.  Output `k` is then the vector tagged with the
      place of the text of input `k` in the request that carried it. */
  method EmbedBatch(revision: Revision, inputs: seq<Input>, credential: Result<string, IndexError>,
                    sent: Transport, sha: Text -> Text)
    returns (r: Result<seq<Vector>, IndexError>)
    ensures inputs == [] ==> (r.Ok? <==> Callable(revision)) && (r.Ok? ==> r.value == [])
    ensures inputs != [] ==>
              (r.Ok? <==> Admitted(revision, inputs, credential, sha)
                          && AllAnswered(Call(revision, credential.value, inputs, sent), Batches(|inputs|)))
    ensures r.Ok? && inputs != [] ==>
              |r.value| == |inputs| && credential.Ok?
                && AlignedAll(Call(revision, credential.value, inputs, sent), r.value)
  {
    if !revision.valid { return Err(InvalidConfiguration(BadRevision)); }
    if !("https://" <= revision.endpoint) { return Err(InvalidConfiguration(InsecureEndpoint)); }
    if inputs == [] { return Ok([]); }
    var bounded := CheckInputs(inputs, sha);
    if bounded.Err? { return Err(bounded.error); }
    if credential.Err? { return Err(credential.error); }
    if credential.value == "" { return Err(InvalidConfiguration(NoCredential)); }
    r := SendBatches(Call(revision, credential.value, inputs, sent));
  }
}
