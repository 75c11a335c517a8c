/**
 * The delivery client: signing a span, building and judging the ingest
 * request, and draining the outbox.
 *
 * The network is a parameter: a function from the request sent to what came
 * back. JSON text parsing, which `JSONDecoder` does before mapping a document
 * onto a type, is the client's `parseJson` function.
 */
module Client {
  import opened Wrappers
  import opened Hex
  import opened Codec
  import opened Envelope
  import opened Signer
  import opened Outbox
  import opened Drain

  datatype NetworkCause =
    | TransportFailed                       // `session.data(for:)` threw
    | ResponseUndecodable(error: DecodeError) // the 2xx body is not an `IngestResponse`

  datatype ClientError =
    | InvalidResponse
    | HttpError(statusCode: int, message: string)
    | NetworkError(cause: NetworkCause)
    | SigningError(signerError: SignerError)
    | Encoding(encodeError: EncodeError)    // `EncodingError` escapes unwrapped

  /**
   * What one request produced: a transport failure, a response that is not
   * HTTP, or an HTTP response with its status, its body as UTF-8 text when
   * the bytes are valid UTF-8, and its body as a JSON document when they
   * parse as one.
   */
  datatype Transport =
    | TransportFailure
    | NonHttpResponse
    | HttpResponse(statusCode: int, bodyText: Option<string>, body: Option<Json>)

  datatype Request = Request(
    httpMethod: string,
    path: string,
    authorization: string,
    contentType: string,
    idempotencyKey: Option<string>,
    body: seq<Byte>)

  datatype IngestResponse = IngestResponse(id: string, acceptedAt: Option<string>, digest: string)

  const SignatureAlgo: string := "ed25519"
  const SpansPath: string := "/api/spans"
  const UnknownError: string := "Unknown error"
  
  function EncodeSpan(s: SpanEnvelope): Result<Json, ClientError> {
    match SpanToJson(s)
    case Ok(j) => Ok(j)
    case Err(e) => Err(Encoding(e))
  }

  function Signing<T>(r: Result<T, SignerError>): Result<T, ClientError> {
    match r
    case Ok(v) => Ok(v)
    case Err(e) => Err(SigningError(e))
  }

  /** The canonical bytes of the span with digest and signature cleared. */
  function UnsignedBytes(span: SpanEnvelope, prims: Primitives): Result<seq<Byte>, ClientError> {
    var j :- EncodeSpan(Unsigned(span));
    Ok(CanonicalBytes(j, prims.formatDouble))
  }

  // ---------------------------------------------------------------------------
  // signSpan
  // ---------------------------------------------------------------------------

  /** The span `signSpan` leaves behind when it returns normally. */
  function Signed(span: SpanEnvelope, signer: SpanSigner, prims: Primitives): Result<SpanEnvelope, ClientError> {
    var canonical :- UnsignedBytes(span, prims);
    var digestBytes := ComputeDigestBytes(prims.hash, canonical);
    var digestHex := ComputeDigest(prims.hash, canonical);
    var sig :- Signing(signer.sign(digestBytes));
    var pubkey :- Signing(signer.publicKeyHex);
    Ok(span.(digest := Some(digestHex), signature := Some(Signature(SignatureAlgo, pubkey, HexString(sig)))))
  }

  /**
   * Signing stamps the digest of the unsigned span's canonical bytes and an
   * Ed25519 signature over the digest bytes, changing no other field; it
   * fails with `signingError` exactly when the signer throws.
   */
  lemma SignedMeaning(span: SpanEnvelope, signer: SpanSigner, prims: Primitives)
    requires UnsignedBytes(span, prims).Ok?
    ensures var canonical := UnsignedBytes(span, prims).value;
      var digestBytes := ComputeDigestBytes(prims.hash, canonical);
      var r := Signed(span, signer, prims);
      && (r.Ok? <==> signer.sign(digestBytes).Ok? && signer.publicKeyHex.Ok?)
      && (signer.sign(digestBytes).Err? ==> r == Err(SigningError(signer.sign(digestBytes).error)))
      && (r.Ok? ==>
        && SameContent(r.value, span)
        && r.value.digest == Some(ComputeDigest(prims.hash, canonical))
        && |r.value.digest.value| == 67
        && r.value.digest.value[..3] == "b3:"
        && r.value.signature == Some(Signature(SignatureAlgo, signer.publicKeyHex.value,
                                               HexString(signer.sign(digestBytes).value))))
  {
  }

  /**
   * The digest covers only the fields fixed at construction: spans that
   * differ only in digest and signature sign identically, and re-signing a
   * signed span reproduces it exactly.
   */
  lemma SigningIgnoresProvenance(a: SpanEnvelope, b: SpanEnvelope, signer: SpanSigner, prims: Primitives)
    requires SameContent(a, b)
    ensures Signed(a, signer, prims).Ok? <==> Signed(b, signer, prims).Ok?
    ensures Signed(a, signer, prims).Ok? ==>
      && Signed(a, signer, prims).value.digest == Signed(b, signer, prims).value.digest
      && Signed(a, signer, prims).value.signature == Signed(b, signer, prims).value.signature
  {
    assert Unsigned(a) == Unsigned(b);
  }

  lemma ResigningIsStable(span: SpanEnvelope, signer: SpanSigner, prims: Primitives)
    requires Signed(span, signer, prims).Ok?
    ensures Signed(Signed(span, signer, prims).value, signer, prims) == Signed(span, signer, prims)
  {
    var s := Signed(span, signer, prims).value;
    assert Unsigned(s) == Unsigned(span);
  }

  // ---------------------------------------------------------------------------
  // The ingest request and its outcome
  // ---------------------------------------------------------------------------

  /**
   * The `X-Idempotency-Key` header: the hex of the UTF-8 bytes of
   * `tenantId + "-" + digest`, sent only when both are set.
   */
  function IdempotencyKey(span: SpanEnvelope): Option<string> {
    if span.metadata.tenantId.Some? && span.digest.Some? then
      Some(HexString(Utf8(span.metadata.tenantId.value + "-" + span.digest.value)))
    else None
  }

  lemma IdempotencyKeyMeaning(span: SpanEnvelope)
    ensures IdempotencyKey(span).Some? <==> span.metadata.tenantId.Some? && span.digest.Some?
    ensures IdempotencyKey(span).Some? ==>
      var text := span.metadata.tenantId.value + "-" + span.digest.value;
      && StrictHex(IdempotencyKey(span).value) == Some(Utf8(text))
      && |IdempotencyKey(span).value| >= 2 * (|span.metadata.tenantId.value| + 1 + |span.digest.value|)
  {
    if IdempotencyKey(span).Some? {
      StrictRoundTrip(Utf8(span.metadata.tenantId.value + "-" + span.digest.value));
    }
  }

  /** `(200...299).contains(statusCode)`. */
  predicate Accepted(statusCode: int) {
    200 <= statusCode <= 299
  }

  function IngestResponseFromJson(body: Option<Json>): Result<IngestResponse, DecodeError> {
    if body.None? then Err(DataCorrupted)
    else if !body.value.JObject? then Err(TypeMismatch(""))
    else
      var m := body.value.members;
      var id :- RequiredString(m, "id");
      var acceptedAt :- OptionalString(m, "accepted_at");
      var digest :- RequiredString(m, "digest");
      Ok(IngestResponse(id, acceptedAt, digest))
  }

  function IngestRequest(token: string, signed: SpanEnvelope, body: seq<Byte>): Request {
    Request("POST", SpansPath, "Bearer " + token, "application/json", IdempotencyKey(signed), body)
  }

  /** How `ingest` judges what came back for its request. */
  function Judge(reply: Transport): Result<string, ClientError> {
    match reply
    case TransportFailure => Err(NetworkError(TransportFailed))
    case NonHttpResponse => Err(InvalidResponse)
    case HttpResponse(status, text, body) =>
      if !Accepted(status) then Err(HttpError(status, text.GetOr(UnknownError)))
      else
        match IngestResponseFromJson(body)
        case Ok(r) => Ok(r.id)
        case Err(e) => Err(NetworkError(ResponseUndecodable(e)))
  }

  /**
   * A reply is accepted exactly when it is an HTTP response with a status in
   * 200...299 and a body that decodes as an `IngestResponse`; any other
   * status becomes `httpError` carrying it, with the body text or
   * "Unknown error" as the message. A body that fails to decode, like a
   * transport failure, surfaces as `networkError`.
   */
  lemma JudgeMeaning(reply: Transport)
    ensures Judge(reply).Ok? <==>
      reply.HttpResponse? && Accepted(reply.statusCode) && IngestResponseFromJson(reply.body).Ok?
    ensures Judge(reply).Ok? ==> Judge(reply).value == IngestResponseFromJson(reply.body).value.id
    ensures reply.HttpResponse? && !Accepted(reply.statusCode) ==>
      Judge(reply) == Err(HttpError(reply.statusCode, reply.bodyText.GetOr(UnknownError)))
    ensures reply.HttpResponse? && Accepted(reply.statusCode) && IngestResponseFromJson(reply.body).Err? ==>
      Judge(reply) == Err(NetworkError(ResponseUndecodable(IngestResponseFromJson(reply.body).error)))
    ensures reply.NonHttpResponse? ==> Judge(reply) == Err(InvalidResponse)
    ensures reply.TransportFailure? ==> Judge(reply) == Err(NetworkError(TransportFailed))
  {
  }

  /**
   * `ingest(span:)` as written: sign a copy, POST it, and judge the reply. It
   * returns the server's span id and never touches the outbox.
   */
  function Ingest(signer: SpanSigner, prims: Primitives, token: string, span: SpanEnvelope,
                  respond: Request -> Transport): Result<string, ClientError>
  {
    var signed :- Signed(span, signer, prims);
    var json :- EncodeSpan(signed);
    Judge(respond(IngestRequest(token, signed, CanonicalBytes(json, prims.formatDouble))))
  }

  /** Encoding the signed span cannot fail once the unsigned one encoded. */
  lemma SignedEncodes(span: SpanEnvelope, signer: SpanSigner, prims: Primitives)
    requires Signed(span, signer, prims).Ok?
    ensures EncodeSpan(Signed(span, signer, prims).value).Ok?
  {
    var signed := Signed(span, signer, prims).value;
    assert signed.input == span.input && signed.output == span.output;
    SpanWireKeys(Unsigned(span));
    SpanWireKeys(signed);
  }

  /**
   * Once signing succeeds, `ingest` sends one request, carrying the signed
   * span and its idempotency key, and its result is the judgement of the reply.
   */
  lemma IngestSendsSigned(signer: SpanSigner, prims: Primitives, token: string, span: SpanEnvelope,
                          respond: Request -> Transport)
    requires Signed(span, signer, prims).Ok?
    ensures var signed := Signed(span, signer, prims).value;
      && EncodeSpan(signed).Ok?
      && var request := IngestRequest(token, signed, CanonicalBytes(EncodeSpan(signed).value, prims.formatDouble));
      && request.idempotencyKey == IdempotencyKey(signed)
      && request.authorization == "Bearer " + token
      && Ingest(signer, prims, token, span, respond) == Judge(respond(request))
  {
    SignedEncodes(span, signer, prims);
  }

  /** When signing fails, nothing is sent and the signing error is what `ingest` throws. */
  lemma IngestSigningFailure(signer: SpanSigner, prims: Primitives, token: string, span: SpanEnvelope,
                             respond: Request -> Transport)
    requires Signed(span, signer, prims).Err?
    ensures Ingest(signer, prims, token, span, respond) == Err(Signed(span, signer, prims).error)
  {
  }

  /** A signed span whose tenant is set always goes out with an idempotency key. */
  lemma SignedSpanHasKey(span: SpanEnvelope, signer: SpanSigner, prims: Primitives)
    requires Signed(span, signer, prims).Ok? && span.metadata.tenantId.Some?
    ensures IdempotencyKey(Signed(span, signer, prims).value).Some?
  {
  }

  // ---------------------------------------------------------------------------
  // processOutbox
  // ---------------------------------------------------------------------------

  /** `JSONDecoder().decode(SpanEnvelope.self, from: spanJson.data(using: .utf8))`. */
  function DecodeSpanText(parseJson: string -> Option<Json>, text: string): Result<SpanEnvelope, DecodeError> {
    match parseJson(text)
    case None => Err(DataCorrupted)
    case Some(j) => SpanFromJson(j)
  }

  /** The step-`k` reply function handed to `ingest`. */
  function Respond(network: (nat, Request) -> Transport, step: nat): Request -> Transport {
    req => network(step, req)
  }

  /** One drain step's fate for the row with this span text. */
  function Attempt(signer: SpanSigner, prims: Primitives, token: string, parseJson: string -> Option<Json>,
                   network: (nat, Request) -> Transport, step: nat, spanJson: string): Delivery
  {
    var decoded := DecodeSpanText(parseJson, spanJson);
    if decoded.Err? then Undecodable
    else if Ingest(signer, prims, token, decoded.value, Respond(network, step)).Ok? then Delivered
    else Deferred
  }

  // ---------------------------------------------------------------------------
  // CausableClient
  // ---------------------------------------------------------------------------

  class CausableClient {
    const signer: SpanSigner
    const outbox: OutboxStore
    /** The bearer token `tokenProvider` returns. */
    const token: string
    const prims: Primitives
    const parseJson: string -> Option<Json>

    constructor(signer: SpanSigner, outbox: OutboxStore, token: string, prims: Primitives,
                parseJson: string -> Option<Json>)
      ensures this.signer == signer && this.outbox == outbox && this.token == token
      ensures this.prims == prims && this.parseJson == parseJson
    {
      this.signer := signer;
      this.outbox := outbox;
      this.token := token;
      this.prims := prims;
      this.parseJson := parseJson;
    }

    /**
     * `signSpan(_:)` on an `inout` span: `signed` is the span afterwards.
     * When it throws, the span is as it was.
     */
    method SignSpan(span: SpanEnvelope) returns (signed: SpanEnvelope, err: Option<ClientError>)
      ensures err.None? <==> Signed(span, signer, prims).Ok?
      ensures err.None? ==> signed == Signed(span, signer, prims).value && SameContent(signed, span)
      ensures err.Some? ==> signed == span && err.value == Signed(span, signer, prims).error
    {
      var unsigned := span.(digest := None, signature := None);
      var encoded := SpanToJson(unsigned);
      if encoded.Err? {
        return span, Some(Encoding(encoded.error));
      }
      var canonical := CanonicalBytes(encoded.value, prims.formatDouble);
      var digestBytes := ComputeDigestBytes(prims.hash, canonical);
      var digestHex := ComputeDigest(prims.hash, canonical);
      var sig := signer.sign(digestBytes);
      if sig.Err? {
        return span, Some(SigningError(sig.error));
      }
      var pubkey := signer.publicKeyHex;
      if pubkey.Err? {
        return span, Some(SigningError(pubkey.error));
      }
      signed := span.(digest := Some(digestHex), signature := Some(Signature(SignatureAlgo, pubkey.value, HexString(sig.value))));
      err := None;
    }

    /** What a drain by this client depends on besides the table. */
    function Env(picked: seq<real>, failed: seq<real>, network: (nat, Request) -> Transport, jitters: seq<real>): (env: DrainEnv)
      ensures env.picked == picked && env.failed == failed && env.jitters == jitters
      ensures forall k: nat, text :: env.attempt(k, text) == Attempt(signer, prims, token, parseJson, network, k, text)
    {
      DrainEnv((k: nat, text: string) => Attempt(signer, prims, token, parseJson, network, k, text), picked, failed, jitters)
    }

    /**
     * The body of `processOutbox`'s loop for the row `nextAttempt` handed
     * out at step `k`: decode its span text, upload it, and delete or
     * reschedule the row, reading the clock again for the new attempt time.
     * Returns the deliveries this adds.
     */
    method Handle(picked: seq<real>, failed: seq<real>, network: (nat, Request) -> Transport, jitters: seq<real>,
                  k: nat, entry: Entry)
      returns (delivered: nat)
      requires ReadingsOk(picked, failed) && JittersOk(jitters) && k < MaxBatch
      requires outbox.Valid() && NextEntry(outbox.rows, picked[k]) == Some(entry)
      modifies outbox
      ensures outbox.Valid()
      ensures Turned(outbox.rows, delivered) == Step(Env(picked, failed, network, jitters), old(outbox.rows), k, entry)
      ensures outbox.kv == old(outbox.kv)
    {
      ghost var env := Env(picked, failed, network, jitters);
      var decoded := DecodeSpanText(parseJson, entry.spanJson);
      if decoded.Err? {
        // An undecodable row is dropped without an upload.
        assert env.attempt(k, entry.spanJson) == Undecodable;
        outbox.MarkSuccess(entry.id);
        delivered := 0;
      } else {
        var result := Ingest(signer, prims, token, decoded.value, Respond(network, k));
        if result.Ok? {
          assert env.attempt(k, entry.spanJson) == Delivered;
          outbox.MarkSuccess(entry.id);
          delivered := 1;
        } else {
          assert env.attempt(k, entry.spanJson) == Deferred;
          outbox.MarkFailure(entry.id, DefaultBackoff, failed[k], jitters[k]);
          delivered := 0;
        }
      }
    }

    ghost predicate IsDrainStep(step: StepFn, picked: seq<real>, failed: seq<real>,
                                network: (nat, Request) -> Transport, jitters: seq<real>) {
      forall rows, k: nat {:trigger StepOf(Env(picked, failed, network, jitters))(rows, k)} ::
        step(rows, k) == StepOf(Env(picked, failed, network, jitters))(rows, k)
    }

    method Turn(picked: seq<real>, failed: seq<real>, network: (nat, Request) -> Transport, jitters: seq<real>,
                k: nat, ghost step: StepFn)
      returns (done: bool, delivered: nat)
      requires ReadingsOk(picked, failed) && JittersOk(jitters) && k < MaxBatch
      requires outbox.Valid()
      requires IsDrainStep(step, picked, failed, network, jitters)
      modifies outbox
      ensures outbox.Valid() && outbox.kv == old(outbox.kv)
      ensures done <==> step(old(outbox.rows), k).None?
      ensures done ==> outbox.rows == old(outbox.rows)
      ensures !done ==> step(old(outbox.rows), k) == Some(Turned(outbox.rows, delivered))
    {
      ghost var env := Env(picked, failed, network, jitters);
      ghost var before := outbox.rows;
      assert step(before, k) == StepOf(env)(before, k);
      StepOfAt(env, before, k);
      var entry := outbox.NextAttempt(picked[k]);
      if entry.None? {
        return true, 0;
      }
      delivered := Handle(picked, failed, network, jitters, k, entry.value);
      done := false;
    }

    method DrainOnce(picked: seq<real>, failed: seq<real>, network: (nat, Request) -> Transport, jitters: seq<real>,
                     k: nat, count: nat, ghost step: StepFn, ghost target: Drained)
      returns (done: bool, delivered: nat)
      requires ReadingsOk(picked, failed) && JittersOk(jitters) && k < MaxBatch
      requires outbox.Valid()
      requires IsDrainStep(step, picked, failed, network, jitters)
      requires DrainFrom(step, outbox.rows, k, count) == target
      modifies outbox
      ensures outbox.Valid() && outbox.kv == old(outbox.kv)
      ensures done ==> target == Drained(count, outbox.rows, k)
      ensures !done ==> DrainFrom(step, outbox.rows, k + 1, count + delivered) == target
    {
      ghost var before := outbox.rows;
      done, delivered := Turn(picked, failed, network, jitters, k, step);
      if done {
        DrainStops(step, before, k, count);
      } else {
        DrainUnfold(step, before, k, count);
      }
    }

    /**
     * `processOutbox()`: up to `MaxBatch` rounds of `nextAttempt` and an
     * upload, stopping early when no row is due; returns the deliveries.
     * Step `k` reads the clock at `picked[k]` and, on a failed upload, at
     * `failed[k]`.
     */
    method ProcessOutbox(picked: seq<real>, failed: seq<real>, network: (nat, Request) -> Transport, jitters: seq<real>,
                         ghost step: StepFn)
      returns (successCount: nat)
      requires ReadingsOk(picked, failed) && JittersOk(jitters)
      requires outbox.Valid()
      requires IsDrainStep(step, picked, failed, network, jitters)
      modifies outbox
      ensures outbox.Valid()
      ensures successCount == DrainFrom(step, old(outbox.rows), 0, 0).count
      ensures outbox.rows == DrainFrom(step, old(outbox.rows), 0, 0).rest
      ensures outbox.kv == old(outbox.kv)
    {
      ghost var target := DrainFrom(step, outbox.rows, 0, 0);
      successCount := 0;
      var k := 0;
      while k < MaxBatch
        invariant 0 <= k <= MaxBatch && outbox.Valid() && outbox.kv == old(outbox.kv)
        invariant DrainFrom(step, outbox.rows, k, successCount) == target
      {
        var done, delivered := DrainOnce(picked, failed, network, jitters, k, successCount, step, target);
        if done {
          return;
        }
        successCount := successCount + delivered;
        k := k + 1;
      }
    }
  }
}
