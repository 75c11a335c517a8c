/**
 * The notary service facade: the object behind the XPC interface that owns
 * the signer, the outbox and the device credentials, and hands spans to a
 * delivery client once the device is enrolled.
 *
 * The signer and the outbox are opened once, when the service starts; an
 * open that throws leaves the field empty. The credentials live in the
 * outbox's key/value table under fixed keys. The network calls behind
 * `enroll` and `ingest` are parameters, as everywhere in this model.
 */
module Notary {
  import opened Wrappers
  import opened Hex
  import opened Codec
  import opened Envelope
  import opened Signer
  import opened Outbox
  import opened Drain
  import opened Client
  import Observer

  const DeviceTokenKey: string := "device_token"
  const DeviceIdKey: string := "device_id"
  const TenantIdKey: string := "tenant_id"
  const OwnerIdKey: string := "owner_id"
  const PolicyKey: string := "current_policy"

  const NotInitializedMessage: string := "Service not initialized. Please enroll first."
  const SignerMissingMessage: string := "Signer not initialized"
  const OutboxMissingMessage: string := "Outbox not initialized"
  const NoDevice: string := "none"

  /** What the enrolment endpoint answers on success. */
  datatype EnrollResponse = EnrollResponse(deviceId: string, tenantId: string, ownerId: string, token: string)

  /** Errors a facade call catches and reports by their description. */
  datatype ServiceError =
    | SpanUndecodable(decodeError: DecodeError)
    | IngestFailed(clientError: ClientError)
    | PublicKeyFailed(signerError: SignerError)
    | EnrollFailed(enrollError: ClientError)

  /** The text of a failure reply: one of the facade's own messages, or a caught error. */
  datatype ReplyError = Message(text: string) | Thrown(cause: ServiceError)

  /** The `(Bool, String?)` a facade call replies with. */
  datatype Reply = Reply(ok: bool, error: Option<ReplyError>)

  /** The dictionary `health` serialises. */
  datatype Health = Health(
    status: string,
    service: string,
    version: string,
    enrolled: bool,
    signer: string,
    outboxPending: nat,
    deviceId: string)

  /** A key/value lookup, as `getValue(forKey:)` answers it. */
  function Lookup(kv: map<string, string>, key: string): (r: Option<string>)
    ensures r.Some? <==> key in kv
    ensures r.Some? ==> r.value == kv[key]
  {
    if key in kv then Some(kv[key]) else None
  }

  /** One `setValue` when the credential is set, none when it is nil. */
  function Put(kv: map<string, string>, key: string, v: Option<string>): map<string, string> {
    if v.Some? then kv[key := v.value] else kv
  }

  /** The table after `saveCredentials`: one write per credential that is set. */
  function SavedCredentials(kv: map<string, string>, token: Option<string>, deviceId: Option<string>,
                            tenantId: Option<string>, ownerId: Option<string>): map<string, string>
  {
    Put(Put(Put(Put(kv, DeviceTokenKey, token), DeviceIdKey, deviceId), TenantIdKey, tenantId), OwnerIdKey, ownerId)
  }

  /**
   * Saving credentials and reading them back: every credential that was set
   * is read back as saved, every one that was nil reads back as whatever the
   * table held before, and no other key changes.
   */
  lemma CredentialsRoundTrip(kv: map<string, string>, token: Option<string>, deviceId: Option<string>,
                             tenantId: Option<string>, ownerId: Option<string>)
    ensures var after := SavedCredentials(kv, token, deviceId, tenantId, ownerId);
      && Lookup(after, DeviceTokenKey) == (if token.Some? then token else Lookup(kv, DeviceTokenKey))
      && Lookup(after, DeviceIdKey) == (if deviceId.Some? then deviceId else Lookup(kv, DeviceIdKey))
      && Lookup(after, TenantIdKey) == (if tenantId.Some? then tenantId else Lookup(kv, TenantIdKey))
      && Lookup(after, OwnerIdKey) == (if ownerId.Some? then ownerId else Lookup(kv, OwnerIdKey))
      && forall k :: k !in {DeviceTokenKey, DeviceIdKey, TenantIdKey, OwnerIdKey} ==> Lookup(after, k) == Lookup(kv, k)
  {
  }

  /**
   * The span `enqueueSpan` ingests: a span that names no device gets the
   * service's tenant, owner and device in place of its metadata, keeping its
   * timestamp; a span that names a device is left alone.
   */
  function Stamped(span: SpanEnvelope, tenantId: Option<string>, ownerId: Option<string>,
                   deviceId: Option<string>): (r: SpanEnvelope)
    ensures span.metadata.deviceId.Some? ==> r == span
    ensures span.metadata.deviceId.None? ==>
      r.metadata == SpanMetadata(tenantId, ownerId, deviceId, span.metadata.ts)
    ensures r.metadata.ts == span.metadata.ts
    ensures r.(metadata := span.metadata) == span
  {
    if span.metadata.deviceId.None? then
      span.(metadata := SpanMetadata(tenantId, ownerId, deviceId, span.metadata.ts))
    else span
  }

  /** Stamping a span twice with the same credentials is stamping it once. */
  lemma StampIdempotent(span: SpanEnvelope, tenantId: Option<string>, ownerId: Option<string>,
                        deviceId: Option<string>)
    ensures Stamped(Stamped(span, tenantId, ownerId, deviceId), tenantId, ownerId, deviceId)
         == Stamped(span, tenantId, ownerId, deviceId)
  {
  }

  /**
   * A span that names no device, stamped by an enrolled service and signed,
   * goes out with the idempotency key of the service's tenant and its digest.
   */
  lemma StampedSpanCarriesTenantKey(span: SpanEnvelope, tenantId: string, ownerId: Option<string>,
                                    deviceId: Option<string>, signer: SpanSigner, prims: Primitives)
    requires span.metadata.deviceId.None?
    requires Signed(Stamped(span, Some(tenantId), ownerId, deviceId), signer, prims).Ok?
    ensures var signed := Signed(Stamped(span, Some(tenantId), ownerId, deviceId), signer, prims).value;
      && signed.digest.Some?
      && IdempotencyKey(signed) == Some(HexString(Utf8(tenantId + "-" + signed.digest.value)))
  {
  }

  /**
   * The observer's activity spans name no device, so the service always
   * stamps its own tenant, owner and device onto them, keeping their time.
   */
  lemma ActivitySpansTakeServiceCredentials(id: string, app: string, window: string, ts: string,
                                            tenantId: Option<string>, ownerId: Option<string>,
                                            deviceId: Option<string>)
    ensures var span := Observer.CreateActivitySpan(id, app, Observer.RedactSensitiveInfo(window), ts);
      && Stamped(span, tenantId, ownerId, deviceId).metadata == SpanMetadata(tenantId, ownerId, deviceId, ts)
      && Stamped(span, tenantId, ownerId, deviceId).input == span.input
  {
  }

  /** `JSONDecoder().decode(SpanEnvelope.self, from: data)` on the bytes of an XPC message. */
  function DecodeSpanData(parseJson: string -> Option<Json>, data: seq<Byte>): Result<SpanEnvelope, DecodeError> {
    match Utf8Decode(data)
    case None => Err(DataCorrupted)
    case Some(text) => DecodeSpanText(parseJson, text)
  }

  class NotaryService {
    var client: CausableClient?
    /** The signer `KeychainSigner()` produced, if it did not throw. */
    const signer: Option<SpanSigner>
    /** The outbox `OutboxStore(path:)` opened, if it did not throw. */
    const outbox: OutboxStore?
    var deviceToken: Option<string>
    var deviceId: Option<string>
    var tenantId: Option<string>
    var ownerId: Option<string>
    /** The canonical primitives and the JSON parser every client of this service uses. */
    const prims: Primitives
    const parseJson: string -> Option<Json>

    /**
     * A client exists exactly when a device token is known, and it works on
     * this service's outbox and signer with that token.
     */
    ghost predicate Valid()
      reads this, outbox
    {
      && (outbox != null ==> outbox.Valid())
      && (client != null <==> deviceToken.Some?)
      && (client != null ==>
            && outbox != null && signer.Some?
            && client.outbox == outbox && client.signer == signer.value
            && client.token == deviceToken.value
            && client.prims == prims && client.parseJson == parseJson)
    }

    /**
     * `init` and `setupService`: open the outbox, then the signer; with both
     * in hand, load the stored credentials and, if a token was stored, set up
     * the client. A step that throws ends the setup there.
     */
    constructor(store: OutboxStore?, keySigner: Option<SpanSigner>, prims: Primitives,
                parseJson: string -> Option<Json>)
      requires store != null ==> store.Valid()
      modifies store
      ensures Valid()
      ensures outbox == store && this.prims == prims && this.parseJson == parseJson
      ensures signer == (if store == null then None else keySigner)
      ensures store != null ==> store.rows == old(store.rows) && store.kv == old(store.kv)
      ensures store == null || keySigner.None? ==>
        client == null && deviceToken.None? && deviceId.None? && tenantId.None? && ownerId.None?
      ensures store != null && keySigner.Some? ==>
        && deviceToken == Lookup(store.kv, DeviceTokenKey)
        && deviceId == Lookup(store.kv, DeviceIdKey)
        && tenantId == Lookup(store.kv, TenantIdKey)
        && ownerId == Lookup(store.kv, OwnerIdKey)
    {
      outbox := store;
      signer := if store == null then None else keySigner;
      this.prims := prims;
      this.parseJson := parseJson;
      client := null;
      deviceToken := None;
      deviceId := None;
      tenantId := None;
      ownerId := None;
      new;
      if store != null && keySigner.Some? {
        LoadCredentials();
        if deviceToken.Some? {
          SetupClient(deviceToken.value);
        }
      }
    }

    /** `setupClient(token:)`: a client over this service's outbox and signer, when both exist. */
    method SetupClient(token: string)
      requires outbox != null ==> outbox.Valid()
      modifies this`client
      ensures outbox != null && signer.Some? ==>
        && client != null && fresh(client)
        && client.outbox == outbox && client.signer == signer.value && client.token == token
        && client.prims == prims && client.parseJson == parseJson
      ensures outbox == null || signer.None? ==> client == old(client)
    {
      if outbox == null || signer.None? {
        return;
      }
      client := new CausableClient(signer.value, outbox, token, prims, parseJson);
    }

    /** `loadCredentials()`: each credential becomes what the table holds under its key, or nil. */
    method LoadCredentials()
      modifies this`deviceToken, this`deviceId, this`tenantId, this`ownerId
      ensures outbox == null ==>
        deviceToken == old(deviceToken) && deviceId == old(deviceId) && tenantId == old(tenantId) && ownerId == old(ownerId)
      ensures outbox != null ==>
        && deviceToken == Lookup(outbox.kv, DeviceTokenKey)
        && deviceId == Lookup(outbox.kv, DeviceIdKey)
        && tenantId == Lookup(outbox.kv, TenantIdKey)
        && ownerId == Lookup(outbox.kv, OwnerIdKey)
    {
      if outbox == null {
        return;
      }
      deviceToken := outbox.GetValue(DeviceTokenKey);
      deviceId := outbox.GetValue(DeviceIdKey);
      tenantId := outbox.GetValue(TenantIdKey);
      ownerId := outbox.GetValue(OwnerIdKey);
    }

    /** `saveCredentials()`: write each credential that is set under its key; leave the others. */
    method SaveCredentials()
      requires outbox != null ==> outbox.Valid()
      modifies outbox
      ensures outbox != null ==> outbox.Valid() && outbox.rows == old(outbox.rows)
      ensures outbox != null ==>
        outbox.kv == SavedCredentials(old(outbox.kv), deviceToken, deviceId, tenantId, ownerId)
    {
      if outbox == null {
        return;
      }
      if deviceToken.Some? {
        outbox.SetValue(deviceToken.value, DeviceTokenKey);
      }
      if deviceId.Some? {
        outbox.SetValue(deviceId.value, DeviceIdKey);
      }
      if tenantId.Some? {
        outbox.SetValue(tenantId.value, TenantIdKey);
      }
      if ownerId.Some? {
        outbox.SetValue(ownerId.value, OwnerIdKey);
      }
    }

    /**
     * `enqueueSpan(_:with:)`: before enrolment, the fixed "not initialized"
     * reply. Otherwise decode the span, stamp the service's credentials onto
     * a span that names no device, and ingest it; the reply is positive
     * exactly when the ingest returns. The outbox is not touched.
     */
    method EnqueueSpan(data: seq<Byte>, respond: Request -> Transport) returns (r: Reply)
      requires Valid()
      ensures client == null ==> r == Reply(false, Some(Message(NotInitializedMessage)))
      ensures client != null && DecodeSpanData(parseJson, data).Err? ==>
        r == Reply(false, Some(Thrown(SpanUndecodable(DecodeSpanData(parseJson, data).error))))
      ensures client != null && DecodeSpanData(parseJson, data).Ok? ==>
        var span := Stamped(DecodeSpanData(parseJson, data).value, tenantId, ownerId, deviceId);
        var result := Ingest(client.signer, prims, client.token, span, respond);
        && (r.ok <==> result.Ok?)
        && (r.ok ==> r.error.None?)
        && (result.Err? ==> r.error == Some(Thrown(IngestFailed(result.error))))
    {
      if client == null {
        return Reply(false, Some(Message(NotInitializedMessage)));
      }
      var decoded := DecodeSpanData(parseJson, data);
      if decoded.Err? {
        return Reply(false, Some(Thrown(SpanUndecodable(decoded.error))));
      }
      var span := decoded.value;
      if span.metadata.deviceId.None? {
        span := span.(metadata := SpanMetadata(tenantId, ownerId, deviceId, span.metadata.ts));
      }
      var result := Ingest(client.signer, client.prims, client.token, span, respond);
      if result.Err? {
        return Reply(false, Some(Thrown(IngestFailed(result.error))));
      }
      r := Reply(true, None);
    }

    /**
     * `setPolicy(_:with:)`: store the policy text under `current_policy` when
     * the bytes are UTF-8 (and skip the write when they are not), replying
     * true; reply false only when there is no outbox.
     */
    method SetPolicy(json: seq<Byte>) returns (ok: bool)
      requires outbox != null ==> outbox.Valid()
      modifies outbox
      ensures ok <==> outbox != null
      ensures outbox != null ==> outbox.Valid() && outbox.rows == old(outbox.rows)
      ensures outbox != null ==>
        outbox.kv == match Utf8Decode(json)
          case Some(text) => old(outbox.kv)[PolicyKey := text]
          case None => old(outbox.kv)
    {
      if outbox == null {
        return false;
      }
      var text := Utf8Decode(json);
      if text.Some? {
        outbox.SetValue(text.value, PolicyKey);
      }
      ok := true;
    }

    /**
     * `health(_:)`: enrolled when a device token is known, the signer active
     * when one was opened, the pending count of the outbox (0 without one),
     * and the device id or "none".
     */
    method GetHealth() returns (h: Health)
      requires Valid()
      ensures h.enrolled <==> deviceToken.Some?
      ensures h.enrolled <==> client != null
      ensures h.signer == (if signer.Some? then "active" else "inactive")
      ensures h.outboxPending == (if outbox == null then 0 else |outbox.rows|)
      ensures deviceId.Some? ==> h.deviceId == deviceId.value
      ensures deviceId.None? ==> h.deviceId == NoDevice
      ensures h.status == "ok" && h.service == "dev.causable.notary" && h.version == "1.0.0"
    {
      var pending := 0;
      if outbox != null {
        pending := outbox.PendingCount();
      }
      h := Health("ok", "dev.causable.notary", "1.0.0", deviceToken.Some?,
                  if signer.Some? then "active" else "inactive", pending, deviceId.GetOr(NoDevice));
    }

    /** `outboxStatus(_:)`: the pending count, or 0 without an outbox. */
    method OutboxStatus() returns (count: nat)
      ensures outbox == null ==> count == 0
      ensures outbox != null ==> count == |outbox.rows|
    {
      count := 0;
      if outbox != null {
        count := outbox.PendingCount();
      }
    }

    /**
     * `drainOutbox(_:)`: one `processOutbox` pass by the client, if there is
     * one; the reply is always true.
     */
    method DrainOutbox(picked: seq<real>, failed: seq<real>, network: (nat, Request) -> Transport, jitters: seq<real>,
                       ghost step: StepFn)
      returns (ok: bool)
      requires Valid()
      requires ReadingsOk(picked, failed) && JittersOk(jitters)
      requires client != null ==> client.IsDrainStep(step, picked, failed, network, jitters)
      modifies outbox
      ensures Valid() && ok
      ensures outbox != null ==> outbox.kv == old(outbox.kv)
      ensures client == null && outbox != null ==> outbox.rows == old(outbox.rows)
      ensures client != null ==> outbox.rows == DrainFrom(step, old(outbox.rows), 0, 0).rest
    {
      if client != null {
        var count := client.ProcessOutbox(picked, failed, network, jitters, step);
      }
      ok := true;
    }

    /**
     * `enroll(deviceFingerprint:with:)`: without a signer or an outbox it
     * replies with the fixed message and changes nothing; a public key or
     * enrolment request that throws is reported and changes nothing. On
     * success it stores the four credentials from the response, persists
     * them, and sets up a client with the new token.
     */
    method Enroll(fingerprint: string, enrollCall: (string, string) -> Result<EnrollResponse, ClientError>)
      returns (r: Reply)
      requires Valid()
      modifies this, outbox
      ensures Valid()
      ensures signer.None? ==> r == Reply(false, Some(Message(SignerMissingMessage)))
      ensures signer.Some? && signer.value.publicKeyHex.Err? ==>
        r == Reply(false, Some(Thrown(PublicKeyFailed(signer.value.publicKeyHex.error))))
      ensures signer.Some? && signer.value.publicKeyHex.Ok? && outbox == null ==>
        r == Reply(false, Some(Message(OutboxMissingMessage)))
      ensures r.ok <==>
        && signer.Some? && signer.value.publicKeyHex.Ok? && outbox != null
        && enrollCall(signer.value.publicKeyHex.value, fingerprint).Ok?
      ensures !r.ok ==>
        && client == old(client) && deviceToken == old(deviceToken) && deviceId == old(deviceId)
        && tenantId == old(tenantId) && ownerId == old(ownerId)
        && (outbox != null ==> outbox.kv == old(outbox.kv))
      ensures r.ok ==>
        var response := enrollCall(signer.value.publicKeyHex.value, fingerprint).value;
        && r.error.None?
        && deviceToken == Some(response.token) && deviceId == Some(response.deviceId)
        && tenantId == Some(response.tenantId) && ownerId == Some(response.ownerId)
        && outbox.kv == old(outbox.kv)[DeviceTokenKey := response.token][DeviceIdKey := response.deviceId]
                                      [TenantIdKey := response.tenantId][OwnerIdKey := response.ownerId]
        && client != null && fresh(client) && client.token == response.token
      ensures outbox != null ==> outbox.rows == old(outbox.rows)
    {
      if signer.None? {
        return Reply(false, Some(Message(SignerMissingMessage)));
      }
      var pubkey := signer.value.publicKeyHex;
      if pubkey.Err? {
        return Reply(false, Some(Thrown(PublicKeyFailed(pubkey.error))));
      }
      if outbox == null {
        return Reply(false, Some(Message(OutboxMissingMessage)));
      }
      var response := enrollCall(pubkey.value, fingerprint);
      if response.Err? {
        return Reply(false, Some(Thrown(EnrollFailed(response.error))));
      }
      deviceToken := Some(response.value.token);
      deviceId := Some(response.value.deviceId);
      tenantId := Some(response.value.tenantId);
      ownerId := Some(response.value.ownerId);
      SaveCredentials();
      SetupClient(response.value.token);
      r := Reply(true, None);
    }
  }

  /**
   * A service started over a table that holds a device token comes up
   * enrolled, with a client: credentials survive a restart.
   */
  method RestartAfterEnroll(store: OutboxStore, keySigner: SpanSigner, prims: Primitives,
                            parseJson: string -> Option<Json>, token: string)
    returns (service: NotaryService, h: Health)
    requires store.Valid() && Lookup(store.kv, DeviceTokenKey) == Some(token)
    modifies store
    ensures h.enrolled && service.client != null && service.client.token == token
  {
    service := new NotaryService(store, Some(keySigner), prims, parseJson);
    h := service.GetHealth();
  }
}
