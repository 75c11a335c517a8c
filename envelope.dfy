/**
 * The span envelope and its dynamically typed payload values.
 *
 * `AnyCodable` wraps a Swift `Any`. Its payload is modelled as the tagged
 * union `Payload`: the seven shapes the coder understands, plus `Unsupported`
 * for any other Swift value that can be wrapped but not encoded. Decoding reads
 * a JSON document (`Codec.Json`); encoding writes one. The span records
 * carry the wire names of their synthesised `CodingKeys`; optional fields are
 * left out of the document when nil, as `encodeIfPresent` does.
 */
module Envelope {
  import opened Wrappers
  import opened Codec

  const Int64Min: int := -0x8000_0000_0000_0000
  const Int64Max: int := 0x7FFF_FFFF_FFFF_FFFF

  /** Swift's `Int` on the 64-bit platforms the SDK targets. */
  type Int64 = x: int | Int64Min <= x <= Int64Max

  /** The largest finite `Double`, (2^53 - 1) * 2^971. */
  const MaxDouble: real := 179769313486231570814527423731704356798070567525844996598917476803157260780028538760589558632766878171540458953514382464234321326889464182768467546703537516986049910576551282076245490090389328944075868508455133942304583236903222948165808559332123348274797826204144723168738177180919299881250404026184124858368.0

  /** A finite `Double`, by value. */
  type Float64 = r: real | -MaxDouble <= r <= MaxDouble

  /** The value an `AnyCodable` holds. */
  datatype Payload =
    | AnyNull
    | AnyBool(b: bool)
    | AnyInt(i: Int64)
    | AnyDouble(d: Float64)
    | AnyString(s: string)
    | AnyArray(items: seq<Payload>)
    | AnyObject(fields: map<string, Payload>)
    | Unsupported(typeName: string)

  datatype DecodeError =
    | KeyNotFound(key: string)
    | ValueNotFound(key: string)
    | TypeMismatch(key: string)
    | DataCorrupted

  datatype EncodeError = InvalidValue

  /** No `Unsupported` value anywhere inside. */
  predicate Supported(p: Payload)
    decreases p
  {
    match p
    case AnyArray(xs) => forall i :: 0 <= i < |xs| ==> Supported(xs[i])
    case AnyObject(m) => forall k :: k in m ==> Supported(m[k])
    case Unsupported(_) => false
    case _ => true
  }

  predicate IsNumber(j: Json) {
    j.JInt? || j.JDouble?
  }

  /** The value a number denotes, however it was written. */
  function NumberValue(j: Json): real
    requires IsNumber(j)
  {
    if j.JInt? then j.i as real else j.d
  }

  /** Every number in the document is a finite double. */
  predicate NumbersInRange(j: Json)
    decreases j
  {
    match j
    case JInt(i) => -MaxDouble <= i as real <= MaxDouble
    case JDouble(d) => -MaxDouble <= d <= MaxDouble
    case JArray(xs) => forall i :: 0 <= i < |xs| ==> NumbersInRange(xs[i])
    case JObject(m) => forall k :: k in m ==> NumbersInRange(m[k])
    case _ => true
  }

  // ---------------------------------------------------------------------------
  // AnyCodable decoding
  // ---------------------------------------------------------------------------

  /** `decode(Int.self)`: an integral number within the range of `Int`. */
  function DecodeInt(j: Json): Option<Int64> {
    if IsNumber(j) && IsIntegral(NumberValue(j)) && Int64Min <= NumberValue(j).Floor <= Int64Max
    then Some(NumberValue(j).Floor) else None
  }

  /** `decode(Double.self)`: a number a finite double can hold. */
  function DecodeDouble(j: Json): Option<Float64> {
    if IsNumber(j) && -MaxDouble <= NumberValue(j) <= MaxDouble then Some(NumberValue(j)) else None
  }

  /**
   * `AnyCodable.init(from:)`: null, bool, int, double, string, array of
   * `AnyCodable`, dictionary of `AnyCodable`, tried in that order; the first
   * that succeeds wins. It fails exactly when some number is too large for a
   * double, and what it yields never holds an unsupported value.
   */
  function DecodeAny(j: Json): (r: Result<Payload, DecodeError>)
    ensures r.Ok? <==> NumbersInRange(j)
    ensures r.Ok? ==> Supported(r.value)
    decreases j
  {
    if j.JNull? then Ok(AnyNull)
    else if j.JBool? then Ok(AnyBool(j.b))
    else if DecodeInt(j).Some? then Ok(AnyInt(DecodeInt(j).value))
    else if DecodeDouble(j).Some? then Ok(AnyDouble(DecodeDouble(j).value))
    else if j.JString? then Ok(AnyString(j.s))
    else if j.JArray? && forall i :: 0 <= i < |j.items| ==> DecodeAny(j.items[i]).Ok? then
      Ok(AnyArray(seq(|j.items|, i requires 0 <= i < |j.items| => DecodeAny(j.items[i]).value)))
    else if j.JObject? && forall k :: k in j.members ==> DecodeAny(j.members[k]).Ok? then
      Ok(AnyObject(map k | k in j.members :: DecodeAny(j.members[k]).value))
    else Err(DataCorrupted)
  }

  // ---------------------------------------------------------------------------
  // AnyCodable encoding
  // ---------------------------------------------------------------------------

  /**
   * `AnyCodable.encode(to:)`: each supported shape becomes the JSON value of
   * the same kind; an unsupported payload anywhere inside makes it throw.
   */
  function EncodeAny(p: Payload): (r: Result<Json, EncodeError>)
    ensures r.Ok? <==> Supported(p)
    ensures r.Ok? ==> NumbersInRange(r.value)
    decreases p
  {
    match p
    case AnyNull => Ok(JNull)
    case AnyBool(b) => Ok(JBool(b))
    case AnyInt(i) => Ok(JInt(i))
    case AnyDouble(d) => Ok(JDouble(d))
    case AnyString(s) => Ok(JString(s))
    case AnyArray(xs) =>
      if forall i :: 0 <= i < |xs| ==> EncodeAny(xs[i]).Ok? then
        Ok(JArray(seq(|xs|, i requires 0 <= i < |xs| => EncodeAny(xs[i]).value)))
      else Err(InvalidValue)
    case AnyObject(m) =>
      if forall k :: k in m ==> EncodeAny(m[k]).Ok? then
        Ok(JObject(map k | k in m :: EncodeAny(m[k]).value))
      else Err(InvalidValue)
    case Unsupported(_) => Err(InvalidValue)
  }

  /**
   * The values that survive an encode/decode round trip unchanged: supported,
   * and no double that is an integral value within the range of `Int`
   * (those come back as `Int`, see `IntegralDoubleReadsBackAsInt`).
   */
  predicate Faithful(p: Payload)
    decreases p
  {
    match p
    case AnyDouble(d) => !(IsIntegral(d) && Int64Min <= d.Floor <= Int64Max)
    case AnyArray(xs) => forall i :: 0 <= i < |xs| ==> Faithful(xs[i])
    case AnyObject(m) => forall k :: k in m ==> Faithful(m[k])
    case Unsupported(_) => false
    case _ => true
  }

  lemma {:induction false} AnyRoundTrip(p: Payload)
    requires Faithful(p)
    ensures EncodeAny(p).Ok? && DecodeAny(EncodeAny(p).value) == Ok(p)
    decreases p
  {
    FaithfulIsSupported(p);
    match p
    case AnyArray(xs) =>
      var js := EncodeAny(p).value.items;
      forall i | 0 <= i < |xs| ensures DecodeAny(js[i]) == Ok(xs[i]) {
        AnyRoundTrip(xs[i]);
      }
      assert seq(|js|, i requires 0 <= i < |js| => DecodeAny(js[i]).value) == xs;
    case AnyObject(m) =>
      var jm := EncodeAny(p).value.members;
      assert jm.Keys == m.Keys;
      forall k | k in m ensures DecodeAny(jm[k]) == Ok(m[k]) {
        AnyRoundTrip(m[k]);
      }
      var dm := map k | k in jm :: DecodeAny(jm[k]).value;
      assert dm.Keys == m.Keys;
      assert forall k | k in m :: dm[k] == m[k];
      assert dm == m;
    case AnyInt(i) =>
      assert (i as real).Floor == i;
    case _ =>
  }

  /**
   * A number keeps its kind on the wire: an `Int` is written in decimal, and
   * a `Double` as the encoder writes a double even when it holds a whole
   * number, so `AnyDouble(1e20)` is written "1e+20" and `AnyInt` never is.
   */
  lemma NumberText(p: Payload, fmt: real -> string)
    requires p.AnyInt? || p.AnyDouble?
    ensures EncodeAny(p).Ok?
    ensures p.AnyInt? ==> Render(EncodeAny(p).value, fmt) == IntText(p.i)
    ensures p.AnyDouble? ==> Render(EncodeAny(p).value, fmt) == fmt(p.d)
  {
  }

  lemma {:induction false} FaithfulIsSupported(p: Payload)
    requires Faithful(p)
    ensures Supported(p)
    decreases p
  {
    match p
    case AnyArray(xs) =>
      forall i | 0 <= i < |xs| ensures Supported(xs[i]) {
        FaithfulIsSupported(xs[i]);
      }
    case AnyObject(m) =>
      forall k | k in m ensures Supported(m[k]) {
        FaithfulIsSupported(m[k]);
      }
    case _ =>
  }

  /**
   * A `Double` holding a whole number within the range of `Int` is read back
   * by the `Int` branch, which is tried first: the value changes shape.
   */
  lemma IntegralDoubleReadsBackAsInt(d: Float64)
    requires IsIntegral(d) && Int64Min <= d.Floor <= Int64Max
    ensures DecodeAny(EncodeAny(AnyDouble(d)).value) == Ok(AnyInt(d.Floor))
    ensures !Same(AnyDouble(d), AnyInt(d.Floor))
  {
  }

  // ---------------------------------------------------------------------------
  // AnyCodable equality
  // ---------------------------------------------------------------------------

  /**
   * `AnyCodable ==`: two nulls; equal scalars of the same shape; arrays of
   * the same length equal element by element; dictionaries of the same size
   * whose every left key is present on the right with an equal value. Any
   * other pair, including two unsupported values, is unequal.
   */
  predicate Same(a: Payload, b: Payload)
    decreases a
  {
    match a
    case AnyNull => b.AnyNull?
    case AnyBool(x) => b.AnyBool? && x == b.b
    case AnyInt(x) => b.AnyInt? && x == b.i
    case AnyDouble(x) => b.AnyDouble? && x == b.d
    case AnyString(x) => b.AnyString? && x == b.s
    case AnyArray(xs) =>
      b.AnyArray? && |xs| == |b.items| && forall i :: 0 <= i < |xs| ==> Same(xs[i], b.items[i])
    case AnyObject(l) =>
      b.AnyObject? && |l| == |b.fields| && forall k :: k in l ==> k in b.fields && Same(l[k], b.fields[k])
    case Unsupported(_) => false
  }

  lemma SubsetOfSameSize(a: set<string>, b: set<string>)
    requires a <= b && |a| == |b|
    ensures a == b
  {
    assert b == a + (b - a);
    assert a * (b - a) == {};
    assert |b - a| == 0;
  }

  /**
   * On supported values `==` is structural equality: key order never
   * matters and the comparison is exact in both directions.
   */
  lemma {:induction false} SameIsEquality(a: Payload, b: Payload)
    requires Supported(a)
    ensures Same(a, b) <==> a == b
    decreases a
  {
    match a
    case AnyArray(xs) =>
      if b.AnyArray? && |xs| == |b.items| {
        forall i | 0 <= i < |xs| ensures Same(xs[i], b.items[i]) <==> xs[i] == b.items[i] {
          SameIsEquality(xs[i], b.items[i]);
        }
        if Same(a, b) {
          assert xs == b.items;
        }
      }
    case AnyObject(l) =>
      if b.AnyObject? {
        var r := b.fields;
        forall k | k in l && k in r ensures Same(l[k], r[k]) <==> l[k] == r[k] {
          SameIsEquality(l[k], r[k]);
        }
        if Same(a, b) {
          assert l.Keys <= r.Keys;
          SubsetOfSameSize(l.Keys, r.Keys);
          assert l == r;
        }
      }
    case _ =>
  }

  /** An unsupported value is not even equal to itself. */
  lemma UnsupportedNeverEqual(t: string, b: Payload)
    ensures !Same(Unsupported(t), b) && !Same(b, Unsupported(t))
  {
  }

  // ---------------------------------------------------------------------------
  // Span records
  // ---------------------------------------------------------------------------

  datatype Signature = Signature(algo: string, pubkey: string, sig: string)

  datatype SpanMetadata = SpanMetadata(
    tenantId: Option<string>,
    ownerId: Option<string>,
    deviceId: Option<string>,
    ts: string)

  /**
   * `SpanEnvelope`. All fields but `digest` and `signature` are fixed at
   * construction; those two are the only ones a holder may replace. The
   * field written `this` on the wire is `thisRef` here (`this` is reserved).
   */
  datatype SpanEnvelope = SpanEnvelope(
    id: string,
    entityType: string,
    who: string,
    did: string,
    thisRef: string,
    status: string,
    input: Option<map<string, Payload>>,
    output: Option<map<string, Payload>>,
    metadata: SpanMetadata,
    visibility: string,
    digest: Option<string>,
    signature: Option<Signature>)

  /** The span with its two mutable fields cleared. */
  function Unsigned(s: SpanEnvelope): (u: SpanEnvelope)
    ensures u.digest.None? && u.signature.None?
  {
    s.(digest := None, signature := None)
  }

  /** Two spans agree on every field that is fixed at construction. */
  predicate SameContent(a: SpanEnvelope, b: SpanEnvelope) {
    Unsigned(a) == Unsigned(b)
  }

  lemma SameContentFields(a: SpanEnvelope, b: SpanEnvelope)
    ensures SameContent(a, b) <==>
      a.id == b.id && a.entityType == b.entityType && a.who == b.who && a.did == b.did &&
      a.thisRef == b.thisRef && a.status == b.status && a.input == b.input &&
      a.output == b.output && a.metadata == b.metadata && a.visibility == b.visibility
  {
  }

  // ---------------------------------------------------------------------------
  // Span encoding, with the wire names of the CodingKeys
  // ---------------------------------------------------------------------------

  function OptString(key: string, o: Option<string>): map<string, Json> {
    if o.Some? then map[key := JString(o.value)] else map[]
  }

  function OptMember(key: string, o: Option<Json>): map<string, Json> {
    if o.Some? then map[key := o.value] else map[]
  }

  function MetadataToJson(m: SpanMetadata): Json {
    JObject(map["ts" := JString(m.ts)]
      + OptString("tenant_id", m.tenantId)
      + OptString("owner_id", m.ownerId)
      + OptString("device_id", m.deviceId))
  }

  function SignatureToJson(g: Signature): Json {
    JObject(map["algo" := JString(g.algo), "pubkey" := JString(g.pubkey), "sig" := JString(g.sig)])
  }

  /** A `[String: AnyCodable]?` field: absent when nil, an object otherwise. */
  function EncodeFields(f: Option<map<string, Payload>>): Result<Option<Json>, EncodeError> {
    if f.None? then Ok(None)
    else
      var j :- EncodeAny(AnyObject(f.value));
      Ok(Some(j))
  }

  /** The members every span document has. */
  function RequiredMembers(s: SpanEnvelope): map<string, Json> {
    map[
      "id" := JString(s.id),
      "entity_type" := JString(s.entityType),
      "who" := JString(s.who),
      "did" := JString(s.did),
      "this" := JString(s.thisRef),
      "status" := JString(s.status),
      "metadata" := MetadataToJson(s.metadata),
      "visibility" := JString(s.visibility)]
  }

  function SignatureMember(g: Option<Signature>): Option<Json> {
    if g.Some? then Some(SignatureToJson(g.value)) else None
  }

  /** The members written only when the field is set (`encodeIfPresent`). */
  function OptionalMembers(s: SpanEnvelope, input: Option<Json>, output: Option<Json>): map<string, Json> {
    OptMember("input", input)
    + OptMember("output", output)
    + OptString("digest", s.digest)
    + OptMember("signature", SignatureMember(s.signature))
  }

  function SpanMembers(s: SpanEnvelope, input: Option<Json>, output: Option<Json>): map<string, Json> {
    RequiredMembers(s) + OptionalMembers(s, input, output)
  }

  /** The document `JSONEncoder` writes for a span. */
  function SpanToJson(s: SpanEnvelope): Result<Json, EncodeError> {
    var input :- EncodeFields(s.input);
    var output :- EncodeFields(s.output);
    Ok(JObject(SpanMembers(s, input, output)))
  }

  predicate FieldsSupported(f: Option<map<string, Payload>>) {
    f.Some? ==> forall k :: k in f.value ==> Supported(f.value[k])
  }

  predicate FieldsFaithful(f: Option<map<string, Payload>>) {
    f.Some? ==> forall k :: k in f.value ==> Faithful(f.value[k])
  }

  lemma RequiredMembersAt(s: SpanEnvelope)
    ensures
      var m := RequiredMembers(s);
      && m.Keys == {"id", "entity_type", "who", "did", "this", "status", "metadata", "visibility"}
      && m["id"] == JString(s.id)
      && m["entity_type"] == JString(s.entityType)
      && m["who"] == JString(s.who)
      && m["did"] == JString(s.did)
      && m["this"] == JString(s.thisRef)
      && m["status"] == JString(s.status)
      && m["metadata"] == MetadataToJson(s.metadata)
      && m["visibility"] == JString(s.visibility)
  {
  }

  lemma OptionalMembersAt(s: SpanEnvelope, input: Option<Json>, output: Option<Json>)
    ensures
      var m := OptionalMembers(s, input, output);
      && m.Keys ==
        (if input.Some? then {"input"} else {})
        + (if output.Some? then {"output"} else {})
        + (if s.digest.Some? then {"digest"} else {})
        + (if s.signature.Some? then {"signature"} else {})
      && (input.Some? ==> m["input"] == input.value)
      && (output.Some? ==> m["output"] == output.value)
      && (s.digest.Some? ==> m["digest"] == JString(s.digest.value))
      && (s.signature.Some? ==> m["signature"] == SignatureToJson(s.signature.value))
  {
  }

  lemma SpanMembersKeys(s: SpanEnvelope, input: Option<Json>, output: Option<Json>)
    ensures SpanMembers(s, input, output).Keys ==
      {"id", "entity_type", "who", "did", "this", "status", "metadata", "visibility"}
      + (if input.Some? then {"input"} else {})
      + (if output.Some? then {"output"} else {})
      + (if s.digest.Some? then {"digest"} else {})
      + (if s.signature.Some? then {"signature"} else {})
  {
    RequiredMembersAt(s);
    OptionalMembersAt(s, input, output);
  }

  lemma MetadataKeys(md: SpanMetadata)
    ensures MetadataToJson(md).members.Keys ==
      {"ts"}
      + (if md.tenantId.Some? then {"tenant_id"} else {})
      + (if md.ownerId.Some? then {"owner_id"} else {})
      + (if md.deviceId.Some? then {"device_id"} else {})
  {
  }

  /**
   * Encoding a span fails exactly when its input or output holds an
   * unsupported value; otherwise the document has the wire names of the
   * CodingKeys, the optional ones only when set.
   */
  lemma SpanWireKeys(s: SpanEnvelope)
    ensures SpanToJson(s).Ok? <==> FieldsSupported(s.input) && FieldsSupported(s.output)
    ensures SpanToJson(s).Ok? ==>
      var j := SpanToJson(s).value;
      && j.JObject?
      && j.members.Keys ==
        {"id", "entity_type", "who", "did", "this", "status", "metadata", "visibility"}
        + (if s.input.Some? then {"input"} else {})
        + (if s.output.Some? then {"output"} else {})
        + (if s.digest.Some? then {"digest"} else {})
        + (if s.signature.Some? then {"signature"} else {})
      && j.members["metadata"] == MetadataToJson(s.metadata)
  {
    if s.input.Some? {
      assert EncodeAny(AnyObject(s.input.value)).Ok? <==> FieldsSupported(s.input);
    }
    if s.output.Some? {
      assert EncodeAny(AnyObject(s.output.value)).Ok? <==> FieldsSupported(s.output);
    }
    if SpanToJson(s).Ok? {
      var input := EncodeFields(s.input).value;
      var output := EncodeFields(s.output).value;
      SpanMembersKeys(s, input, output);
      SpanRequiredAt(s, input, output);
    }
  }

  // ---------------------------------------------------------------------------
  // Span decoding (the synthesised `init(from:)`)
  // ---------------------------------------------------------------------------

  function RequiredString(m: map<string, Json>, key: string): Result<string, DecodeError> {
    if key !in m then Err(KeyNotFound(key))
    else if m[key].JString? then Ok(m[key].s)
    else if m[key].JNull? then Err(ValueNotFound(key))
    else Err(TypeMismatch(key))
  }

  /** `decodeIfPresent(String.self, ...)`: absent or null is nil. */
  function OptionalString(m: map<string, Json>, key: string): Result<Option<string>, DecodeError> {
    if key !in m || m[key].JNull? then Ok(None)
    else if m[key].JString? then Ok(Some(m[key].s))
    else Err(TypeMismatch(key))
  }

  /** `decodeIfPresent([String: AnyCodable].self, ...)`. */
  function OptionalFields(m: map<string, Json>, key: string): Result<Option<map<string, Payload>>, DecodeError> {
    if key !in m || m[key].JNull? then Ok(None)
    else if !m[key].JObject? then Err(TypeMismatch(key))
    else
      var fields := m[key].members;
      if forall k :: k in fields ==> DecodeAny(fields[k]).Ok? then
        Ok(Some(map k | k in fields :: DecodeAny(fields[k]).value))
      else Err(DataCorrupted)
  }

  function MetadataFromJson(m: map<string, Json>, key: string): Result<SpanMetadata, DecodeError> {
    if key !in m then Err(KeyNotFound(key))
    else if m[key].JNull? then Err(ValueNotFound(key))
    else if !m[key].JObject? then Err(TypeMismatch(key))
    else
      var fm := m[key].members;
      var tenantId :- OptionalString(fm, "tenant_id");
      var ownerId :- OptionalString(fm, "owner_id");
      var deviceId :- OptionalString(fm, "device_id");
      var ts :- RequiredString(fm, "ts");
      Ok(SpanMetadata(tenantId, ownerId, deviceId, ts))
  }

  function OptionalSignature(m: map<string, Json>, key: string): Result<Option<Signature>, DecodeError> {
    if key !in m || m[key].JNull? then Ok(None)
    else if !m[key].JObject? then Err(TypeMismatch(key))
    else
      var gm := m[key].members;
      var algo :- RequiredString(gm, "algo");
      var pubkey :- RequiredString(gm, "pubkey");
      var sig :- RequiredString(gm, "sig");
      Ok(Some(Signature(algo, pubkey, sig)))
  }

  /** The span `JSONDecoder` reads from a document; keys it does not know are ignored. */
  function SpanFromJson(j: Json): Result<SpanEnvelope, DecodeError> {
    if !j.JObject? then Err(TypeMismatch(""))
    else
      var m := j.members;
      var id :- RequiredString(m, "id");
      var entityType :- RequiredString(m, "entity_type");
      var who :- RequiredString(m, "who");
      var did :- RequiredString(m, "did");
      var thisRef :- RequiredString(m, "this");
      var status :- RequiredString(m, "status");
      var input :- OptionalFields(m, "input");
      var output :- OptionalFields(m, "output");
      var metadata :- MetadataFromJson(m, "metadata");
      var visibility :- RequiredString(m, "visibility");
      var digest :- OptionalString(m, "digest");
      var signature :- OptionalSignature(m, "signature");
      Ok(SpanEnvelope(id, entityType, who, did, thisRef, status, input, output, metadata, visibility, digest, signature))
  }

  lemma FieldsRoundTrip(f: Option<map<string, Payload>>, key: string, m: map<string, Json>)
    requires FieldsFaithful(f)
    requires EncodeFields(f).Ok?
    requires key in m <==> f.Some?
    requires f.Some? ==> m[key] == EncodeFields(f).value.value
    ensures OptionalFields(m, key) == Ok(f)
  {
    if f.Some? {
      var p := AnyObject(f.value);
      assert Faithful(p);
      AnyRoundTrip(p);
      var fields := m[key].members;
      assert DecodeAny(JObject(fields)) == Ok(p);
    }
  }

  lemma UnionLeft(r: map<string, Json>, o: map<string, Json>, k: string)
    requires k in r && k !in o
    ensures k in r + o && (r + o)[k] == r[k]
  {
  }

  lemma UnionRight(r: map<string, Json>, o: map<string, Json>, k: string)
    ensures k in r + o <==> k in r || k in o
    ensures k in o ==> (r + o)[k] == o[k]
  {
  }

  lemma OptionalKeys(s: SpanEnvelope, input: Option<Json>, output: Option<Json>)
    ensures OptionalMembers(s, input, output).Keys <= {"input", "output", "digest", "signature"}
  {
  }

  /** The optional members never reuse a required wire name. */
  lemma OptionalMembersApart(s: SpanEnvelope, input: Option<Json>, output: Option<Json>)
    ensures
      var o := OptionalMembers(s, input, output);
      && "id" !in o && "entity_type" !in o && "who" !in o && "did" !in o
      && "this" !in o && "status" !in o && "visibility" !in o && "metadata" !in o
  {
    OptionalKeys(s, input, output);
  }

  /** A span document holds the required fields under their wire names... */
  lemma SpanRequiredAt(s: SpanEnvelope, input: Option<Json>, output: Option<Json>)
    ensures
      var m := SpanMembers(s, input, output);
      && RequiredString(m, "id") == Ok(s.id)
      && RequiredString(m, "entity_type") == Ok(s.entityType)
      && RequiredString(m, "who") == Ok(s.who)
      && RequiredString(m, "did") == Ok(s.did)
      && RequiredString(m, "this") == Ok(s.thisRef)
      && RequiredString(m, "status") == Ok(s.status)
      && RequiredString(m, "visibility") == Ok(s.visibility)
      && "metadata" in m && m["metadata"] == MetadataToJson(s.metadata)
  {
    var r := RequiredMembers(s);
    var o := OptionalMembers(s, input, output);
    RequiredMembersAt(s);
    OptionalMembersApart(s, input, output);
    UnionLeft(r, o, "id");
    UnionLeft(r, o, "entity_type");
    UnionLeft(r, o, "who");
    UnionLeft(r, o, "did");
    UnionLeft(r, o, "this");
    UnionLeft(r, o, "status");
    UnionLeft(r, o, "visibility");
    UnionLeft(r, o, "metadata");
  }

  lemma RequiredMembersApart(s: SpanEnvelope)
    ensures
      var r := RequiredMembers(s);
      "input" !in r && "output" !in r && "digest" !in r && "signature" !in r
  {
  }

  /** ... and the optional ones only when set. */
  lemma SpanOptionalAt(s: SpanEnvelope, input: Option<Json>, output: Option<Json>)
    ensures
      var m := SpanMembers(s, input, output);
      && ("input" in m <==> input.Some?) && (input.Some? ==> m["input"] == input.value)
      && ("output" in m <==> output.Some?) && (output.Some? ==> m["output"] == output.value)
      && OptionalString(m, "digest") == Ok(s.digest)
      && ("signature" in m <==> s.signature.Some?)
      && (s.signature.Some? ==> m["signature"] == SignatureToJson(s.signature.value))
  {
    var r := RequiredMembers(s);
    var o := OptionalMembers(s, input, output);
    RequiredMembersApart(s);
    OptionalMembersAt(s, input, output);
    UnionRight(r, o, "input");
    UnionRight(r, o, "output");
    UnionRight(r, o, "digest");
    UnionRight(r, o, "signature");
  }

  lemma MetadataRoundTrip(md: SpanMetadata, m: map<string, Json>)
    requires "metadata" in m && m["metadata"] == MetadataToJson(md)
    ensures MetadataFromJson(m, "metadata") == Ok(md)
  {
    var fm := MetadataToJson(md).members;
    assert OptionalString(fm, "tenant_id") == Ok(md.tenantId);
    assert OptionalString(fm, "owner_id") == Ok(md.ownerId);
    assert OptionalString(fm, "device_id") == Ok(md.deviceId);
    assert RequiredString(fm, "ts") == Ok(md.ts);
  }

  lemma SignatureRoundTrip(g: Option<Signature>, m: map<string, Json>)
    requires "signature" in m <==> g.Some?
    requires g.Some? ==> m["signature"] == SignatureToJson(g.value)
    ensures OptionalSignature(m, "signature") == Ok(g)
  {
    if g.Some? {
      var gm := SignatureToJson(g.value).members;
      assert RequiredString(gm, "algo") == Ok(g.value.algo);
      assert RequiredString(gm, "pubkey") == Ok(g.value.pubkey);
      assert RequiredString(gm, "sig") == Ok(g.value.sig);
    }
  }

  /** Encoding a span and decoding the document gives the span back. */
  lemma SpanRoundTrip(s: SpanEnvelope)
    requires FieldsFaithful(s.input) && FieldsFaithful(s.output)
    ensures SpanToJson(s).Ok?
    ensures SpanFromJson(SpanToJson(s).value) == Ok(s)
  {
    if s.input.Some? {
      AnyRoundTrip(AnyObject(s.input.value));
    }
    if s.output.Some? {
      AnyRoundTrip(AnyObject(s.output.value));
    }
    var input := EncodeFields(s.input).value;
    var output := EncodeFields(s.output).value;
    var m := SpanMembers(s, input, output);
    assert SpanToJson(s) == Ok(JObject(m));
    SpanRequiredAt(s, input, output);
    SpanOptionalAt(s, input, output);
    FieldsRoundTrip(s.input, "input", m);
    FieldsRoundTrip(s.output, "output", m);
    MetadataRoundTrip(s.metadata, m);
    SignatureRoundTrip(s.signature, m);
  }
}
