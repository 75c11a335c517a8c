# Causable notary core in Dafny

This project models the signing-and-delivery core of the Causable SDK and the
macOS notary service built on it. The pieces are:

- A **span** (`SpanEnvelope`) records one activity: who did what to which
  thing, with metadata, and an optional input and output payload.
- **Signing** works in three steps. It takes the span's canonical JSON bytes,
  with the digest and signature removed, and hashes them into a `b3:` digest.
  It then signs that digest with an Ed25519 device key.
- **Ingest** posts the signed span to the API. The request carries an
  idempotency key made from the tenant and the digest.
- The **outbox** is a durable queue of spans that are waiting for delivery. A
  failed row is retried after a capped exponential backoff with jitter. A
  drain pass sends at most ten due rows.
- The **notary service** holds the device credentials. It stamps incoming
  spans with them, enrols the device and reports its health.
- The **activity observer** turns app and window focus changes into spans. It
  redacts window titles that look sensitive.

The model has one module per concern:

| module | file | source |
|---|---|---|
| `Hex` | hex.dfy | the two hex codecs (`Utils.swift`, `Signer.swift`) |
| `Codec` | codec.dfy | the canonical JSON encoder, UTF-8 and the digest (`Utils.swift`) |
| `Envelope` | envelope.dfy | `AnyCodable`, `SpanMetadata`, `Signature`, `SpanEnvelope` and their wire form |
| `Signer` | signer.dfy | the `SpanSigner` capability, `Ed25519Signer`, and the `KeychainSigner` load-or-create key |
| `Outbox` | outbox.dfy | the class `OutboxStore` (a table of pending rows and a key/value table) |
| `Drain` | drain.dfy | one drain pass of `processOutbox`, as a specification over rows |
| `Client` | client.dfy | `signSpan`, `ingest`, and the class `CausableClient` with its `ProcessOutbox` loop |
| `Notary` | notary.dfy | the class `NotaryService` |
| `Observer` | observer.dfy | redaction, the activity span, and the class `ActivityObserver` |

`Wrappers` (wrappers.dfy) holds the `Option`, `Result` and `Outcome` types.

Some behaviour comes from outside the core. Each such piece is a parameter, so
every proof holds for any choice of it:

- **Cryptography.** The digest function is `hash`, with a fixed 32-byte
  output. The code computes SHA-256 and renders it behind a `b3:` prefix.
  Ed25519 is a `Curve` with `publicKeyOf` and `signWith`.
- **Number text.** The text `JSONEncoder` writes for a `Double` is `fmt`: its
  `description`, with a trailing ".0" dropped, so 1e20 is written "1e+20".
  Integers are written in decimal. The JSON value keeps a number's kind
  (`JInt` or `JDouble`), so an integral double is written through `fmt` too.
- **JSON parsing.** `JSONDecoder`'s parser is `parseJson`.
- **Network.** The network is a function from a request to a `Transport`
  reply.
- **Time and jitter.** The clock is `now`, in seconds, as a `real`. A drain
  pass reads the clock once per step in `nextAttempt` (`picked[k]`) and once
  more in `markFailure` after a failed upload (`failed[k]`). The readings never
  decrease. The random jitter is a fraction in [0, 0.3] that the caller
  supplies.

Where the SQLite table updates rows in place, the outbox keeps its rows as a
`seq<Row>` field that each method reassigns. Each method is proved against a
function over the rows: `Remove`, `Reschedule`, `NextEntry` or `DueCount`.

## Model

| member | source | states |
|---|---|---|
| Hex.HexString | CausableSDK/Sources/CausableSDK/Utils.swift:34-36 | two lower-case hex digits per byte, so the text is twice as long as the data |
| Hex.HexStringAt | CausableSDK/Sources/CausableSDK/Utils.swift:35 | character 2k is the digit of byte k's high nibble; character 2k+1 is the digit of its low nibble |
| Hex.HexCharValue | CausableSDK/Sources/CausableSDK/Utils.swift:49 | both decoders read each digit the encoder writes back as its nibble |
| Hex.DecodeHexStrict | CausableSDK/Sources/CausableSDK/Utils.swift:39-62 | the loop's result equals the strict decoding `StrictHex` |
| Hex.StrictHexMeaning | CausableSDK/Sources/CausableSDK/Utils.swift:39-62 | fails exactly when the length is odd or some character is not a hex digit; otherwise byte k is 16*high+low of characters 2k and 2k+1 |
| Hex.StrictRoundTrip | CausableSDK/Tests/CausableSDKTests/UtilsTests.swift:47-53 | strict decoding of `hexString` gives back the original data |
| Hex.LenientHex | CausableSDK/Sources/CausableSDK/Signer.swift:124-137 | a successful decoding holds |s|/2 bytes |
| Hex.DecodeHexLenient | CausableSDK/Sources/CausableSDK/Signer.swift:124-137 | the loop's result is `LenientHex`: byte k is the radix-16 parse of pair k, and decoding fails exactly when some whole pair does not parse |
| Hex.LenientHexNone | CausableSDK/Sources/CausableSDK/Signer.swift:130-132 | a failed lenient decoding names a pair that does not parse |
| Hex.LenientIgnoresOddTail | CausableSDK/Sources/CausableSDK/Signer.swift:125-127 | an odd final character is dropped by the lenient decoder, while the strict decoder rejects the same text |
| Hex.LenientRoundTrip | CausableSDK/Tests/CausableSDKTests/CausableSDKTests.swift:146-155 | lenient decoding of `hexString` gives back the original data |
| Hex.DecodersDisagreeOnOddLength | CausableSDK/Tests/CausableSDKTests/UtilsTests.swift:55-60 | "123" is rejected by the strict decoder, but the lenient one reads it as [0x12] |
| Codec.MinKey | CausableSDK/Sources/CausableSDK/Utils.swift:9 | the least key of a set is in it and is below every other key |
| Codec.SortedKeys | CausableSDK/Sources/CausableSDK/Utils.swift:9 | exactly the keys of the object, strictly ascending |
| Codec.ObjectMembersSorted | CausableSDK/Sources/CausableSDK/Utils.swift:5-12 | an object renders as its members in sorted key order |
| Codec.DeclarationOrderIrrelevant | CausableSDK/Tests/CausableSDKTests/UtilsTests.swift:6-22 | two member lists with the same pairs render to the same canonical text, whatever their order |
| Codec.Utf8Char | CausableSDK/Sources/CausableSDK/Client.swift:108 | a scalar takes 1 to 4 bytes, and one byte exactly when it is ASCII |
| Codec.Utf8Append | CausableSDK/Sources/CausableSDK/Client.swift:108 | UTF-8 encoding of a concatenation is the concatenation of the encodings |
| Codec.Utf8Ascii | CausableSDK/Sources/CausableSDK/Client.swift:108 | ASCII text encodes one byte per character, each byte equal to its character's code |
| Codec.DecodeScalarOfChar | CausableConductor/NotaryXPCService/NotaryXPCService.swift:164 | the decoder reads back the scalar at the head of an encoding, with its length |
| Codec.Utf8RoundTrip | CausableConductor/NotaryXPCService/NotaryXPCService.swift:164 | decoding the UTF-8 bytes of any text gives back that text |
| Codec.EncodeDecodedScalar | CausableConductor/NotaryXPCService/NotaryXPCService.swift:164 | a scalar the decoder accepts re-encodes to exactly the bytes it consumed |
| Codec.Utf8DecodeSound | CausableConductor/NotaryXPCService/NotaryXPCService.swift:164 | any bytes the decoder accepts are the encoding of the text it returns |
| Codec.ComputeDigestBytes | CausableSDK/Sources/CausableSDK/Utils.swift:26-28 | the raw digest is 32 bytes |
| Codec.ComputeDigest | CausableSDK/Sources/CausableSDK/Utils.swift:19-23 | the text digest is "b3:" followed by 64 lower-case hex digits |
| Codec.DigestHexDecodes | CausableSDK/Sources/CausableSDK/Utils.swift:19-28 | the hex part of the text digest decodes to the raw digest bytes |
| Envelope.DecodeAny | CausableSDK/Sources/CausableSDK/Envelope.swift:106-126 | decoding succeeds exactly when every number is in range, and then yields a supported payload |
| Envelope.EncodeAny | CausableSDK/Sources/CausableSDK/Envelope.swift:128-151 | encoding succeeds exactly for supported payloads, and then yields in-range numbers |
| Envelope.AnyRoundTrip | CausableSDK/Sources/CausableSDK/Envelope.swift:106-151 | a payload whose doubles are not integral encodes and decodes back to itself |
| Envelope.FaithfulIsSupported | CausableSDK/Sources/CausableSDK/Envelope.swift:128-151 | every payload that round-trips can be encoded |
| Envelope.NumberText | CausableSDK/Sources/CausableSDK/Envelope.swift:135-138 | an `Int` payload is written in decimal and a `Double` payload through the double formatter, whole-number doubles included |
| Envelope.IntegralDoubleReadsBackAsInt | CausableSDK/Sources/CausableSDK/Envelope.swift:113-116 | an integral double comes back as an Int, and `==` then says it differs from what was sent |
| Envelope.SameIsEquality | CausableSDK/Sources/CausableSDK/Envelope.swift:155-177 | for supported payloads, `==` is structural equality |
| Envelope.UnsupportedNeverEqual | CausableSDK/Sources/CausableSDK/Envelope.swift:174-176 | a value of an unsupported type is equal to nothing, not even itself |
| Envelope.Unsigned | CausableSDK/Sources/CausableSDK/Client.swift:66-68 | the copy that is hashed has neither digest nor signature |
| Envelope.SameContentFields | CausableSDK/Sources/CausableSDK/Envelope.swift:39-51 | two spans have the same content exactly when every field except digest and signature agrees |
| Envelope.MetadataKeys | CausableSDK/Sources/CausableSDK/Envelope.swift:23-28 | metadata is written under `tenant_id`, `owner_id`, `device_id` (when present) and `ts` |
| Envelope.SpanWireKeys | CausableSDK/Sources/CausableSDK/Envelope.swift:53-66 | a span encodes exactly when its payloads are supported, under the snake_case keys, with optional members only when present |
| Envelope.FieldsRoundTrip | CausableSDK/Sources/CausableSDK/Envelope.swift:53-66 | an input or output payload map reads back as written |
| Envelope.MetadataRoundTrip | CausableSDK/Sources/CausableSDK/Envelope.swift:17-36 | metadata reads back as written |
| Envelope.SignatureRoundTrip | CausableSDK/Sources/CausableSDK/Envelope.swift:4-14 | the signature reads back as written, and absence as absence |
| Envelope.SpanRoundTrip | CausableSDK/Tests/CausableSDKTests/EnvelopeTests.swift:6-40 | a span with round-trippable payloads encodes, and decodes back to itself |
| Signer.Ed25519 | CausableSDK/Sources/CausableSDK/Signer.swift:13-35 | the public key is the hex of the curve's public key; `sign` is the curve's signature with the key, and always succeeds |
| Signer.Ed25519Shape | CausableSDK/Tests/CausableSDKTests/SignerTests.swift:7-27 | the public key is 64 hex digits and signatures are 64 bytes; signing is deterministic; the hex key decodes to the key bytes |
| Signer.AsSpanSigner | CausableSDK/Sources/CausableSDK/Signer.swift:66-72 | a keychain signer reports the hex public key of its stored key, which decodes back to that key, and signs every message with that key without failing |
| Signer.LoadOrCreate | CausableSDK/Sources/CausableSDK/Signer.swift:52-64 | the key in use is the key stored at the item; other items are unchanged |
| Signer.KeyStableAcrossRestarts | CausableSDK/Sources/CausableSDK/Signer.swift:52-64 | a second start over the saved items loads the same key, whatever fresh key it would have generated |
| Signer.FreshKeyOnlyWhenAbsent | CausableSDK/Sources/CausableSDK/Signer.swift:56-63 | the keychain changes exactly when no key was stored, and a key is then generated and used |
| Signer.Keychain.NewKeychainSigner | CausableSDK/Sources/CausableSDK/Signer.swift:52-64 | the key returned and the keychain left behind are those of `LoadOrCreate` |
| Outbox.EarliestDue | CausableSDK/Sources/CausableSDK/Outbox.swift:53-65 | no row is due, or the chosen row is due and has the smallest next-attempt time, with ties going to the earlier row |
| Outbox.EarliestDueUnique | CausableSDK/Sources/CausableSDK/Outbox.swift:57-58 | there is only one earliest due row |
| Outbox.Remove | CausableSDK/Sources/CausableSDK/Outbox.swift:67-70 | after deletion, no row has the id |
| Outbox.RemoveMembers | CausableSDK/Sources/CausableSDK/Outbox.swift:67-70 | deletion keeps every other row and nothing else |
| Outbox.RemoveAbsent | CausableSDK/Sources/CausableSDK/Outbox.swift:67-70 | deleting an absent id changes nothing |
| Outbox.RemoveIdempotent | CausableSDK/Sources/CausableSDK/Outbox.swift:67-70 | deleting twice is deleting once |
| Outbox.RemoveOne | CausableSDK/Sources/CausableSDK/Outbox.swift:67-70 | with unique ids, exactly that one row goes |
| Outbox.RemoveKeepsUnique | CausableSDK/Sources/CausableSDK/Outbox.swift:22-30 | the primary-key and unique-digest constraints survive a deletion |
| Outbox.BackoffBase | CausableSDK/Sources/CausableSDK/Outbox.swift:83 | the base delay is backoff·2^tries when that is at most 1800 seconds, and exactly 1800 otherwise |
| Outbox.DelayBounds | CausableSDK/Sources/CausableSDK/Outbox.swift:83-85 | the delay lies between the base and 1.3 times the base |
| Outbox.FirstRetryDoubles | CausableSDK/Sources/CausableSDK/Outbox.swift:80-85 | the first retry waits twice the backoff, 120 s for the default 60 s without jitter |
| Outbox.Retried | CausableSDK/Sources/CausableSDK/Outbox.swift:79-90 | a failed row keeps its id, digest and JSON, and its try count goes up by one |
| Outbox.IndexOfId | CausableSDK/Sources/CausableSDK/Outbox.swift:76-78 | finds a row with the id exactly when there is one |
| Outbox.Reschedule | CausableSDK/Sources/CausableSDK/Outbox.swift:72-91 | an unknown id changes nothing; otherwise only that row is replaced by its retried form |
| Outbox.RescheduleKeepsUnique | CausableSDK/Sources/CausableSDK/Outbox.swift:22-30 | rescheduling keeps ids and digests unique |
| Outbox.FailedRowNotDue | CausableSDK/Sources/CausableSDK/Outbox.swift:83-90 | with a positive backoff, a rescheduled row is no longer due now |
| Outbox.DueCount | CausableSDK/Sources/CausableSDK/Outbox.swift:53-65 | is zero exactly when no row is due |
| Outbox.DueCountReplace | CausableSDK/Sources/CausableSDK/Outbox.swift:72-91 | deferring a due row lowers the due count by one |
| Outbox.DueCountRemove | CausableSDK/Sources/CausableSDK/Outbox.swift:67-70 | deleting a due row lowers the due count by one |
| Outbox.OutboxStore.constructor | CausableSDK/Sources/CausableSDK/Outbox.swift:20-40 | a new store has no rows and no values |
| Outbox.OutboxStore.Enqueue | CausableSDK/Sources/CausableSDK/Outbox.swift:42-51 | appends a row with zero tries that is due now, exactly when the id and digest are both new; otherwise fails and changes nothing |
| Outbox.OutboxStore.NextAttempt | CausableSDK/Sources/CausableSDK/Outbox.swift:53-65 | returns nothing exactly when no row is due, else the earliest due row's entry |
| Outbox.OutboxStore.MarkSuccess | CausableSDK/Sources/CausableSDK/Outbox.swift:67-70 | the rows become `Remove(rows, id)`; the values are unchanged |
| Outbox.OutboxStore.MarkFailure | CausableSDK/Sources/CausableSDK/Outbox.swift:72-91 | the rows become `Reschedule(rows, id, …)`; the values are unchanged |
| Outbox.OutboxStore.PendingCount | CausableSDK/Sources/CausableSDK/Outbox.swift:93-95 | the number of rows |
| Outbox.OutboxStore.SetValue | CausableSDK/Sources/CausableSDK/Outbox.swift:99-106 | inserts or replaces the key's value; the rows are unchanged |
| Outbox.OutboxStore.GetValue | CausableSDK/Sources/CausableSDK/Outbox.swift:108-111 | the stored value exactly when the key is present |
| Outbox.FailureDefersOnlyRow | CausableSDK/Tests/CausableSDKTests/CausableSDKTests.swift:104-122 | after one failure, the only row is kept with one try and is not offered again now |
| Outbox.PendingCountEffects | CausableSDK/Tests/CausableSDKTests/CausableSDKTests.swift:124-141 | a failure keeps the pending count, and a success lowers it by one |
| Drain.StepRow | CausableSDK/Sources/CausableSDK/Outbox.swift:53-65 | the entry offered comes from the earliest due row at the step's clock reading |
| Drain.DeleteStep | CausableSDK/Sources/CausableSDK/Client.swift:184-194 | deleting a due row keeps keys unique, removes one due row and shrinks the table by one |
| Drain.DeferStep | CausableSDK/Sources/CausableSDK/Outbox.swift:72-92 | rescheduling a row due at t from a later reading keeps keys unique, is not due at that reading, and leaves one fewer row due at t |
| Drain.StepCounts | CausableSDK/Sources/CausableSDK/Client.swift:178-197 | each step removes one row from those due when the pass began (if any remain) and counts at most one delivery, which deleted a row |
| Drain.StepKeepsIdle | CausableSDK/Sources/CausableSDK/Client.swift:178-197 | a step leaves every row not due at the pass's last reading untouched |
| Drain.StepDescends | CausableSDK/Sources/CausableSDK/Client.swift:178-197 | every row after a turn is an old row or its retried form |
| Drain.NoEntryWhenNoneDue | CausableSDK/Sources/CausableSDK/Client.swift:179-181 | `nextAttempt` finds no row exactly when no row is due at its reading |
| Drain.OutboxStepSound | CausableSDK/Sources/CausableSDK/Client.swift:178-198 | the outbox's step, with a clock that never runs backwards, meets the three step obligations the drain lemmas assume |
| Drain.DrainUnfold | CausableSDK/Sources/CausableSDK/Client.swift:178-198 | while below the batch limit and an entry is due, the pass takes one more turn |
| Drain.DrainStops | CausableSDK/Sources/CausableSDK/Client.swift:178-181 | the pass stops, at the current step, after ten steps or when nothing is due |
| Drain.DrainEnds | CausableSDK/Sources/CausableSDK/Client.swift:178-181 | a pass stops within ten steps, and before the tenth only where its step finds no row |
| Drain.ReadingsRise | CausableSDK/Sources/CausableSDK/Outbox.swift:54 | clock readings taken in order do not decrease from one step to a later one |
| Drain.EarliestWasDue | CausableSDK/Sources/CausableSDK/Outbox.swift:53-65 | while any row due at an earlier reading remains, the row picked at a later reading was already due then |
| Drain.DueStaysDue | CausableSDK/Sources/CausableSDK/Outbox.swift:53-65 | a row is handed out at any later reading whenever one was due earlier |
| Drain.DrainKeepsUnique | CausableSDK/Sources/CausableSDK/Client.swift:174-201 | a pass keeps the row invariant |
| Drain.DrainDue | CausableSDK/Sources/CausableSDK/Client.swift:174-201 | a pass takes min(10, due) rows out of the set due when it began |
| Drain.DrainCountBounded | CausableSDK/Sources/CausableSDK/Client.swift:174-201 | the success count lies between 0 and 10 |
| Drain.DrainCountsDeletes | CausableSDK/Sources/CausableSDK/Client.swift:191-194 | each success deletes a row |
| Drain.DrainKeepsIdle | CausableSDK/Sources/CausableSDK/Client.swift:174-201 | rows not due at the last reading survive a pass unchanged |
| Drain.DrainDescends | CausableSDK/Sources/CausableSDK/Client.swift:174-201 | a pass creates no new rows, only retried forms of old ones |
| Drain.DrainOutbox | CausableSDK/Sources/CausableSDK/Client.swift:174-201 | a whole pass with readings that never decrease: uniqueness kept, at most 10 successes, each of which deleted a row, min(10, due at the start) rows taken out of the due set, nothing due at the step where it stops early, rows not due at the last reading kept, nothing new |
| Client.SignedMeaning | CausableSDK/Sources/CausableSDK/Client.swift:62-86 | the signed span is the unsigned span plus the `b3:` digest of its canonical bytes, and an ed25519 signature over the raw digest, tagged with the public key; failures come only from the signer |
| Client.SigningIgnoresProvenance | CausableSDK/Sources/CausableSDK/Client.swift:66-72 | spans that differ only in digest and signature sign identically |
| Client.ResigningIsStable | CausableSDK/Sources/CausableSDK/Client.swift:66-72 | signing an already signed span reproduces it |
| Client.IdempotencyKeyMeaning | CausableSDK/Sources/CausableSDK/Client.swift:106-110 | a key is sent exactly when tenant and digest are both present, and it is the hex of the UTF-8 bytes of `tenant-digest`, which decodes back to them |
| Client.JudgeMeaning | CausableSDK/Sources/CausableSDK/Client.swift:114-135 | a 2xx reply with a decodable body yields its id; other statuses, a non-HTTP reply and a transport failure give their respective errors |
| Client.SignedEncodes | CausableSDK/Sources/CausableSDK/Client.swift:112-113 | a span that signed also encodes for the request body |
| Client.IngestSendsSigned | CausableSDK/Sources/CausableSDK/Client.swift:92-135 | ingest posts the signed span with the bearer token and the idempotency key, and judges the reply |
| Client.IngestSigningFailure | CausableSDK/Sources/CausableSDK/Client.swift:93-94 | a signing failure is ingest's result, and nothing is sent |
| Client.SignedSpanHasKey | CausableSDK/Sources/CausableSDK/Client.swift:106-110 | a signed span with a tenant always carries an idempotency key |
| Client.CausableClient.constructor | CausableSDK/Sources/CausableSDK/Client.swift:44-59 | the client holds the given signer, outbox and token |
| Client.CausableClient.SignSpan | CausableSDK/Sources/CausableSDK/Client.swift:62-86 | on success the span becomes `Signed(span)` and keeps its content; on failure it is left as it was and the signer's error is reported |
| Client.CausableClient.Handle | CausableSDK/Sources/CausableSDK/Client.swift:184-197 | one entry is handled as `Step`: deleted when undecodable or delivered, otherwise deferred with backoff 60 from the step's second clock reading |
| Client.CausableClient.Turn | CausableSDK/Sources/CausableSDK/Client.swift:179-197 | a turn stops exactly when the step finds nothing due, and otherwise does what the step says |
| Client.CausableClient.DrainOnce | CausableSDK/Sources/CausableSDK/Client.swift:178-198 | one loop iteration keeps the remaining pass equal to the specified pass |
| Client.CausableClient.ProcessOutbox | CausableSDK/Sources/CausableSDK/Client.swift:174-201 | the success count and the rows left are those of `DrainFrom(step, rows, 0, 0)`, whose properties `Drain.DrainOutbox` states |
| Notary.Lookup | CausableConductor/NotaryXPCService/NotaryXPCService.swift:74-77 | a stored credential is found exactly when its key is present |
| Notary.CredentialsRoundTrip | CausableConductor/NotaryXPCService/NotaryXPCService.swift:70-102 | credentials that were saved load back; absent ones keep any earlier stored value |
| Notary.Stamped | CausableConductor/NotaryXPCService/NotaryXPCService.swift:135-143 | a span that has a device id is untouched; otherwise its metadata takes the service's credentials, keeping `ts` and every other field |
| Notary.StampIdempotent | CausableConductor/NotaryXPCService/NotaryXPCService.swift:135-143 | stamping twice is stamping once |
| Notary.StampedSpanCarriesTenantKey | CausableConductor/NotaryXPCService/NotaryXPCService.swift:135-146 | a stamped span from an enrolled service carries a digest, and goes out with the key built from the service's tenant and that digest |
| Notary.ActivitySpansTakeServiceCredentials | CausableConductor/NotaryXPCService/NotaryXPCService.swift:135-143 | an observer span reaches the service without a device id, and so is always stamped with the service's credentials |
| Notary.NotaryService.constructor | CausableConductor/NotaryXPCService/NotaryXPCService.swift:16-52 | a new service keeps the store, loads the credentials, and builds a client exactly when a token was stored |
| Notary.NotaryService.SetupClient | CausableConductor/NotaryXPCService/NotaryXPCService.swift:54-68 | a client is built over the service's outbox and signer when both exist; otherwise nothing changes |
| Notary.NotaryService.LoadCredentials | CausableConductor/NotaryXPCService/NotaryXPCService.swift:70-81 | each credential is read from its key, and none is touched without an outbox |
| Notary.NotaryService.SaveCredentials | CausableConductor/NotaryXPCService/NotaryXPCService.swift:83-102 | each present credential is written under its key; the rows are unchanged |
| Notary.NotaryService.EnqueueSpan | CausableConductor/NotaryXPCService/NotaryXPCService.swift:124-154 | without a client the reply is the not-enrolled message; otherwise it is an undecodable-span error, or the outcome of ingesting the stamped span |
| Notary.NotaryService.SetPolicy | CausableConductor/NotaryXPCService/NotaryXPCService.swift:156-173 | succeeds exactly when there is an outbox, and stores the policy text when the bytes are UTF-8 |
| Notary.NotaryService.GetHealth | CausableConductor/NotaryXPCService/NotaryXPCService.swift:175-192 | enrolled exactly when a token is held; the signer state, the pending count (0 without an outbox) and the device id or "none" |
| Notary.NotaryService.OutboxStatus | CausableConductor/NotaryXPCService/NotaryXPCService.swift:194-197 | the pending count, or 0 without an outbox |
| Notary.NotaryService.DrainOutbox | CausableConductor/NotaryXPCService/NotaryXPCService.swift:199-204 | replies true; with a client the rows become those the drained pass leaves, and without one nothing changes |
| Notary.NotaryService.Enroll | CausableConductor/NotaryXPCService/NotaryXPCService.swift:206-253 | checks the signer, public key, outbox and enrol call in the source's order; on success it stores and saves the four credentials and sets up a client with the new token |
| Notary.RestartAfterEnroll | CausableConductor/NotaryXPCService/NotaryXPCService.swift:38-44 | a service started over a store that holds a token is enrolled, and its client uses that token |
| Observer.Lowercased | CausableConductor/CausableConductor/ActivityObserver.swift:126 | same length, each character lower-cased |
| Observer.FirstMatch | CausableConductor/CausableConductor/ActivityObserver.swift:128-132 | the scan finds a match exactly when some pattern occurs in the lower-cased text |
| Observer.PlaceholderNotSensitive | CausableConductor/CausableConductor/ActivityObserver.swift:130 | "[REDACTED]" itself contains no pattern |
| Observer.RedactMeaning | CausableConductor/CausableConductor/ActivityObserver.swift:125-135 | sensitive text becomes the placeholder, and other text is kept; the result is never sensitive, and redaction is idempotent |
| Observer.RedactIgnoresCase | CausableConductor/CausableConductor/ActivityObserver.swift:126 | sensitivity does not depend on letter case |
| Observer.ActivitySpanSendable | CausableConductor/CausableConductor/ActivityObserver.swift:137-168 | an activity span carries a clean title and always encodes |
| Observer.ActivitySpanSound | CausableConductor/CausableConductor/ActivityObserver.swift:137-163 | the activity span has the fixed fields and no device id, and its JSON decodes back to it |
| Observer.AllCleanAppend | CausableConductor/CausableConductor/ActivityObserver.swift:113-120 | appending a clean span keeps every sent title clean |
| Observer.NoRepeatsAppend | CausableConductor/CausableConductor/ActivityObserver.swift:106-111 | appending an activity that differs from the last keeps consecutive records distinct |
| Observer.ActivityObserver.constructor | CausableConductor/CausableConductor/ActivityObserver.swift:24-26 | a new observer is stopped, has no last activity and has sent nothing |
| Observer.ActivityObserver.Start | CausableConductor/CausableConductor/ActivityObserver.swift:28-47 | the observer is running afterwards, and a second start changes nothing |
| Observer.ActivityObserver.Stop | CausableConductor/CausableConductor/ActivityObserver.swift:49-62 | the observer is stopped afterwards, and a second stop changes nothing |
| Observer.ActivityObserver.SendSpan | CausableConductor/CausableConductor/ActivityObserver.swift:165-178 | the span is sent exactly when connected and it encodes |
| Observer.ActivityObserver.RecordActivity | CausableConductor/CausableConductor/ActivityObserver.swift:105-123 | a repeat of the last activity is dropped; otherwise it becomes the last activity, and its span with the redacted title is sent |
| Observer.ActivityObserver.PollActivity | CausableConductor/CausableConductor/ActivityObserver.swift:75-85 | when stopped, or with no frontmost app, nothing happens; otherwise the app name (or "Unknown") and the title (or "") become the last activity, and a new pair is recorded and, when connected, sent as one activity span with the redacted title |
| Observer.ActivityObserver.HandleAppActivation | CausableConductor/CausableConductor/ActivityObserver.swift:64-73 | a notification without an app is ignored; otherwise the app name (or "Unknown") and the title (or "") become the last activity, and a new pair is recorded and, when connected, sent as one activity span with the redacted title |

## Left out

- SQLite itself is not modelled: the file, the `prepare`/`step` errors, and schema creation. A failing store call is not modelled either, so `pendingCount` never hits the `try? … ?? 0` fallback in the facade.
- Outbox.OutboxStore.Enqueue: the clock reading `Date()` is the `now` parameter, and `next_attempt_at` starts at it. The conversion of `Date` values to SQLite column values is not modelled.
- Outbox.BackoffBase: `pow` on doubles is exact `real` arithmetic, so double rounding is not modelled.
- Outbox.OutboxStore.MarkFailure: the jitter is a parameter in [0, 0.3] rather than a random draw, and the new time is `now + delay` in exact reals.
- Outbox.EarliestDue: SQLite leaves the order of rows with equal `next_attempt_at` unspecified. The model picks the first of them in insertion order.
- Client.swift calls `markSent(id:)` and `markFailed(id:error:)`, which OutboxStore does not define. The model uses `markSuccess` and `markFailure` with the default backoff of 60 s. An entry whose JSON does not decode is deleted without being counted, as the code does.
- Outbox.OutboxStore.NextAttempt: returns the whole entry (id, digest, JSON, tries). The source returns only the id and the JSON.
- Time is a real number of seconds. `ts` strings (ISO 8601 from `Date()`) are opaque parameters.
- SHA-256 (Utils.swift:17-28), Ed25519 key generation and signing, and the text of a `Double` are parameters (`hash`, `Curve`, `fmt`). Every double, whole or not, is written through `fmt`. Of those algorithms the model assumes their output sizes, and that signing is a function of key and message.
- Envelope.DecodeAny: reads a number by the value it denotes. Any whole number within the range of `Int` decodes as `Int`, whatever its written form. Whether Foundation's `decode(Int.self)` accepts exponent text such as "1e+17" is not modelled.
- Client.ResigningIsStable: holds because `Curve.signWith` is a function, as SignerTests.swift:25-27 expects. CryptoKit's Ed25519 signatures are randomised, and with such a signer the signature of a re-signed span differs. The digest part of the lemma does not depend on this.
- The text parsing in `JSONDecoder` is the parameter `parseJson`, so the model does not prove that it inverts the canonical encoder. The mapping from parsed JSON values to spans (`SpanFromJson`) is modelled.
- The request body is encoded with the canonical encoder (Client.swift:112-113), and the model uses the same canonical bytes. The plain `JSONEncoder()` in ActivityObserver.swift:167, whose key order is unspecified, is not modelled; `sendSpan` records the span instead of its bytes.
- URLSession and HTTP are reduced to a function from a request to a `Transport` reply. Concurrency, `async`, cancellation and the `[weak self]` captures are not modelled.
- The two `Data(hexString:)` decoders disagree on odd-length text: Signer.swift:125 drops the last character, while Utils.swift:41 rejects the text. Both are modelled as written (`Hex.DecodersDisagreeOnOddLength`).
- `CausableClient.enroll` is called by the notary but does not exist in Client.swift. The model takes the enrol call as a parameter, `enrollCall(pubkey, fingerprint)`.
- `tokenProvider` is a closure that reads the service's current token. In the model the client holds the token the service had when it built the client; `Notary.NotaryService.Valid` keeps the two equal.
- The notary's temporary enrolment client (`tokenProvider: { nil }`) is not built, because only its `enroll` call is used.
- Client.swift does not enqueue during `ingest`: the signed span is posted directly. Only `processOutbox` reads the outbox. The facade's comment says ingest stores the span, and the model follows the code.
- Error texts (`localizedDescription`) are typed errors (`ReplyError.Thrown(cause)`) rather than strings.
- Notary.NotaryService.GetHealth: returns the health record's fields. `JSONSerialization` of the record, and its `{"status":"error"}` fallback, are not modelled.
- The drain timer (every 30 s), the poll timer (every 15 s), the XPC listener and connection, NSWorkspace notifications and the `CGWindowList` window discovery are not modelled. Their results arrive as parameters: the front app, the window title, the notification's app.
- Drain.DrainOutbox: the clock is assumed never to run backwards during a pass. The readings past the step where a pass stops are never taken, so the idle-row clause may be read with the last reading equal to the final one taken. A wall clock that is set back during a pass is not modelled.
- Hex.DecodeHexLenient: the model counts and slices Unicode scalars, while Signer.swift:125-130 counts and slices `Character`s (grapheme clusters). With a combining mark the two differ: "ab\u{301}" has two characters, "a" and "b\u{301}", so the source returns nil, while the model decodes the scalars "ab" to [0xAB] and drops the mark. Text made of hex digits alone agrees. `Hex.LenientHex` shares this limitation; the strict decoder `Hex.StrictHex` rejects any non-hex scalar under either view.
- Codec.SortedKeys: the model sorts keys by Unicode code point. Foundation's `.sortedKeys` compares keys with a numeric, locale-aware ordering, so keys such as "item2" and "item10" come out in different orders, and digests of spans whose payload keys differ in that way are not those of the source. The span's own fixed member names are ordered the same way under both.
- `NotaryXPCService.drainOutboxAsync` calls `client.drainOutbox()` (NotaryXPCService.swift:119), which Client.swift does not define. The model calls `ProcessOutbox`, the only drain the client has.
- Notary.Stamped: NotaryXPCService.swift:137-142 builds a `SpanEnvelope.Metadata`, which does not exist, and assigns to `metadata`, which Envelope.swift:48 declares with `let`. The model gives the span new `SpanMetadata` with the service's credentials and the old `ts`, which is evidently what was meant.
- Signer.LoadOrCreate: keychain failures are not modelled. `saveKey` can throw (Signer.swift:62), and a `loadKey` error other than "not found" is swallowed by `try?`, after which the key is generated and the save of a duplicate item fails. In the model every keychain call succeeds.
- Observer.ActivityObserver.RecordActivity: the repeat test compares app names and titles scalar by scalar. Swift's `String ==` (ActivityObserver.swift:107) uses canonical equivalence, so a title that arrives precomposed ("caf\u{E9}") and then decomposed ("cafe\u{301}") is one repeat in the source. The model records it twice, sends a second span, and counts the two as distinct in `NoRepeats`. `PollActivity` and `HandleAppActivation` inherit this. Likewise `Observer.Contains` searches for a pattern scalar by scalar, not with `String.contains`'s Unicode-aware comparison (ActivityObserver.swift:129).
- Observer.Lowercased: lowercases ASCII letters only. `String.lowercased()` also folds non-ASCII letters, so a non-ASCII title that folds onto a pattern is not covered.
- `ActivityObserver.sendSpan` hands the encoded span to the XPC connection. The model records the sent spans instead, and does not model the reply callback.
- `createActivitySpan` relies on `SpanEnvelope`'s default `id`, a fresh UUID. In the model the id is a parameter.
- The OS keychain calls (`SecItemAdd`, `SecItemCopyMatching`, in Signer.swift:74-113) become a map of stored items. KeychainSigner.swift, a second copy of the load-or-create signer, is not part of this model; the model follows the Signer.swift version.
- Integer payload values are `Int64` values held as unbounded integers, range-checked against the 64-bit bounds. Doubles are reals bounded by the largest finite double; NaN, infinities and rounding are not modelled.
- The SSE client, the menu bar controller, the app delegate and `XPCConnection` are not part of this model.
