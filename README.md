# near-forms: EC01 submissions, the WASI actions and the storage guards

near-forms is a single-form survey tool. A respondent's browser encrypts the
answers into an **EC01 envelope**: the magic `"EC01"`, a 33-byte compressed
ephemeral secp256k1 key, a 12-byte nonce, and a ChaCha20-Poly1305
ciphertext with its 16-byte tag. The envelope is addressed to a per-form public key.
That key is derived from a master key by adding the tweak
SHA256(`"near-forms:v1:"` ‖ form id). Two components handle these envelopes:

- **The WASI module** (`wasi-near-forms-ark`) runs inside a trusted
  execution environment and has two actions.
  - *SubmitForm* checks the hex-encoded envelope and forwards it to storage.
  - *ReadResponses* lets only the form's creator read the submissions. It
    derives the form's private key and decrypts every stored submission. An
    entry that fails to decode is counted as skipped, and the rest are still
    returned in their original order.
- **db-api** is the storage service. The API-Secret middleware guards its
  protected routes. POST /submissions checks the request in a fixed order
  before it inserts a row.

The model is split into these modules:

- `Results`: `Option` and `Result`.
- `Bytes`: big-endian integers, UTF-8 byte lengths, and the `hex` crate's
  decoding.
- `Crypto`: key derivation, envelope framing, `decrypt_blob` and
  `decrypt_ecdh`.
- `Wasi`: the two actions.
- `DbApi`: the middleware and `create_submission`.
- `Limits`: how the two services' size caps meet.

The cryptographic libraries are not modelled as algorithms. SHA-256, point
parsing, point multiplication and addition, HKDF-SHA256, ChaCha20-Poly1305
and the JSON parser are the fields of a `Crypto.Primitives` value that the
operations take as a parameter. What the model assumes of them is stated
once, in the predicate `Crypto.Lawful`:

- digests are 32 bytes;
- s ↦ s·G is a homomorphism from the scalars mod n;
- Diffie-Hellman agreement holds;
- HKDF returns L bytes for any L ≤ 255·32;
- AEAD opening inverts sealing and strips a 16-byte tag.

Lemmas that rely on these laws take `Lawful(prim)` as a precondition.
`Crypto.LawfulIsSatisfiable` exhibits a toy instance that meets every law,
so those lemmas are not vacuous. Everything else is modelled exactly:

- scalar parsing and addition modulo the secp256k1 order;
- the magic, length and size guards and the fixed slicing;
- hex decoding;
- the order of the guards and of the outward calls.

The environment's answers are given as a host or database record:

- the signer, environment variables and master key;
- the replies of `db::get_form`, `db::get_submissions` and
  `db::create_submission`;
- the database's answers to its two queries.

Each operation returns the outward calls it made, as a trace of effects, a
list of store calls or a list of queries. That makes "nothing happens
before the gate" a statement about the result.

The size caps do not agree, and two lemmas in `Limits` state the mismatch.
SubmitForm checks the *decoded* blob against 200·1024 bytes, then forwards
the *hex* string, which is twice as long. db-api checks that string against
200·1024 bytes. So storage admits decoded blobs of at most 102400 bytes,
half the WASI cap. The comment beside the db-api constant calls it four
times the WASI cap. Take a submitter id of 1 to 64 bytes and a form id that
parses as a UUID and names an existing form. Then every blob that SubmitForm
accepts with more than 102400 bytes is refused by `create_submission` with
413 (`Limits.LargeAcceptedBlobIsRefused`). Every smaller one passes its size check
(`Limits.SmallBlobFitsStorage`). Both lemmas are about the handler alone: the
service's 250 KiB request-body limit is not modelled, and it already answers
413 before the handler runs for blobs above roughly 128000 decoded bytes.

Two details of key derivation, as the code does it:

- The tweak is not reduced modulo n. `SecretKey::parse_slice` rejects a
  digest of zero or of at least n, and derivation then fails (`BadTweak`).
- Derivation also fails when master + tweak ≡ 0 (mod n), because
  `tweak_add_assign` refuses a zero result (`TweakOutOfRange`).

Two further details of the WASI actions:

- SubmitForm requires a signer, as `handle_submit_form` does.
- The batch loop is sequential, and the order of the results is the order of
  the input.

## Model

| member | source | states |
|---|---|---|
| Bytes.HexDecode | wasi-near-forms-ark/src/main.rs:153-154 | `hex::decode` succeeds iff the string has even length and every character is a hex digit; the digits are ASCII and the result has half as many bytes |
| Bytes.HexRoundTrip | wasi-near-forms-ark/src/main.rs:153-154 | hex decoding inverts lower-case hex encoding, so every byte string has a hex form that decodes to it |
| Bytes.HexByteLength | db-api/src/main.rs:231 | a decodable hex string is ASCII: its byte length `len()` equals its character count and is twice the decoded length |
| Crypto.ParseSecretKeyRoundTrip | wasi-near-forms-ark/src/crypto.rs:47-48 | `SecretKey::parse_slice` (`ParseSecretKey`) and 32-byte big-endian serialization are inverse: every scalar parses back from its encoding, and every byte string that parses is the encoding of its scalar |
| Crypto.DeriveFormPrivkey | wasi-near-forms-ark/src/crypto.rs:37-56 | with the tweak SHA256("near-forms:v1:" ‖ form id) parsed as a scalar (`FormTweak`): a digest that is not a scalar fails with BadTweak; otherwise the result is master + tweak when that is below n, minus n when it exceeds n, and TweakOutOfRange when it equals n |
| Crypto.KeyAgreement | wasi-near-forms-ark/src/crypto.rs:30-36 | under the group laws, deriving from the master public key gives the public key of the derived private key, and both derivations fail with the same error |
| Crypto.Split | wasi-near-forms-ark/src/crypto.rs:97-118 | every blob of at least 65 bytes splits into magic(4), key(33), nonce(12) and ciphertext(≥16) that concatenate back to the blob |
| Crypto.SplitSerialize | wasi-near-forms-ark/src/crypto.rs:97-118 | splitting the concatenation of well-sized fields gives back those fields |
| Crypto.SymmetricKeyIgnoresPrefix | wasi-near-forms-ark/src/crypto.rs:105-110 | the key is derived from the shared point's x-coordinate alone: two shared points whose compressed encodings differ only in the prefix byte give the same symmetric key |
| Crypto.SymmetricKeyIs32Bytes | wasi-near-forms-ark/src/crypto.rs:109-113 | `SymmetricKey`, HKDF over the shared point's 32-byte x-coordinate with info "near-forms:v1:ecdh" and no salt, always yields a 32-byte key under the KDF laws |
| Crypto.DecryptEcdh | wasi-near-forms-ark/src/crypto.rs:79-130 | fewer than 65 bytes gives TooShort(len), and a bad ephemeral key gives BadEphemeralKey; a plaintext is returned only when the key parses, ECDH succeeds, HKDF gives 32 bytes and the AEAD tag verifies on the [49, len) slice with the [37, 49) nonce |
| Crypto.DecryptBlob | wasi-near-forms-ark/src/crypto.rs:66-74 | length ≤ 4 or a wrong magic gives BadMagic before any curve operation; after a correct magic, fewer than 65 bytes gives TooShort; success implies both framing checks passed |
| Crypto.AcceptedFraming | wasi-near-forms-ark/src/crypto.rs:70-118 | an accepted blob is "EC01" ‖ [4,37) ‖ [37,49) ‖ [49,len), with at least a tag's worth of ciphertext |
| Crypto.InternalErrorsUnreachable | wasi-near-forms-ark/src/crypto.rs:109-123 | under the laws, the HKDF and cipher-construction errors never occur |
| Crypto.PlaintextLength | wasi-near-forms-ark/src/crypto.rs:118-127 | under the AEAD laws, an accepted blob yields exactly len − 65 plaintext bytes |
| Crypto.RoundTrip | wasi-near-forms-ark/src/crypto.rs:57-64 | an envelope sealed for key·G is 65 + len(plaintext) bytes long and `decrypt_blob` with key returns the plaintext |
| Crypto.FormRoundTrip | wasi-near-forms-ark/src/crypto.rs:30-56 | end to end: sealing for the form public key derived from the master public key opens with the form private key derived from the master private key |
| Wasi.DecodeEntry | wasi-near-forms-ark/src/main.rs:112-126 | an entry decodes iff its hex decodes, `decrypt_blob` succeeds and the plaintext parses as JSON; the response copies submitter_id and submitted_at and carries the plaintext |
| Wasi.Batch | wasi-near-forms-ark/src/main.rs:108-136 | responses plus skipped_count equals the number of submissions |
| Wasi.AcceptedIncreasing | wasi-near-forms-ark/src/main.rs:110-135 | the indices of the entries that decode are in range and strictly increasing |
| Wasi.AcceptedExactly | wasi-near-forms-ark/src/main.rs:110-135 | an index is accepted iff the submission at that index decodes |
| Wasi.BatchResponses | wasi-near-forms-ark/src/main.rs:110-135 | the j-th response is the decoding of the submission at the j-th accepted index |
| Wasi.BatchSelects | wasi-near-forms-ark/src/main.rs:110-135 | the responses are the decodable submissions in input order, and skipped_count is the number of the others |
| Wasi.BatchAppend | wasi-near-forms-ark/src/main.rs:110-135 | entries are processed independently: the batch over a concatenation is the concatenation of the batches, with the skip counts added |
| Wasi.FailureIsIsolated | wasi-near-forms-ark/src/main.rs:127-134 | a failing entry adds exactly one to skipped_count and leaves the responses of the entries before and after it unchanged |
| Wasi.DecryptSubmissions | wasi-near-forms-ark/src/main.rs:107-136 | the loop's responses and skipped_count equal `Batch` of the submissions, and decryption is attempted exactly on the entries whose hex decodes |
| Wasi.HandleReadResponses | wasi-near-forms-ark/src/main.rs:85-142 | a missing signer fails with no outward call, and a caller other than the creator fails with NotAuthorized; whenever the gate fails, no key is loaded, no submissions are fetched and nothing is decrypted; on success the gate passed, the output is `Batch` under the derived key and the calls came in source order; when every step succeeds the action succeeds |
| Wasi.ValidateBlob | wasi-near-forms-ark/src/main.rs:156-180 | a blob is accepted iff 65 ≤ len ≤ 204800, the magic is "EC01" and bytes [4,37) parse as a point; the guards fire in source order (short, magic, key, then too large); an accepted blob is unchanged |
| Wasi.ValidatedBlobFrames | wasi-near-forms-ark/src/main.rs:156-171 | an accepted blob passes every framing check of `decrypt_blob`: magic, minimum length and ephemeral key |
| Wasi.HandleSubmitForm | wasi-near-forms-ark/src/main.rs:147-197 | at most one store call is made, and it is made iff there is a signer, the hex decodes, the blob validates and both environment variables are set; it stores (FORM_ID, signer, the original hex string); success iff the store call succeeded, returning its id |
| Wasi.StoredBlobIsDecryptable | wasi-near-forms-ark/src/main.rs:185-191 | what SubmitForm stores is the unmodified hex string; it decodes to 65..204800 bytes that pass `decrypt_blob`'s framing checks |
| DbApi.LoadApiSecret | db-api/src/main.rs:330-334 | startup succeeds iff API_SECRET is set and non-empty, and the secret is its bytes |
| DbApi.RequireApiSecret | db-api/src/main.rs:96-114 | the middleware admits a request iff the provided bytes (`ProvidedSecret`: the header as text, or empty when it is missing or not text) equal the configured secret |
| DbApi.ConstantTimeEqIsEquality | db-api/src/main.rs:109 | the OR-of-XORs comparison holds iff the two byte strings are equal |
| DbApi.AdmitsExactly | db-api/src/main.rs:103-111 | a request is admitted iff its header, read as text by `HeaderValue::to_str` (`HeaderToStr`, which succeeds only when every byte is visible ASCII), equals the secret exactly; a missing or non-text header counts as empty |
| DbApi.MissingHeaderRejected | db-api/src/main.rs:108-111 | with a secret accepted at startup, a missing or non-text header is always refused |
| DbApi.CreateSubmission | db-api/src/main.rs:195-265 | a bad UUID or a submitter_id of 0 or more than 64 bytes gives 400 with no query; the form lookup comes first; the insert is issued iff every guard passes and stores the request unchanged under the new id; 200 iff admissible and the insert succeeds |
| DbApi.GuardOrder | db-api/src/main.rs:199-262 | the exact condition for each status: 400; 404 only after both request checks; 413 only once the form exists; 409 iff the insert fails with 23505; 500 for a lookup error or any other insert error |
| DbApi.PostSubmission | db-api/src/main.rs:354-360 | when the provided bytes differ from the secret the reply is 401 with no query; when they are equal it is `create_submission`'s reply |
| DbApi.WrongSecretTouchesNothing | db-api/src/main.rs:109-111 | a header other than the configured secret reaches no query |
| Limits.LargeAcceptedBlobIsRefused | db-api/src/main.rs:229-235 | a blob over 102400 bytes that SubmitForm forwards is refused by `create_submission` with 413 after only the form lookup, even for a valid submitter and an existing form |
| Limits.SmallBlobFitsStorage | db-api/src/main.rs:229-235 | a forwarded blob of at most 102400 bytes is never refused by `create_submission` for its size |

## Left out

- SHA-256, secp256k1 point decoding and arithmetic, HKDF-SHA256 and ChaCha20-Poly1305 are library calls. They are parameters of the model, and the laws in `Crypto.Lawful` are all it assumes of them.
- Tamper detection of the AEAD is not modelled, because it holds only with overwhelming probability. The laws say only that opening a sealed ciphertext gives back the plaintext.
- Encryption is done by the client and is not part of this model. `Crypto.SealEnvelope` and `Crypto.DeriveFormPubkey` are reference definitions, used only to phrase the round trip.
- GetMasterPublicKey (`handle_get_master_public_key`) is left out, because its `Input` and `Output` variants do not exist in `wasi-near-forms-ark/src/types.rs`.
- `load_master_key` and `parse_private_key` are left out: the master key is a host answer.
- `wasi-near-forms-ark/src/db.rs` is HTTP plumbing. Its three calls are fixed host answers.
- Environment variables are host fields, in both binaries.
- `Uuid::parse_str` is a parameter of `DbApi.CreateSubmission`, and so is the random `Uuid::new_v4`.
- `NOW()` and the timestamps are not modelled.
- The decrypted answers are kept as the plaintext bytes, checked by the JSON predicate of `Primitives`. Building a `serde_json::Value` from them is not modelled.
- Wasi.DecryptSubmissions: `skipped_count` is a `usize`, modelled as an unbounded natural number, because it cannot exceed the number of submissions.
- DbApi.ConstantTimeEqIsEquality: only the result of `constant_time_eq` is modelled, not its timing. Its OR-of-XORs fold is an assumed shape, because the crate is not part of this model.
- Logging (`eprintln!`, `tracing`) is left out.
- The GET handlers of db-api (`health`, `get_form`, `get_submissions`) are left out. So are `init_database`, the router, CORS, the 250 KiB body limit and `main`.
