/**
 * Form-key derivation and EC01 envelope decryption
 * (wasi-near-forms-ark/src/crypto.rs).
 *
 * The cryptographic libraries (secp256k1 point arithmetic, SHA-256,
 * HKDF-SHA256, ChaCha20-Poly1305) are not modelled: they are the fields of a
 * `Primitives` value that every operation takes as a parameter, and the
 * properties the model relies on are collected in the predicate `Lawful`.
 * Scalar arithmetic modulo the group order, secret-key parsing and all
 * framing, slicing and length guards are modelled exactly.
 */
module Crypto {
  import opened Results
  import opened Bytes

  /** Order of the secp256k1 group (SEC 2, section 2.4.1). */
  const N: int := 0xFFFF_FFFF_FFFF_FFFF_FFFF_FFFF_FFFF_FFFE_BAAE_DCE6_AF48_A03B_BFD2_5E8C_D036_4141

  /** A libsecp256k1 `SecretKey`: a scalar in [1, n). */
  type SecretKey = s: int | 0 < s < N witness 1

  /**
   * A libsecp256k1 `PublicKey`, represented by its 33-byte compressed
   * encoding (SEC 1, section 2.3.3), which identifies the point uniquely.
   */
  type Point = s: seq<byte> | |s| == 33 witness seq(33, _ => 2)

  /** "EC01" */
  const MAGIC: seq<byte> := [0x45, 0x43, 0x30, 0x31]
  const DERIVATION_PREFIX: seq<byte> := Utf8Encode("near-forms:v1:")
  const HKDF_INFO: seq<byte> := Utf8Encode("near-forms:v1:ecdh")

  const HEADER_SIZE: nat := 4
  const PUBKEY_SIZE: nat := 33
  const NONCE_SIZE: nat := 12
  const TAG_SIZE: nat := 16
  const MIN_SIZE: nat := HEADER_SIZE + PUBKEY_SIZE + NONCE_SIZE + TAG_SIZE

  /** The width of a serialized scalar, in bytes. */
  const SCALAR_SIZE: nat := 32

  /** The library calls the modelled code makes. */
  datatype Primitives = Primitives(
    /** SHA-256 digest. */
    sha256: seq<byte> -> seq<byte>,
    /** Whether 33 bytes decode as a compressed curve point (`PublicKey::parse_slice`). */
    isCurvePoint: Point -> bool,
    /** `PublicKey::from_secret_key`: the point s·G. */
    publicKeyOf: SecretKey -> Point,
    /** `PublicKey::tweak_mul_assign`: the point P·s. */
    mulPoint: (Point, SecretKey) -> Option<Point>,
    /** `PublicKey::combine`: P + Q, absent when the sum is the point at infinity. */
    addPoints: (Point, Point) -> Option<Point>,
    /** HKDF-SHA256 with no salt: (input key material, info, output length). */
    hkdfSha256: (seq<byte>, seq<byte>, nat) -> Option<seq<byte>>,
    /** ChaCha20-Poly1305 encryption: (key, nonce, plaintext) to ciphertext with tag. */
    aeadSeal: (seq<byte>, seq<byte>, seq<byte>) -> seq<byte>,
    /** ChaCha20-Poly1305 decryption: absent when the tag does not verify. */
    aeadOpen: (seq<byte>, seq<byte>, seq<byte>) -> Option<seq<byte>>,
    /** Whether bytes parse as a JSON value (`serde_json::from_slice`). */
    parsesAsJson: seq<byte> -> bool
  )

  /** SHA-256 digests are 32 bytes. */
  ghost predicate HashLaws(prim: Primitives) {
    forall m :: |prim.sha256(m)| == 32
  }

  /**
   * secp256k1: s·G is a valid point; Diffie-Hellman agreement (a·G)·b = (b·G)·a,
   * where multiplying by a nonzero scalar succeeds; and s ↦ s·G is a group
   * homomorphism from the scalars mod n, with the point at infinity absent.
   */
  ghost predicate GroupLaws(prim: Primitives) {
    && (forall s :: prim.isCurvePoint(prim.publicKeyOf(s)))
    && (forall a, b :: prim.mulPoint(prim.publicKeyOf(a), b).Some?)
    && (forall a, b :: prim.mulPoint(prim.publicKeyOf(a), b) == prim.mulPoint(prim.publicKeyOf(b), a))
    && (forall a, b :: PublicKeysAdd(prim, a, b))
  }

  /** a·G + b·G = ((a + b) mod n)·G, and the sum is absent when it is the point at infinity. */
  ghost predicate PublicKeysAdd(prim: Primitives, a: SecretKey, b: SecretKey) {
    prim.addPoints(prim.publicKeyOf(a), prim.publicKeyOf(b)) ==
      if (a + b) % N == 0 then None else Some(prim.publicKeyOf((a + b) % N))
  }

  /** HKDF (RFC 5869) yields exactly L bytes, for any L up to 255 hash lengths. */
  ghost predicate KdfLaws(prim: Primitives) {
    && (forall ikm, info, len :: prim.hkdfSha256(ikm, info, len).Some? <==> len <= 255 * 32)
    && (forall ikm, info, len :: prim.hkdfSha256(ikm, info, len).Some? ==>
          |prim.hkdfSha256(ikm, info, len).value| == len)
  }

  /** AEAD (RFC 8439): a 16-byte tag is appended, and decryption inverts encryption. */
  ghost predicate AeadLaws(prim: Primitives) {
    && (forall k, n, p :: |prim.aeadSeal(k, n, p)| == |p| + TAG_SIZE)
    && (forall k, n, p :: prim.aeadOpen(k, n, prim.aeadSeal(k, n, p)) == Some(p))
    && (forall k, n, c :: prim.aeadOpen(k, n, c).Some? ==>
          |c| >= TAG_SIZE && |prim.aeadOpen(k, n, c).value| == |c| - TAG_SIZE)
  }

  /** What the libraries guarantee and the model relies on. */
  ghost predicate Lawful(prim: Primitives) {
    HashLaws(prim) && GroupLaws(prim) && KdfLaws(prim) && AeadLaws(prim)
  }

  // The assumptions in `Lawful` are consistent: a toy instance meets all of
  // them, so the lemmas that assume them are not vacuous.

  lemma Pow256At32()
    ensures N < Pow256(32)
  {
    assert Pow256(2) == 0x1_0000;
    Pow256Add(2, 2);
    assert Pow256(4) == 0x1_0000_0000;
    Pow256Add(4, 4);
    assert Pow256(8) == 0x1_0000_0000_0000_0000;
    Pow256Add(8, 8);
    assert Pow256(16) == 0x1_0000_0000_0000_0000_0000_0000_0000_0000;
    Pow256Add(16, 16);
    assert Pow256(32) == 0x1_0000_0000_0000_0000_0000_0000_0000_0000_0000_0000_0000_0000_0000_0000_0000_0000;
  }

  lemma {:induction false} Pow256Add(a: nat, b: nat)
    ensures Pow256(a + b) == Pow256(a) * Pow256(b)
  {
    if a > 0 {
      Pow256Add(a - 1, b);
    }
  }

  /** Toy point of a scalar: a prefix byte and the scalar's 32 bytes. */
  function ToyPoint(s: SecretKey): Point {
    [2] + SerializeSecretKey(s)
  }

  function ToyScalar(p: Point): int {
    BigEndian(p[1..])
  }

  lemma ToyScalarOfPoint(s: SecretKey)
    ensures ToyScalar(ToyPoint(s)) == s
  {
    Pow256At32();
    assert ToyPoint(s)[1..] == SerializeSecretKey(s) == ToBigEndian(s, SCALAR_SIZE);
    BigEndianRoundTrip(s, SCALAR_SIZE);
  }

  function ToyAdd(p: Point, q: Point): Option<Point> {
    var v := (ToyScalar(p) + ToyScalar(q)) % N;
    if v == 0 then None else Some(ToyPoint(v))
  }

  function ToyOpen(c: seq<byte>): Option<seq<byte>> {
    if |c| >= TAG_SIZE && c[|c| - TAG_SIZE..] == seq(TAG_SIZE, _ => 0) then Some(c[..|c| - TAG_SIZE]) else None
  }

  function ToyPrimitives(): Primitives {
    Primitives(
      _ => seq(32, _ => 0),
      _ => true,
      s => ToyPoint(s),
      (_, _) => Some(ToyPoint(1)),
      (p, q) => ToyAdd(p, q),
      (_, _, len: nat) => if len <= 255 * 32 then Some(seq(len, _ => 0)) else None,
      (_, _, p) => p + seq(TAG_SIZE, _ => 0),
      (_, _, c) => ToyOpen(c),
      _ => true)
  }

  lemma ToyAddOfPoints(a: SecretKey, b: SecretKey)
    ensures ToyAdd(ToyPoint(a), ToyPoint(b)) == if (a + b) % N == 0 then None else Some(ToyPoint((a + b) % N))
  {
    ToyScalarOfPoint(a);
    ToyScalarOfPoint(b);
    assert ToyScalar(ToyPoint(a)) + ToyScalar(ToyPoint(b)) == a + b;
  }

  lemma ToyGroupLaws()
    ensures GroupLaws(ToyPrimitives())
  {
    var prim := ToyPrimitives();
    assert forall s :: prim.publicKeyOf(s) == ToyPoint(s);
    assert forall p, q :: prim.addPoints(p, q) == ToyAdd(p, q);
    GroupLawsOfToyFields(prim);
  }

  lemma GroupLawsOfToyFields(prim: Primitives)
    requires forall s :: prim.isCurvePoint(s)
    requires forall p, s :: prim.mulPoint(p, s) == Some(ToyPoint(1))
    requires forall s :: prim.publicKeyOf(s) == ToyPoint(s)
    requires forall p, q :: prim.addPoints(p, q) == ToyAdd(p, q)
    ensures GroupLaws(prim)
  {
    ToyPublicKeysAdd(prim);
  }

  lemma ToyPublicKeysAdd(prim: Primitives)
    requires forall s :: prim.publicKeyOf(s) == ToyPoint(s)
    requires forall p, q :: prim.addPoints(p, q) == ToyAdd(p, q)
    ensures forall a, b :: PublicKeysAdd(prim, a, b)
  {
    forall a: SecretKey, b: SecretKey
      ensures PublicKeysAdd(prim, a, b)
    {
      ToyAddOfPoints(a, b);
    }
  }

  lemma ToyAeadLaws()
    ensures AeadLaws(ToyPrimitives())
  {
    var prim := ToyPrimitives();
    forall k: seq<byte>, n: seq<byte>, p: seq<byte>
      ensures prim.aeadOpen(k, n, prim.aeadSeal(k, n, p)) == Some(p)
    {
      var c := p + seq(TAG_SIZE, _ => 0);
      assert c[..|p|] == p && c[|p|..] == seq(TAG_SIZE, _ => 0);
    }
  }

  lemma LawfulIsSatisfiable()
    ensures Lawful(ToyPrimitives())
  {
    ToyGroupLaws();
    ToyAeadLaws();
  }

  // ------------------------------------------------------- key derivation

  /** `SecretKey::parse_slice`: exactly 32 bytes, big-endian, in [1, n). */
  function ParseSecretKey(bs: seq<byte>): Option<SecretKey> {
    if |bs| != 32 then None
    else
      var v := BigEndian(bs);
      if v == 0 || v >= N then None else Some(v)
  }

  /** `SecretKey::serialize`: the scalar's 32-byte big-endian encoding. */
  function SerializeSecretKey(s: SecretKey): (bs: seq<byte>)
    ensures |bs| == SCALAR_SIZE
  {
    Pow256At32();
    ToBigEndian(s, SCALAR_SIZE)
  }

  /**
   * Parsing and serializing scalars are inverse: every scalar is parsed back
   * from its encoding, and every byte string that parses is the encoding of
   * the scalar it parses to.
   */
  lemma ParseSecretKeyRoundTrip(s: SecretKey, bs: seq<byte>)
    ensures ParseSecretKey(SerializeSecretKey(s)) == Some(s)
    ensures ParseSecretKey(bs).Some? ==> SerializeSecretKey(ParseSecretKey(bs).value) == bs
  {
    Pow256At32();
    BigEndianRoundTrip(s, SCALAR_SIZE);
    if ParseSecretKey(bs).Some? {
      ToBigEndianOfBigEndian(bs);
    }
  }

  /** The tweak SHA256("near-forms:v1:" ‖ form_id) read as a scalar. */
  function FormTweak(prim: Primitives, formId: string): Option<SecretKey> {
    ParseSecretKey(prim.sha256(DERIVATION_PREFIX + Utf8Encode(formId)))
  }

  datatype DeriveError = BadTweak | TweakOutOfRange

  /** Adding two reduced scalars overflows the order at most once. */
  lemma ReducedSum(a: SecretKey, b: SecretKey)
    ensures (a + b) % N == if a + b < N then a + b else a + b - N
  {
    if a + b >= N {
      assert a + b - N == (a + b) - 1 * N;
    }
  }

  /**
   * `derive_form_privkey`: master + tweak (mod n). Fails when the digest is
   * not a valid scalar, or when the sum is zero (`tweak_add_assign`).
   */
  function DeriveFormPrivkey(prim: Primitives, master: SecretKey, formId: string): (r: Result<SecretKey, DeriveError>)
    ensures FormTweak(prim, formId).None? ==> r == Failure(BadTweak)
    ensures FormTweak(prim, formId).Some? ==>
              var sum := master + FormTweak(prim, formId).value;
              && (sum == N ==> r == Failure(TweakOutOfRange))
              && (sum < N ==> r == Success(sum))
              && (sum > N ==> r == Success(sum - N))
  {
    match FormTweak(prim, formId)
    case None => Failure(BadTweak)
    case Some(tweak) =>
      ReducedSum(master, tweak);
      var sum := (master + tweak) % N;
      if sum == 0 then Failure(TweakOutOfRange) else Success(sum)
  }

  /**
   * The matching public derivation, master·G + tweak·G, which the encrypting
   * side must compute.
   */
  function DeriveFormPubkey(prim: Primitives, masterPub: Point, formId: string): Result<Point, DeriveError> {
    match FormTweak(prim, formId)
    case None => Failure(BadTweak)
    case Some(tweak) =>
      match prim.addPoints(masterPub, prim.publicKeyOf(tweak))
      case None => Failure(TweakOutOfRange)
      case Some(p) => Success(p)
  }

  /**
   * Key agreement: the public key derived from the master public key is the
   * public key of the derived private key, and both derivations fail alike.
   */
  lemma KeyAgreement(prim: Primitives, master: SecretKey, formId: string)
    requires Lawful(prim)
    ensures DeriveFormPubkey(prim, prim.publicKeyOf(master), formId) ==
              match DeriveFormPrivkey(prim, master, formId)
              case Success(k) => Success(prim.publicKeyOf(k))
              case Failure(e) => Failure(e)
  {
    match FormTweak(prim, formId)
    case None =>
    case Some(tweak) =>
      assert PublicKeysAdd(prim, master, tweak);
  }

  // ------------------------------------------------------------ envelopes

  /** The four fields of an EC01 blob. */
  datatype Envelope = Envelope(magic: seq<byte>, ephemeralKey: seq<byte>, nonce: seq<byte>, ciphertext: seq<byte>)

  predicate WellSized(e: Envelope) {
    |e.magic| == HEADER_SIZE && |e.ephemeralKey| == PUBKEY_SIZE && |e.nonce| == NONCE_SIZE && |e.ciphertext| >= TAG_SIZE
  }

  function Serialize(e: Envelope): (bs: seq<byte>)
    ensures WellSized(e) ==> |bs| >= MIN_SIZE
  {
    e.magic + e.ephemeralKey + e.nonce + e.ciphertext
  }

  /** The fixed slicing of `decrypt_ecdh`: [0,4), [4,37), [37,49), [49,len). */
  function Split(bs: seq<byte>): (e: Envelope)
    requires |bs| >= MIN_SIZE
    ensures WellSized(e) && Serialize(e) == bs
  {
    var e := Envelope(bs[..HEADER_SIZE], bs[HEADER_SIZE..HEADER_SIZE + PUBKEY_SIZE],
                      bs[HEADER_SIZE + PUBKEY_SIZE..HEADER_SIZE + PUBKEY_SIZE + NONCE_SIZE],
                      bs[HEADER_SIZE + PUBKEY_SIZE + NONCE_SIZE..]);
    assert Serialize(e) == bs;
    e
  }

  lemma SplitSerialize(e: Envelope)
    requires WellSized(e)
    ensures Split(Serialize(e)) == e
  {
    var bs := Serialize(e);
    assert bs[..4] == e.magic;
    assert bs[4..37] == e.ephemeralKey;
    assert bs[37..49] == e.nonce;
    assert bs[49..] == e.ciphertext;
  }

  /** `PublicKey::parse_slice` on a 33-byte slice. */
  function ParsePoint(prim: Primitives, bs: seq<byte>): Option<Point> {
    if |bs| == PUBKEY_SIZE && prim.isCurvePoint(bs) then Some(bs) else None
  }

  /** The x-coordinate of a point: its compressed encoding without the prefix byte. */
  function SharedX(p: Point): seq<byte> {
    p[1..]
  }

  /** HKDF-SHA256 over the shared x-coordinate, no salt, info "near-forms:v1:ecdh", 32 bytes. */
  function SymmetricKey(prim: Primitives, shared: Point): Option<seq<byte>> {
    prim.hkdfSha256(SharedX(shared), HKDF_INFO, 32)
  }

  /**
   * Only the x-coordinate enters the key: two shared points whose encodings
   * differ at most in the prefix byte give the same symmetric key.
   */
  lemma SymmetricKeyIgnoresPrefix(prim: Primitives, p: Point, q: Point)
    requires forall i | 1 <= i < |p| :: p[i] == q[i]
    ensures SymmetricKey(prim, p) == SymmetricKey(prim, q)
  {
    assert SharedX(p) == SharedX(q);
  }

  lemma SymmetricKeyIs32Bytes(prim: Primitives, shared: Point)
    requires Lawful(prim)
    ensures SymmetricKey(prim, shared).Some? && |SymmetricKey(prim, shared).value| == 32
  {
  }

  datatype CryptoError =
    | BadMagic
    | TooShort(length: nat)
    | BadEphemeralKey
    | EcdhFailed
    | HkdfFailed
    | CipherInitFailed
    | AeadFailed

  /** `decrypt_ecdh`: length guard, slicing, ECDH, HKDF and AEAD decryption. */
  function DecryptEcdh(prim: Primitives, key: SecretKey, bs: seq<byte>): (r: Result<seq<byte>, CryptoError>)
    ensures |bs| < MIN_SIZE ==> r == Failure(TooShort(|bs|))
    ensures |bs| >= MIN_SIZE && ParsePoint(prim, bs[4..37]).None? ==> r == Failure(BadEphemeralKey)
    ensures r.Success? ==>
              && |bs| >= MIN_SIZE
              && var e := Split(bs);
              && ParsePoint(prim, e.ephemeralKey).Some?
              && prim.mulPoint(e.ephemeralKey, key).Some?
              && var k := SymmetricKey(prim, prim.mulPoint(e.ephemeralKey, key).value);
              && k.Some? && |k.value| == 32
              && prim.aeadOpen(k.value, e.nonce, e.ciphertext) == Some(r.value)
  {
    if |bs| < MIN_SIZE then Failure(TooShort(|bs|))
    else
      var e := Split(bs);
      match ParsePoint(prim, e.ephemeralKey)
      case None => Failure(BadEphemeralKey)
      case Some(ephemeral) =>
        match prim.mulPoint(ephemeral, key)
        case None => Failure(EcdhFailed)
        case Some(shared) =>
          match SymmetricKey(prim, shared)
          case None => Failure(HkdfFailed)
          case Some(k) =>
            if |k| != 32 then Failure(CipherInitFailed)
            else
              match prim.aeadOpen(k, e.nonce, e.ciphertext)
              case None => Failure(AeadFailed)
              case Some(plaintext) => Success(plaintext)
  }

  /** `decrypt_blob`: the magic check, then `decrypt_ecdh`. */
  function DecryptBlob(prim: Primitives, key: SecretKey, bs: seq<byte>): (r: Result<seq<byte>, CryptoError>)
    ensures |bs| <= HEADER_SIZE || bs[..HEADER_SIZE] != MAGIC ==> r == Failure(BadMagic)
    ensures HEADER_SIZE < |bs| < MIN_SIZE && bs[..HEADER_SIZE] == MAGIC ==> r == Failure(TooShort(|bs|))
    ensures r.Success? ==> |bs| >= MIN_SIZE && bs[..HEADER_SIZE] == MAGIC && r == DecryptEcdh(prim, key, bs)
  {
    if |bs| <= HEADER_SIZE || bs[..HEADER_SIZE] != MAGIC then Failure(BadMagic)
    else DecryptEcdh(prim, key, bs)
  }

  /**
   * On an accepted blob the four fields are the slices [0,4), [4,37),
   * [37,49) and [49,len), they concatenate back to the blob, the magic is
   * "EC01" and the ciphertext holds at least a tag.
   */
  lemma AcceptedFraming(prim: Primitives, key: SecretKey, bs: seq<byte>)
    requires DecryptBlob(prim, key, bs).Success?
    ensures |bs| >= MIN_SIZE
    ensures bs == MAGIC + bs[4..37] + bs[37..49] + bs[49..]
    ensures |bs[49..]| >= TAG_SIZE
    ensures Split(bs) == Envelope(MAGIC, bs[4..37], bs[37..49], bs[49..])
  {
  }

  /** With the libraries' guarantees, the HKDF and cipher-construction errors never occur. */
  lemma InternalErrorsUnreachable(prim: Primitives, key: SecretKey, bs: seq<byte>)
    requires Lawful(prim)
    ensures DecryptBlob(prim, key, bs) != Failure(HkdfFailed)
    ensures DecryptBlob(prim, key, bs) != Failure(CipherInitFailed)
  {
    if |bs| >= MIN_SIZE {
      var e := Split(bs);
      if ParsePoint(prim, e.ephemeralKey).Some? && prim.mulPoint(e.ephemeralKey, key).Some? {
        SymmetricKeyIs32Bytes(prim, prim.mulPoint(e.ephemeralKey, key).value);
      }
    }
  }

  /** An accepted blob yields exactly |blob| - 65 bytes of plaintext. */
  lemma PlaintextLength(prim: Primitives, key: SecretKey, bs: seq<byte>)
    requires Lawful(prim)
    requires DecryptBlob(prim, key, bs).Success?
    ensures |DecryptBlob(prim, key, bs).value| == |bs| - MIN_SIZE
  {
    var e := Split(bs);
    var k := SymmetricKey(prim, prim.mulPoint(e.ephemeralKey, key).value).value;
    assert prim.aeadOpen(k, e.nonce, e.ciphertext).Some?;
  }

  /**
   * The producer side of the envelope format: encrypt `plaintext` for the
   * recipient point with the given ephemeral scalar and nonce (the random
   * choices of the encrypting client become parameters).
   */
  function SealEnvelope(prim: Primitives, recipient: Point, ephemeral: SecretKey, nonce: seq<byte>, plaintext: seq<byte>): Option<seq<byte>> {
    match prim.mulPoint(recipient, ephemeral)
    case None => None
    case Some(shared) =>
      match SymmetricKey(prim, shared)
      case None => None
      case Some(k) => Some(Serialize(Envelope(MAGIC, prim.publicKeyOf(ephemeral), nonce, prim.aeadSeal(k, nonce, plaintext))))
  }

  /**
   * Round trip: an envelope sealed for key·G opens with `key` to the
   * original plaintext, and is 4 + 33 + 12 + |plaintext| + 16 bytes long.
   */
  lemma RoundTrip(prim: Primitives, key: SecretKey, ephemeral: SecretKey, nonce: seq<byte>, plaintext: seq<byte>)
    requires Lawful(prim)
    requires |nonce| == NONCE_SIZE
    ensures SealEnvelope(prim, prim.publicKeyOf(key), ephemeral, nonce, plaintext).Some?
    ensures var blob := SealEnvelope(prim, prim.publicKeyOf(key), ephemeral, nonce, plaintext).value;
            |blob| == MIN_SIZE + |plaintext| && DecryptBlob(prim, key, blob) == Success(plaintext)
  {
    var shared := prim.mulPoint(prim.publicKeyOf(key), ephemeral).value;
    assert prim.mulPoint(prim.publicKeyOf(ephemeral), key) == Some(shared);
    SymmetricKeyIs32Bytes(prim, shared);
    var k := SymmetricKey(prim, shared).value;
    var e := Envelope(MAGIC, prim.publicKeyOf(ephemeral), nonce, prim.aeadSeal(k, nonce, plaintext));
    assert WellSized(e);
    var blob := Serialize(e);
    SplitSerialize(e);
    assert blob[..HEADER_SIZE] == MAGIC;
    assert ParsePoint(prim, e.ephemeralKey) == Some(prim.publicKeyOf(ephemeral));
  }

  /**
   * End to end: a client that derives the form public key from the master
   * public key and seals with it produces a blob that the form private key,
   * derived from the master private key, opens to the original plaintext.
   */
  lemma FormRoundTrip(prim: Primitives, master: SecretKey, formId: string, ephemeral: SecretKey, nonce: seq<byte>, plaintext: seq<byte>)
    requires Lawful(prim)
    requires |nonce| == NONCE_SIZE
    requires DeriveFormPrivkey(prim, master, formId).Success?
    ensures DeriveFormPubkey(prim, prim.publicKeyOf(master), formId).Success?
    ensures var formPub := DeriveFormPubkey(prim, prim.publicKeyOf(master), formId).value;
            var formKey := DeriveFormPrivkey(prim, master, formId).value;
            SealEnvelope(prim, formPub, ephemeral, nonce, plaintext).Some? &&
            DecryptBlob(prim, formKey, SealEnvelope(prim, formPub, ephemeral, nonce, plaintext).value) == Success(plaintext)
  {
    KeyAgreement(prim, master, formId);
    RoundTrip(prim, DeriveFormPrivkey(prim, master, formId).value, ephemeral, nonce, plaintext);
  }
}
