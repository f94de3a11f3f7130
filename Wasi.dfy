/**
 * The two actions of the WASI module (wasi-near-forms-ark/src/main.rs):
 * ReadResponses, which authorizes the caller and decrypts every stored
 * submission, and SubmitForm, which validates an EC01 blob before storing it.
 *
 * What the enclosing environment answers (the signer, environment
 * variables, the db-api replies, the master key) is given as a host record;
 * the calls the action makes outward are recorded in a trace so that their
 * order can be stated.
 */
module Wasi {
  import opened Results
  import opened Bytes
  import opened Crypto

  /** The single hard-coded form. */
  const FORM_ID: string := "daf14a0c-20f7-4199-a07b-c6456d53ef2d"

  /** The submission size cap, in decoded bytes. */
  const MAX_BLOB_SIZE: nat := 200 * 1024

  // ----------------------------------------------------------- records

  datatype EncryptedSubmission = EncryptedSubmission(submitterId: string, encryptedBlob: string, submittedAt: string)

  /** A decrypted submission; `answers` is the decrypted JSON text. */
  datatype Response = Response(submitterId: string, answers: seq<byte>, submittedAt: string)

  datatype ReadResponsesOutput = ReadResponsesOutput(responses: seq<Response>, skippedCount: nat)

  datatype FormMetadata = FormMetadata(creatorId: string)

  datatype SubmitFormOutput = SubmitFormOutput(success: bool, submissionId: string)

  // -------------------------------------------------------- ReadResponses

  /** What the environment answers during one ReadResponses invocation. */
  datatype ReadHost = ReadHost(
    signer: Option<string>,                                  // env::signer_account_id()
    databaseUrl: Option<string>,                             // DATABASE_API_URL
    form: Result<FormMetadata, string>,                      // db::get_form
    masterKey: Result<SecretKey, string>,                    // load_master_key
    apiSecret: Option<string>,                               // DATABASE_API_SECRET or API_SECRET
    submissions: Result<seq<EncryptedSubmission>, string>)   // db::get_submissions

  /** The outward steps of ReadResponses, in the order they are taken. */
  datatype Effect = FetchForm | LoadMasterKey | FetchSubmissions | DeriveKey | DecryptAttempt(index: nat)

  /** The steps that touch key material or ciphertexts. */
  predicate Privileged(e: Effect) {
    e.LoadMasterKey? || e.FetchSubmissions? || e.DeriveKey? || e.DecryptAttempt?
  }

  datatype ReadError =
    | AuthenticationRequired
    | MissingDatabaseUrl
    | FormFetchFailed(message: string)
    | NotAuthorized
    | MasterKeyUnavailable(message: string)
    | MissingApiSecret
    | SubmissionsFetchFailed(message: string)
    | KeyDerivationFailed(error: DeriveError)

  /** The caller is known, the form was fetched, and the caller is its creator. */
  predicate GatePasses(host: ReadHost) {
    && host.signer.Some?
    && host.databaseUrl.Some?
    && host.form.Success?
    && host.signer.value == host.form.value.creatorId
  }

  datatype SkipReason = CiphertextNotHex | DecryptionFailed(error: CryptoError) | InvalidJson

  /** The closure of the batch loop: hex-decode, decrypt, parse one submission. */
  function DecodeEntry(prim: Primitives, formKey: SecretKey, sub: EncryptedSubmission): (r: Result<Response, SkipReason>)
    ensures r.Success? ==>
              && r.value.submitterId == sub.submitterId
              && r.value.submittedAt == sub.submittedAt
              && HexDecode(sub.encryptedBlob).Some?
              && DecryptBlob(prim, formKey, HexDecode(sub.encryptedBlob).value) == Success(r.value.answers)
              && prim.parsesAsJson(r.value.answers)
    ensures r.Failure? <==>
              || HexDecode(sub.encryptedBlob).None?
              || DecryptBlob(prim, formKey, HexDecode(sub.encryptedBlob).value).Failure?
              || !prim.parsesAsJson(DecryptBlob(prim, formKey, HexDecode(sub.encryptedBlob).value).value)
  {
    match HexDecode(sub.encryptedBlob)
    case None => Failure(CiphertextNotHex)
    case Some(ciphertext) =>
      match DecryptBlob(prim, formKey, ciphertext)
      case Failure(e) => Failure(DecryptionFailed(e))
      case Success(plaintext) =>
        if prim.parsesAsJson(plaintext) then Success(Response(sub.submitterId, plaintext, sub.submittedAt))
        else Failure(InvalidJson)
  }

  /** What one submission adds to the output. */
  function Contribution(prim: Primitives, formKey: SecretKey, sub: EncryptedSubmission): ReadResponsesOutput {
    match DecodeEntry(prim, formKey, sub)
    case Success(r) => ReadResponsesOutput([r], 0)
    case Failure(_) => ReadResponsesOutput([], 1)
  }

  function Combine(a: ReadResponsesOutput, b: ReadResponsesOutput): ReadResponsesOutput {
    ReadResponsesOutput(a.responses + b.responses, a.skippedCount + b.skippedCount)
  }

  lemma CombineAssociative(x: ReadResponsesOutput, y: ReadResponsesOutput, z: ReadResponsesOutput)
    ensures Combine(Combine(x, y), z) == Combine(x, Combine(y, z))
  {
    assert (x.responses + y.responses) + z.responses == x.responses + (y.responses + z.responses);
  }

  /** The output of the batch loop over `subs`. */
  function Batch(prim: Primitives, formKey: SecretKey, subs: seq<EncryptedSubmission>): (out: ReadResponsesOutput)
    ensures |out.responses| + out.skippedCount == |subs|
  {
    if subs == [] then ReadResponsesOutput([], 0)
    else Combine(Batch(prim, formKey, subs[..|subs| - 1]), Contribution(prim, formKey, subs[|subs| - 1]))
  }

  /** The indices of the submissions that decode, in increasing order. */
  function Accepted(prim: Primitives, formKey: SecretKey, subs: seq<EncryptedSubmission>): seq<nat> {
    if subs == [] then []
    else
      Accepted(prim, formKey, subs[..|subs| - 1]) +
      (if DecodeEntry(prim, formKey, subs[|subs| - 1]).Success? then [|subs| - 1] else [])
  }

  /** `idx` is strictly increasing and every entry is below `bound`. */
  predicate IncreasingBelow(idx: seq<nat>, bound: nat) {
    && (forall j | 0 <= j < |idx| :: idx[j] < bound)
    && (forall j, j' | 0 <= j < j' < |idx| :: idx[j] < idx[j'])
  }

  /** The accepted indices are in range and increase. */
  lemma {:induction false} AcceptedIncreasing(prim: Primitives, formKey: SecretKey, subs: seq<EncryptedSubmission>)
    ensures IncreasingBelow(Accepted(prim, formKey, subs), |subs|)
  {
    if subs != [] {
      var n := |subs| - 1;
      AcceptedIncreasing(prim, formKey, subs[..n]);
      var idx0, idx := Accepted(prim, formKey, subs[..n]), Accepted(prim, formKey, subs);
      assert IncreasingBelow(idx0, n);
      assert idx == idx0 || idx == idx0 + [n];
    }
  }

  /** An index is accepted iff the submission at that position decodes. */
  lemma {:induction false} AcceptedExactly(prim: Primitives, formKey: SecretKey, subs: seq<EncryptedSubmission>)
    ensures forall i | 0 <= i < |subs| :: i in Accepted(prim, formKey, subs) <==> DecodeEntry(prim, formKey, subs[i]).Success?
  {
    if subs != [] {
      var n := |subs| - 1;
      var init := subs[..n];
      AcceptedExactly(prim, formKey, init);
      AcceptedIncreasing(prim, formKey, init);
      assert forall i | 0 <= i < n :: init[i] == subs[i];
      assert n !in Accepted(prim, formKey, init);
    }
  }

  /** The j-th response is the decoding of the submission at the j-th accepted index. */
  lemma {:induction false} BatchResponses(prim: Primitives, formKey: SecretKey, subs: seq<EncryptedSubmission>)
    ensures var out, idx := Batch(prim, formKey, subs), Accepted(prim, formKey, subs);
            && |out.responses| == |idx|
            && (forall j | 0 <= j < |idx| :: idx[j] < |subs| && DecodeEntry(prim, formKey, subs[idx[j]]) == Success(out.responses[j]))
  {
    if subs != [] {
      var n := |subs| - 1;
      var init := subs[..n];
      BatchResponses(prim, formKey, init);
      assert forall i | 0 <= i < n :: init[i] == subs[i];
      var out0, idx0 := Batch(prim, formKey, init), Accepted(prim, formKey, init);
      var out, idx := Batch(prim, formKey, subs), Accepted(prim, formKey, subs);
      if DecodeEntry(prim, formKey, subs[n]).Success? {
        assert idx == idx0 + [n];
        assert out.responses == out0.responses + [DecodeEntry(prim, formKey, subs[n]).value];
      } else {
        assert idx == idx0;
        assert out.responses == out0.responses;
      }
    }
  }

  /**
   * The responses are exactly the submissions that decode, in input order:
   * the j-th response comes from the j-th accepted index, the accepted indices
   * increase, an index is accepted iff its submission decodes, and every other
   * submission is counted as skipped.
   */
  lemma BatchSelects(prim: Primitives, formKey: SecretKey, subs: seq<EncryptedSubmission>)
    ensures var out, idx := Batch(prim, formKey, subs), Accepted(prim, formKey, subs);
            && |out.responses| == |idx|
            && out.skippedCount == |subs| - |idx|
            && (forall j | 0 <= j < |idx| :: idx[j] < |subs| && DecodeEntry(prim, formKey, subs[idx[j]]) == Success(out.responses[j]))
            && (forall j, j' | 0 <= j < j' < |idx| :: idx[j] < idx[j'])
            && (forall i | 0 <= i < |subs| :: i in idx <==> DecodeEntry(prim, formKey, subs[i]).Success?)
  {
    AcceptedIncreasing(prim, formKey, subs);
    AcceptedExactly(prim, formKey, subs);
    BatchResponses(prim, formKey, subs);
  }

  /** Each submission is processed independently: the batch over a concatenation is the concatenation of the batches. */
  lemma {:induction false} BatchAppend(prim: Primitives, formKey: SecretKey, a: seq<EncryptedSubmission>, b: seq<EncryptedSubmission>)
    ensures Batch(prim, formKey, a + b) == Combine(Batch(prim, formKey, a), Batch(prim, formKey, b))
  {
    if b == [] {
      assert a + b == a;
    } else {
      var b', last := b[..|b| - 1], b[|b| - 1];
      assert (a + b)[..|a + b| - 1] == a + b';
      assert (a + b)[|a + b| - 1] == last;
      var c := Contribution(prim, formKey, last);
      assert Batch(prim, formKey, a + b) == Combine(Batch(prim, formKey, a + b'), c);
      assert Batch(prim, formKey, b) == Combine(Batch(prim, formKey, b'), c);
      BatchAppend(prim, formKey, a, b');
      CombineAssociative(Batch(prim, formKey, a), Batch(prim, formKey, b'), c);
    }
  }

  /**
   * A failing submission at position k only adds one to the skip count: the
   * responses are those of the entries before it followed by those after it.
   */
  lemma FailureIsIsolated(prim: Primitives, formKey: SecretKey, subs: seq<EncryptedSubmission>, k: nat)
    requires k < |subs|
    requires DecodeEntry(prim, formKey, subs[k]).Failure?
    ensures Batch(prim, formKey, subs).responses ==
              Batch(prim, formKey, subs[..k]).responses + Batch(prim, formKey, subs[k + 1..]).responses
    ensures Batch(prim, formKey, subs).skippedCount ==
              Batch(prim, formKey, subs[..k]).skippedCount + 1 + Batch(prim, formKey, subs[k + 1..]).skippedCount
  {
    var before, after := subs[..k], subs[k + 1..];
    assert subs == (before + [subs[k]]) + after;
    BatchAppend(prim, formKey, before + [subs[k]], after);
    BatchAppend(prim, formKey, before, [subs[k]]);
    assert [subs[k]][..0] == [];
    var one := Batch(prim, formKey, [subs[k]]);
    assert one == ReadResponsesOutput([], 1);
    var x, y := Batch(prim, formKey, before), Batch(prim, formKey, after);
    assert Batch(prim, formKey, subs) == Combine(Combine(x, one), y);
    assert x.responses + [] == x.responses;
  }

  /** The decryption attempts the loop makes over `subs`: one for each blob that is valid hex. */
  function Attempts(subs: seq<EncryptedSubmission>): seq<Effect> {
    if subs == [] then []
    else
      Attempts(subs[..|subs| - 1]) +
      (if HexDecode(subs[|subs| - 1].encryptedBlob).Some? then [DecryptAttempt(|subs| - 1)] else [])
  }

  /** Extending the processed prefix by one submission extends the batch and the attempts by its share. */
  lemma PrefixStep(prim: Primitives, formKey: SecretKey, subs: seq<EncryptedSubmission>, i: nat)
    requires i < |subs|
    ensures Batch(prim, formKey, subs[..i + 1]) == Combine(Batch(prim, formKey, subs[..i]), Contribution(prim, formKey, subs[i]))
    ensures Attempts(subs[..i + 1]) ==
              Attempts(subs[..i]) + (if HexDecode(subs[i].encryptedBlob).Some? then [DecryptAttempt(i)] else [])
  {
    var prefix := subs[..i + 1];
    assert prefix[..i] == subs[..i] && prefix[i] == subs[i];
  }

  /**
   * `handle_read_responses`. The caller must be the signer and the form's
   * creator before the master key is loaded, the submissions fetched or
   * anything decrypted; then each submission is decoded on its own and a
   * failure only counts as skipped.
   */
  method HandleReadResponses(prim: Primitives, host: ReadHost)
    returns (result: Result<ReadResponsesOutput, ReadError>, trace: seq<Effect>)
    ensures host.signer.None? ==> result == Failure(AuthenticationRequired) && trace == []
    ensures host.signer.Some? && host.databaseUrl.Some? && host.form.Success? && !GatePasses(host) ==>
              result == Failure(NotAuthorized)
    ensures !GatePasses(host) ==> result.Failure? && forall e | e in trace :: !Privileged(e)
    ensures result.Success? ==>
              && GatePasses(host)
              && host.masterKey.Success? && host.apiSecret.Some? && host.submissions.Success?
              && DeriveFormPrivkey(prim, host.masterKey.value, FORM_ID).Success?
              && result.value == Batch(prim, DeriveFormPrivkey(prim, host.masterKey.value, FORM_ID).value, host.submissions.value)
              && trace == [FetchForm, LoadMasterKey, FetchSubmissions, DeriveKey] + Attempts(host.submissions.value)
    ensures (&& GatePasses(host) && host.masterKey.Success? && host.apiSecret.Some? && host.submissions.Success?
             && DeriveFormPrivkey(prim, host.masterKey.value, FORM_ID).Success?) ==> result.Success?
  {
    trace := [];
    // 1. the signer
    if host.signer.None? {
      return Failure(AuthenticationRequired), trace;
    }
    var callerId := host.signer.value;

    // 2. the form and its creator
    if host.databaseUrl.None? {
      return Failure(MissingDatabaseUrl), trace;
    }
    trace := trace + [FetchForm];
    if host.form.Failure? {
      return Failure(FormFetchFailed(host.form.error)), trace;
    }
    if callerId != host.form.value.creatorId {
      return Failure(NotAuthorized), trace;
    }

    // 3. the master key
    trace := trace + [LoadMasterKey];
    if host.masterKey.Failure? {
      return Failure(MasterKeyUnavailable(host.masterKey.error)), trace;
    }
    var masterKey := host.masterKey.value;

    // 4. the stored submissions
    if host.apiSecret.None? {
      return Failure(MissingApiSecret), trace;
    }
    trace := trace + [FetchSubmissions];
    if host.submissions.Failure? {
      return Failure(SubmissionsFetchFailed(host.submissions.error)), trace;
    }
    var submissions := host.submissions.value;

    // 5. the form key
    trace := trace + [DeriveKey];
    assert trace == [FetchForm, LoadMasterKey, FetchSubmissions, DeriveKey];
    var derived := DeriveFormPrivkey(prim, masterKey, FORM_ID);
    if derived.Failure? {
      return Failure(KeyDerivationFailed(derived.error)), trace;
    }
    var formKey := derived.value;

    // 6. decrypt each submission, skipping the ones that fail
    var output, attempts := DecryptSubmissions(prim, formKey, submissions);
    trace := trace + attempts;
    result := Success(output);
  }

  /**
   * The loop of `handle_read_responses`: decodes every submission in order,
   * keeps the ones that decode and counts the others; `attempts` records the
   * entries for which decryption was invoked.
   */
  method DecryptSubmissions(prim: Primitives, formKey: SecretKey, submissions: seq<EncryptedSubmission>)
    returns (output: ReadResponsesOutput, attempts: seq<Effect>)
    ensures output == Batch(prim, formKey, submissions)
    ensures attempts == Attempts(submissions)
  {
    var responses: seq<Response> := [];
    var skippedCount: nat := 0;
    attempts := [];
    for i := 0 to |submissions|
      invariant ReadResponsesOutput(responses, skippedCount) == Batch(prim, formKey, submissions[..i])
      invariant attempts == Attempts(submissions[..i])
    {
      var submission := submissions[i];
      PrefixStep(prim, formKey, submissions, i);
      // the closure reaches `decrypt_blob` only when the hex decodes
      if HexDecode(submission.encryptedBlob).Some? {
        attempts := attempts + [DecryptAttempt(i)];
      }
      match DecodeEntry(prim, formKey, submission)
      case Success(response) =>
        responses := responses + [response];
      case Failure(_) =>
        skippedCount := skippedCount + 1;
    }
    assert submissions[..|submissions|] == submissions;
    output := ReadResponsesOutput(responses, skippedCount);
  }

  // ----------------------------------------------------------- SubmitForm

  datatype BlobError = BlobTooShort(length: nat) | BlobBadMagic | BlobBadEphemeralKey | BlobTooLarge(length: nat)

  /** The EC01 guards of `handle_submit_form`, in their order. */
  function ValidateBlob(prim: Primitives, bs: seq<byte>): (r: Result<seq<byte>, BlobError>)
    ensures r.Success? <==>
              && MIN_SIZE <= |bs| <= MAX_BLOB_SIZE
              && bs[..HEADER_SIZE] == MAGIC
              && ParsePoint(prim, bs[4..37]).Some?
    ensures r.Success? ==> r.value == bs
    ensures |bs| < MIN_SIZE ==> r == Failure(BlobTooShort(|bs|))
    ensures |bs| >= MIN_SIZE && bs[..HEADER_SIZE] != MAGIC ==> r == Failure(BlobBadMagic)
    ensures |bs| >= MIN_SIZE && bs[..HEADER_SIZE] == MAGIC && ParsePoint(prim, bs[4..37]).None? ==>
              r == Failure(BlobBadEphemeralKey)
    ensures r == Failure(BlobTooLarge(|bs|)) <==>
              |bs| > MAX_BLOB_SIZE && bs[..HEADER_SIZE] == MAGIC && ParsePoint(prim, bs[4..37]).Some?
  {
    if |bs| < MIN_SIZE then Failure(BlobTooShort(|bs|))
    else if bs[..HEADER_SIZE] != MAGIC then Failure(BlobBadMagic)
    else if ParsePoint(prim, bs[4..37]).None? then Failure(BlobBadEphemeralKey)
    else if |bs| > MAX_BLOB_SIZE then Failure(BlobTooLarge(|bs|))
    else Success(bs)
  }

  /**
   * A blob that SubmitForm accepts passes every framing check of
   * `decrypt_blob`: magic, minimum length and ephemeral key.
   */
  lemma ValidatedBlobFrames(prim: Primitives, key: SecretKey, bs: seq<byte>)
    requires ValidateBlob(prim, bs).Success?
    ensures DecryptBlob(prim, key, bs) != Failure(BadMagic)
    ensures DecryptBlob(prim, key, bs) !in {Failure(TooShort(|bs|)), Failure(BadEphemeralKey)}
  {
  }

  /** `db::create_submission` as the WASI module calls it. */
  datatype StoreRequest = StoreRequest(formId: string, submitterId: string, encryptedBlob: string)

  /** What the environment answers during one SubmitForm invocation. */
  datatype SubmitHost = SubmitHost(
    signer: Option<string>,
    databaseUrl: Option<string>,
    apiSecret: Option<string>,
    store: Result<string, string>)   // the reply of db::create_submission: an id or an error

  datatype SubmitError =
    | SubmitAuthenticationRequired
    | InvalidHex
    | InvalidBlob(error: BlobError)
    | SubmitMissingDatabaseUrl
    | SubmitMissingApiSecret
    | StoreFailed(message: string)

  /** The result of SubmitForm and the store calls it made. */
  datatype SubmitOutcome = SubmitOutcome(result: Result<SubmitFormOutput, SubmitError>, storeCalls: seq<StoreRequest>)

  /** `handle_submit_form`. */
  function HandleSubmitForm(prim: Primitives, host: SubmitHost, encryptedAnswers: string): (o: SubmitOutcome)
    ensures |o.storeCalls| <= 1
    ensures o.storeCalls != [] <==>
              && host.signer.Some?
              && HexDecode(encryptedAnswers).Some?
              && ValidateBlob(prim, HexDecode(encryptedAnswers).value).Success?
              && host.databaseUrl.Some? && host.apiSecret.Some?
    ensures o.storeCalls != [] ==> o.storeCalls[0] == StoreRequest(FORM_ID, host.signer.value, encryptedAnswers)
    ensures o.result.Success? <==> o.storeCalls != [] && host.store.Success?
    ensures o.result.Success? ==> o.result.value == SubmitFormOutput(true, host.store.value)
  {
    match host.signer
    case None => SubmitOutcome(Failure(SubmitAuthenticationRequired), [])
    case Some(submitterId) =>
      match HexDecode(encryptedAnswers)
      case None => SubmitOutcome(Failure(InvalidHex), [])
      case Some(bytes) =>
        match ValidateBlob(prim, bytes)
        case Failure(e) => SubmitOutcome(Failure(InvalidBlob(e)), [])
        case Success(_) =>
          if host.databaseUrl.None? then SubmitOutcome(Failure(SubmitMissingDatabaseUrl), [])
          else if host.apiSecret.None? then SubmitOutcome(Failure(SubmitMissingApiSecret), [])
          else
            var request := StoreRequest(FORM_ID, submitterId, encryptedAnswers);
            match host.store
            case Success(id) => SubmitOutcome(Success(SubmitFormOutput(true, id)), [request])
            case Failure(message) => SubmitOutcome(Failure(StoreFailed(message)), [request])
  }

  /**
   * Whatever SubmitForm stores is the unmodified hex string, and it decodes to
   * a blob that `decrypt_blob` frames.
   */
  lemma StoredBlobIsDecryptable(prim: Primitives, host: SubmitHost, encryptedAnswers: string, key: SecretKey)
    requires HandleSubmitForm(prim, host, encryptedAnswers).storeCalls != []
    ensures var stored := HandleSubmitForm(prim, host, encryptedAnswers).storeCalls[0].encryptedBlob;
            && stored == encryptedAnswers
            && HexDecode(stored).Some?
            && var bs := HexDecode(stored).value;
            && MIN_SIZE <= |bs| <= MAX_BLOB_SIZE
            && DecryptBlob(prim, key, bs) !in {Failure(BadMagic), Failure(TooShort(|bs|)), Failure(BadEphemeralKey)}
  {
    ValidatedBlobFrames(prim, key, HexDecode(encryptedAnswers).value);
  }
}
