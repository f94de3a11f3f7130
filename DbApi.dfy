/**
 * Request validation of the storage service (db-api/src/main.rs): the
 * API-Secret middleware, the startup check on the configured secret, and the
 * guards of POST /submissions. The database is an oracle: its answers to the
 * queries are given, and the queries a request issues are returned.
 */
module DbApi {
  import opened Results
  import opened Bytes

  /** Limit on the stored `encrypted_blob`, counted in bytes of the JSON string. */
  const MAX_BLOB_SIZE: nat := 200 * 1024

  /** Limit on `submitter_id`, counted in bytes. */
  const MAX_SUBMITTER_ID: nat := 64

  /** PostgreSQL's code for a unique constraint violation. */
  const UNIQUE_VIOLATION: string := "23505"

  datatype Status = Ok | BadRequest | Unauthorized | NotFound | Conflict | PayloadTooLarge | InternalServerError

  // ---------------------------------------------------------- API secret

  datatype StartupError = ApiSecretNotSet | ApiSecretEmpty

  /** Reading API_SECRET at startup: the server refuses to start without a non-empty secret. */
  function LoadApiSecret(env: Option<string>): (r: Result<seq<byte>, StartupError>)
    ensures r.Success? ==> |r.value| > 0 && env.Some? && r.value == Utf8Encode(env.value)
    ensures r.Failure? <==> env.None? || env.value == ""
  {
    match env
    case None => Failure(ApiSecretNotSet)
    case Some(s) => if s == "" then Failure(ApiSecretEmpty) else Success(Utf8Encode(s))
  }

  /** `HeaderValue::is_visible_ascii`: printable ASCII or a tab. */
  predicate VisibleAscii(b: byte) {
    (32 <= b < 127) || b == 9
  }

  /** `HeaderValue::to_str`: the header as text, absent if any byte is not visible ASCII. */
  function HeaderToStr(h: seq<byte>): Option<seq<byte>> {
    if forall i | 0 <= i < |h| :: VisibleAscii(h[i]) then Some(h) else None
  }

  /** The bytes the middleware compares: a missing or non-text header counts as empty. */
  function ProvidedSecret(header: Option<seq<byte>>): seq<byte> {
    match header
    case None => []
    case Some(h) => match HeaderToStr(h) case Some(s) => s case None => []
  }

  /** Bitwise exclusive or of two naturals, one bit at a time from the lowest. */
  function Xor(x: nat, y: nat): nat
    decreases x + y
  {
    if x == 0 && y == 0 then 0 else 2 * Xor(x / 2, y / 2) + (x + y) % 2
  }

  /** Bitwise or of two naturals. */
  function Or(x: nat, y: nat): nat
    decreases x + y
  {
    if x == 0 && y == 0 then 0 else 2 * Or(x / 2, y / 2) + (if x % 2 == 0 && y % 2 == 0 then 0 else 1)
  }

  lemma {:induction false} XorZero(x: nat, y: nat)
    ensures Xor(x, y) == 0 <==> x == y
    decreases x + y
  {
    if x != 0 || y != 0 {
      XorZero(x / 2, y / 2);
    }
  }

  lemma {:induction false} OrZero(x: nat, y: nat)
    ensures Or(x, y) == 0 <==> x == 0 && y == 0
    decreases x + y
  {
    if x != 0 || y != 0 {
      OrZero(x / 2, y / 2);
    }
  }

  /** The byte-wise difference `constant_time_eq` accumulates: the OR of all XORs. */
  function Difference(a: seq<byte>, b: seq<byte>): nat
    requires |a| == |b|
  {
    if a == [] then 0
    else Or(Difference(a[..|a| - 1], b[..|b| - 1]), Xor(a[|a| - 1], b[|b| - 1]))
  }

  /** `constant_time_eq(a, b)`: equal lengths and no differing bit. */
  function ConstantTimeEq(a: seq<byte>, b: seq<byte>): bool {
    |a| == |b| && Difference(a, b) == 0
  }

  /** Whatever its timing, `constant_time_eq` decides plain equality. */
  lemma {:induction false} ConstantTimeEqIsEquality(a: seq<byte>, b: seq<byte>)
    ensures ConstantTimeEq(a, b) <==> a == b
  {
    if |a| == |b| && a != [] {
      var n := |a| - 1;
      ConstantTimeEqIsEquality(a[..n], b[..n]);
      XorZero(a[n], b[n]);
      OrZero(Difference(a[..n], b[..n]), Xor(a[n], b[n]));
      if a[..n] == b[..n] && a[n] == b[n] {
        assert a == a[..n] + [a[n]] && b == b[..n] + [b[n]];
      }
    }
  }

  /** `require_api_secret`: whether the request reaches its handler. */
  function RequireApiSecret(header: Option<seq<byte>>, secret: seq<byte>): (admitted: bool)
    ensures admitted <==> ProvidedSecret(header) == secret
  {
    ConstantTimeEqIsEquality(ProvidedSecret(header), secret);
    ConstantTimeEq(ProvidedSecret(header), secret)
  }

  /**
   * The middleware admits a request iff the header, read as text, is exactly
   * the configured secret, where a missing or non-text header reads as empty.
   */
  lemma AdmitsExactly(header: Option<seq<byte>>, secret: seq<byte>)
    ensures RequireApiSecret(header, secret) <==>
              if header.Some? && HeaderToStr(header.value).Some? then header.value == secret else secret == []
  {
    ConstantTimeEqIsEquality(ProvidedSecret(header), secret);
  }

  /**
   * With a secret the server accepted at startup, a request without the
   * header, or with a header that is not visible ASCII, is refused.
   */
  lemma MissingHeaderRejected(env: Option<string>, header: Option<seq<byte>>)
    requires LoadApiSecret(env).Success?
    requires header.None? || HeaderToStr(header.value).None?
    ensures !RequireApiSecret(header, LoadApiSecret(env).value)
  {
    AdmitsExactly(header, LoadApiSecret(env).value);
  }

  // --------------------------------------------------- POST /submissions

  /** A parsed UUID, as the byte string `Uuid::parse_str` produces (its width is not modelled). */
  type Uuid = seq<byte>

  datatype CreateSubmissionRequest = CreateSubmissionRequest(formId: string, submitterId: string, encryptedBlob: string)

  /** A database error, with its SQLSTATE code when the server reported one. */
  datatype DbError = DbError(code: Option<string>)

  datatype Row = Row(id: Uuid, formId: Uuid, submitterId: string, encryptedBlob: string)

  datatype Query = FormExists(formId: Uuid) | InsertSubmission(row: Row)

  /** The database's answers to the two queries, if they are asked. */
  datatype Database = Database(formExists: Result<bool, DbError>, insert: Option<DbError>)

  /** The HTTP status, the stored id on success, and the queries issued. */
  datatype Reply = Reply(status: Status, submissionId: Option<Uuid>, queries: seq<Query>)

  /** `submitter_id` must be 1 to 64 bytes long. */
  predicate SubmitterIdValid(id: string) {
    0 < |Utf8Encode(id)| <= MAX_SUBMITTER_ID
  }

  /** A request that passes every guard of `create_submission`. */
  predicate Admissible(parseUuid: string -> Option<Uuid>, db: Database, req: CreateSubmissionRequest) {
    && parseUuid(req.formId).Some?
    && SubmitterIdValid(req.submitterId)
    && db.formExists == Success(true)
    && |Utf8Encode(req.encryptedBlob)| <= MAX_BLOB_SIZE
  }

  /**
   * `create_submission`. `parseUuid` is `Uuid::parse_str`; `newId` is the
   * random `Uuid::new_v4` of the new row.
   */
  function CreateSubmission(parseUuid: string -> Option<Uuid>, db: Database, newId: Uuid, req: CreateSubmissionRequest): (r: Reply)
    // the two request checks come first and issue no query
    ensures parseUuid(req.formId).None? ==> r == Reply(BadRequest, None, [])
    ensures !SubmitterIdValid(req.submitterId) ==> r == Reply(BadRequest, None, [])
    ensures parseUuid(req.formId).Some? && SubmitterIdValid(req.submitterId) ==>
              |r.queries| >= 1 && r.queries[0] == FormExists(parseUuid(req.formId).value)
    // an insert is issued iff every guard passes, and it stores the request unchanged
    ensures (exists row :: InsertSubmission(row) in r.queries) <==> Admissible(parseUuid, db, req)
    ensures Admissible(parseUuid, db, req) ==>
              r.queries == [FormExists(parseUuid(req.formId).value),
                            InsertSubmission(Row(newId, parseUuid(req.formId).value, req.submitterId, req.encryptedBlob))]
    ensures r.status == Ok <==> Admissible(parseUuid, db, req) && db.insert.None?
    ensures r.status == Ok ==> r.submissionId == Some(newId)
    ensures r.status != Ok ==> r.submissionId.None?
  {
    match parseUuid(req.formId)
    case None => Reply(BadRequest, None, [])
    case Some(formId) =>
      if |Utf8Encode(req.submitterId)| == 0 || |Utf8Encode(req.submitterId)| > MAX_SUBMITTER_ID then
        Reply(BadRequest, None, [])
      else
        var lookup := [FormExists(formId)];
        match db.formExists
        case Failure(_) => Reply(InternalServerError, None, lookup)
        case Success(exists_) =>
          if !exists_ then Reply(NotFound, None, lookup)
          else if |Utf8Encode(req.encryptedBlob)| > MAX_BLOB_SIZE then Reply(PayloadTooLarge, None, lookup)
          else
            var queries := lookup + [InsertSubmission(Row(newId, formId, req.submitterId, req.encryptedBlob))];
            match db.insert
            case None => Reply(Ok, Some(newId), queries)
            case Some(e) =>
              if e.code == Some(UNIQUE_VIOLATION) then Reply(Conflict, None, queries)
              else Reply(InternalServerError, None, queries)
  }

  /**
   * The guard order: 404 only after both request checks passed, 413 only
   * once the form is known to exist, and an insert error maps to 409 exactly
   * for a unique violation and to 500 otherwise.
   */
  lemma GuardOrder(parseUuid: string -> Option<Uuid>, db: Database, newId: Uuid, req: CreateSubmissionRequest)
    ensures var r := CreateSubmission(parseUuid, db, newId, req);
            && (r.status == BadRequest <==> parseUuid(req.formId).None? || !SubmitterIdValid(req.submitterId))
            && (r.status == NotFound <==>
                  parseUuid(req.formId).Some? && SubmitterIdValid(req.submitterId) && db.formExists == Success(false))
            && (r.status == PayloadTooLarge <==>
                  && parseUuid(req.formId).Some? && SubmitterIdValid(req.submitterId) && db.formExists == Success(true)
                  && |Utf8Encode(req.encryptedBlob)| > MAX_BLOB_SIZE)
            && (r.status == Conflict <==>
                  Admissible(parseUuid, db, req) && db.insert.Some? && db.insert.value.code == Some(UNIQUE_VIOLATION))
            && (r.status == InternalServerError <==>
                  || (parseUuid(req.formId).Some? && SubmitterIdValid(req.submitterId) && db.formExists.Failure?)
                  || (Admissible(parseUuid, db, req) && db.insert.Some? && db.insert.value.code != Some(UNIQUE_VIOLATION)))
  {
  }

  /** POST /submissions behind the API-Secret middleware. */
  function PostSubmission(header: Option<seq<byte>>, secret: seq<byte>, parseUuid: string -> Option<Uuid>,
                          db: Database, newId: Uuid, req: CreateSubmissionRequest): (r: Reply)
    ensures ProvidedSecret(header) != secret ==> r == Reply(Unauthorized, None, [])
    ensures ProvidedSecret(header) == secret ==> r == CreateSubmission(parseUuid, db, newId, req)
  {
    if !RequireApiSecret(header, secret) then Reply(Unauthorized, None, [])
    else CreateSubmission(parseUuid, db, newId, req)
  }

  /** A request whose header is not exactly the configured secret reaches no query. */
  lemma WrongSecretTouchesNothing(env: Option<string>, header: Option<seq<byte>>, parseUuid: string -> Option<Uuid>,
                                  db: Database, newId: Uuid, req: CreateSubmissionRequest)
    requires LoadApiSecret(env).Success?
    requires header != Some(LoadApiSecret(env).value)
    ensures PostSubmission(header, LoadApiSecret(env).value, parseUuid, db, newId, req) == Reply(Unauthorized, None, [])
  {
    AdmitsExactly(header, LoadApiSecret(env).value);
  }
}
