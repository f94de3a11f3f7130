/**
 * How the WASI module's size cap and the storage service's size cap meet.
 * SubmitForm caps the decoded blob at 200·1024 bytes
 * (wasi-near-forms-ark/src/main.rs:174) and forwards the hex string, which is
 * twice as long; POST /submissions caps that string at 200·1024 bytes
 * (db-api/src/main.rs:230). The storage cap is therefore half of what SubmitForm
 * admits, not four times it: every blob of more than 102400 bytes that SubmitForm
 * accepts is refused by `create_submission` with 413. The lemmas are about the
 * handler alone; the service's request-body limit in front of it is not modelled.
 */
module Limits {
  import opened Results
  import opened Bytes
  import Crypto
  import Wasi
  import DbApi

  /** The largest decoded blob whose hex form fits the storage cap. */
  const STORABLE_BLOB_SIZE: nat := DbApi.MAX_BLOB_SIZE / 2

  /** The JSON body `db::create_submission` posts for a store call (wasi-near-forms-ark/src/db.rs:92-96). */
  function AsStorageRequest(call: Wasi.StoreRequest): DbApi.CreateSubmissionRequest {
    DbApi.CreateSubmissionRequest(call.formId, call.submitterId, call.encryptedBlob)
  }

  /**
   * A blob that SubmitForm accepts and forwards, larger than 102400 bytes,
   * is refused by `create_submission` with 413, even when the form exists and
   * the submitter id is valid; the insert is never issued.
   */
  lemma LargeAcceptedBlobIsRefused(prim: Crypto.Primitives, host: Wasi.SubmitHost, encryptedAnswers: string,
                                   parseUuid: string -> Option<DbApi.Uuid>, db: DbApi.Database, newId: DbApi.Uuid)
    requires Wasi.HandleSubmitForm(prim, host, encryptedAnswers).storeCalls != []
    requires HexDecode(encryptedAnswers).Some? && |HexDecode(encryptedAnswers).value| > STORABLE_BLOB_SIZE
    requires host.signer.Some? && DbApi.SubmitterIdValid(host.signer.value)
    requires parseUuid(Wasi.FORM_ID).Some? && db.formExists == Success(true)
    ensures var call := Wasi.HandleSubmitForm(prim, host, encryptedAnswers).storeCalls[0];
            var r := DbApi.CreateSubmission(parseUuid, db, newId, AsStorageRequest(call));
            r.status == DbApi.PayloadTooLarge && r.queries == [DbApi.FormExists(parseUuid(Wasi.FORM_ID).value)]
  {
    HexByteLength(encryptedAnswers);
  }

  /**
   * A forwarded blob of at most 102400 bytes is never refused by storage for
   * its size.
   */
  lemma SmallBlobFitsStorage(prim: Crypto.Primitives, host: Wasi.SubmitHost, encryptedAnswers: string,
                             parseUuid: string -> Option<DbApi.Uuid>, db: DbApi.Database, newId: DbApi.Uuid)
    requires Wasi.HandleSubmitForm(prim, host, encryptedAnswers).storeCalls != []
    requires HexDecode(encryptedAnswers).Some? && |HexDecode(encryptedAnswers).value| <= STORABLE_BLOB_SIZE
    ensures var call := Wasi.HandleSubmitForm(prim, host, encryptedAnswers).storeCalls[0];
            DbApi.CreateSubmission(parseUuid, db, newId, AsStorageRequest(call)).status != DbApi.PayloadTooLarge
  {
    HexByteLength(encryptedAnswers);
  }
}
