/** `storeAuditHelper`: the provenance-anchoring sequence run after an audit. The code is
    hashed, the audit text is pinned to IPFS, the pair is submitted to the ledger, and the
    audit's database row records the transaction and the CID. Every remote step is a
    parameter with an abstract outcome; the database table is a mutable sequence of rows. */
module StoreAuditHelper {
  import opened Wrappers

  // ---------------------------------------------------------------- IPFS upload

  /** `auditText` is either a string (parsed as JSON before pinning) or an already-built
      object. */
  datatype AuditText<J> = TextArg(text: string) | ObjectArg(json: J)

  /** Pinata's answer to a pin request: the CID in `IpfsHash`, or a failed request. */
  datatype PinResponse = Pinned(ipfsHash: string) | PinFailed(detail: string)

  /** The one message every failed upload is reported with. */
  const UploadFailed := "Failed to upload to IPFS via Pinata"

  /** The JSON object that is pinned: a string is parsed first, an object is used as is. */
  function PinPayload<J>(content: AuditText<J>, parse: string -> Option<J>): Option<J>
  {
    match content
    case TextArg(text) => parse(text)
    case ObjectArg(json) => Some(json)
  }

  /** `uploadToIPFS(content)`: the CID of the pinned payload. A string that is not JSON and a
      failed request both end in the same error, and then nothing is pinned. */
  function UploadToIpfs<J>(content: AuditText<J>, parse: string -> Option<J>, pin: J -> PinResponse): (r: Result<string, string>)
    ensures r.Failure? ==> r.error == UploadFailed
    ensures content.TextArg? && parse(content.text).None? ==> r == Failure(UploadFailed)
    ensures r.Success? <==> PinPayload(content, parse).Some? && pin(PinPayload(content, parse).value).Pinned?
    ensures r.Success? ==> r.value == pin(PinPayload(content, parse).value).ipfsHash
  {
    var payload := PinPayload(content, parse);
    if payload.None? then Failure(UploadFailed)
    else
      match pin(payload.value)
      case Pinned(cid) => Success(cid)
      case PinFailed(_) => Failure(UploadFailed)
  }

  // ---------------------------------------------------------------- the ledger stub

  /** The object `sendToBlockchain` resolves to. */
  datatype StubTx = StubTx(status: string, txHash: string, fileHash: string, reportHash: string, wallet: string)

  /** `sendToBlockchain(wallet, fileHash, reportHash)` as shipped: a simulation that always
      succeeds with a fixed transaction hash and echoes its arguments. */
  function SendToBlockchainStub(wallet: string, fileHash: string, reportHash: string): Result<StubTx, string>
  {
    Success(StubTx("success", "0x123fakeTxHash456", fileHash, reportHash, wallet))
  }

  // ---------------------------------------------------------------- the audit table

  /** A row of the `Audit` table: its id, the columns the helper does not write, and the two
      it does. */
  datatype AuditRow<Tx> = AuditRow(id: string, columns: map<string, string>, txHash: Option<Tx>, ipfsCID: Option<string>)

  /** `update({ txHash, ipfsCID }).eq('id', id)`: every row with that id gets the two anchor
      columns; nothing else changes, and no row is added or removed. */
  function UpdatedRows<Tx>(rows: seq<AuditRow<Tx>>, id: string, tx: Tx, cid: string): (r: seq<AuditRow<Tx>>)
    ensures |r| == |rows|
    ensures forall k :: 0 <= k < |rows| && rows[k].id != id ==> r[k] == rows[k]
    ensures forall k :: 0 <= k < |rows| && rows[k].id == id ==>
      r[k].id == id && r[k].columns == rows[k].columns && r[k].txHash == Some(tx) && r[k].ipfsCID == Some(cid)
  {
    seq(|rows|, k requires 0 <= k < |rows| =>
      if rows[k].id == id then rows[k].(txHash := Some(tx), ipfsCID := Some(cid)) else rows[k])
  }

  /** Updating is idempotent: a repeated update with the same values changes nothing more. */
  lemma UpdateIdempotent<Tx>(rows: seq<AuditRow<Tx>>, id: string, tx: Tx, cid: string)
    ensures UpdatedRows(UpdatedRows(rows, id, tx, cid), id, tx, cid) == UpdatedRows(rows, id, tx, cid)
  {
    var once := UpdatedRows(rows, id, tx, cid);
    var twice := UpdatedRows(once, id, tx, cid);
    forall k | 0 <= k < |rows| ensures twice[k] == once[k] {
      if rows[k].id == id {
        assert once[k].id == id;
      }
    }
  }

  /** An id no row carries leaves the table as it was. */
  lemma UnknownIdUpdatesNothing<Tx>(rows: seq<AuditRow<Tx>>, id: string, tx: Tx, cid: string)
    requires forall k :: 0 <= k < |rows| ==> rows[k].id != id
    ensures UpdatedRows(rows, id, tx, cid) == rows
  {
  }

  /** The `Audit` table, updated in place. */
  class AuditTable<Tx> {
    var rows: seq<AuditRow<Tx>>

    constructor (initial: seq<AuditRow<Tx>>)
      ensures rows == initial
    {
      rows := initial;
    }

    /** The update request; `dbError` is the database's answer. An update that reports an
        error is not applied. */
    method Update(id: string, tx: Tx, cid: string, dbError: Option<string>) returns (error: Option<string>)
      modifies this
      ensures error == dbError
      ensures rows == if dbError.None? then UpdatedRows(old(rows), id, tx, cid) else old(rows)
    {
      if dbError.None? {
        rows := UpdatedRows(rows, id, tx, cid);
      }
      error := dbError;
    }
  }

  // ---------------------------------------------------------------- the anchoring sequence

  /** The helper's argument object. */
  datatype Request<J> = Request(id: string, wallet: string, code: string, auditText: AuditText<J>)

  /** The services the helper calls: the byte encoding of `Buffer.from`, `keccak256`, the
      JSON parser, the Pinata pin request, the ledger submission, and the error the
      database answers the update with. */
  datatype Services<!J, Tx> = Services(
    utf8: string -> seq<bv8>,
    keccak: seq<bv8> -> string,
    parse: string -> Option<J>,
    pin: J -> PinResponse,
    send: (string, string, string) -> Result<Tx, string>,
    dbError: Option<string>)

  /** One remote step, with what it returned. */
  datatype Call<Tx> =
    | Uploaded(upload: Result<string, string>)
    | SentToLedger(wallet: string, fileHash: string, cid: string, sent: Result<Tx, string>)
    | UpdatedDb(id: string, tx: Tx, cid: string, error: Option<string>)

  /** How the helper's promise settles. */
  datatype Outcome<Tx> = Returned(tx: Tx) | Threw(message: string)

  const StoringFailed := "Storing audit failed"

  /** The whole effect of one run: how it settles, the remote calls made, the table after. */
  datatype AnchorRun<Tx> = AnchorRun(outcome: Outcome<Tx>, calls: seq<Call<Tx>>, rows: seq<AuditRow<Tx>>)

  function FileHash<J, Tx>(code: string, env: Services<J, Tx>): string
  {
    env.keccak(env.utf8(code))
  }

  /** The sequence as a function of the table it starts from. */
  function Anchor<J, Tx>(rows: seq<AuditRow<Tx>>, req: Request<J>, env: Services<J, Tx>): AnchorRun<Tx>
  {
    var fileHash := FileHash(req.code, env);
    var upload := UploadToIpfs(req.auditText, env.parse, env.pin);
    if upload.Failure? then AnchorRun(Threw(upload.error), [Uploaded(upload)], rows)
    else
      var cid := upload.value;
      var sent := env.send(req.wallet, fileHash, cid);
      var calls := [Uploaded(upload), SentToLedger(req.wallet, fileHash, cid, sent)];
      if sent.Failure? then AnchorRun(Threw(sent.error), calls, rows)
      else
        var tx := sent.value;
        var calls' := calls + [UpdatedDb(req.id, tx, cid, env.dbError)];
        if env.dbError.Some? then AnchorRun(Threw(StoringFailed), calls', rows)
        else AnchorRun(Returned(tx), calls', UpdatedRows(rows, req.id, tx, cid))
  }

  /** `storeAuditHelper({ id, wallet, code, auditText })`. */
  method StoreAuditHelper<J, Tx>(table: AuditTable<Tx>, req: Request<J>, env: Services<J, Tx>)
    returns (outcome: Outcome<Tx>, calls: seq<Call<Tx>>)
    modifies table
    ensures outcome == Anchor(old(table.rows), req, env).outcome
    ensures calls == Anchor(old(table.rows), req, env).calls
    ensures table.rows == Anchor(old(table.rows), req, env).rows
  {
    var fileHash := env.keccak(env.utf8(req.code));
    var ipfsHash := UploadToIpfs(req.auditText, env.parse, env.pin);
    calls := [Uploaded(ipfsHash)];
    if ipfsHash.Failure? {
      outcome := Threw(ipfsHash.error);
      return;
    }
    var tx := env.send(req.wallet, fileHash, ipfsHash.value);
    calls := calls + [SentToLedger(req.wallet, fileHash, ipfsHash.value, tx)];
    if tx.Failure? {
      outcome := Threw(tx.error);
      return;
    }
    var error := table.Update(req.id, tx.value, ipfsHash.value, env.dbError);
    calls := calls + [UpdatedDb(req.id, tx.value, ipfsHash.value, error)];
    if error.Some? {
      outcome := Threw(StoringFailed);
      return;
    }
    outcome := Returned(tx.value);
  }

  // ---------------------------------------------------------------- properties

  /** The order of the steps, defined independently of `Anchor`: an upload first, and every
      later step only after the one before it succeeded, fed with what that step returned. */
  predicate WellOrdered<Tx(==)>(calls: seq<Call<Tx>>)
  {
    1 <= |calls| <= 3
    && calls[0].Uploaded?
    && (|calls| >= 2 ==>
          calls[0].upload.Success? && calls[1].SentToLedger? && calls[1].cid == calls[0].upload.value)
    && (|calls| == 3 ==>
          calls[1].sent.Success? && calls[2].UpdatedDb?
          && calls[2].tx == calls[1].sent.value && calls[2].cid == calls[1].cid)
  }

  /** Every step that returned normally is followed by the next one: a run stops early only
      at a failure, and it settles normally exactly when the database update reported no
      error, with the ledger's `tx`. */
  lemma StepsRunInOrder<J, Tx>(rows: seq<AuditRow<Tx>>, req: Request<J>, env: Services<J, Tx>)
    ensures WellOrdered(Anchor(rows, req, env).calls)
    ensures var calls := Anchor(rows, req, env).calls;
      (|calls| == 1 <==> calls[0].upload.Failure?)
      && (|calls| == 2 <==> calls[0].upload.Success? && calls[1].sent.Failure?)
    ensures var run := Anchor(rows, req, env);
      run.outcome.Returned? <==> |run.calls| == 3 && run.calls[2].error.None?
    ensures var run := Anchor(rows, req, env);
      run.outcome.Returned? ==> run.outcome.tx == run.calls[1].sent.value
  {
  }

  /** The ledger is called with the caller's wallet, the keccak hash of the code's bytes and
      exactly the CID the upload returned. */
  lemma LedgerGetsUploadedCid<J, Tx>(rows: seq<AuditRow<Tx>>, req: Request<J>, env: Services<J, Tx>)
    requires |Anchor(rows, req, env).calls| >= 2
    ensures var c := Anchor(rows, req, env).calls[1];
      c.wallet == req.wallet
      && c.fileHash == env.keccak(env.utf8(req.code))
      && UploadToIpfs(req.auditText, env.parse, env.pin) == Success(c.cid)
  {
  }

  /** A failed upload aborts the run: no ledger call, no database update, and the upload's
      error is what the caller sees. */
  lemma UploadFailureAborts<J, Tx>(rows: seq<AuditRow<Tx>>, req: Request<J>, env: Services<J, Tx>)
    requires UploadToIpfs(req.auditText, env.parse, env.pin).Failure?
    ensures Anchor(rows, req, env) == AnchorRun(Threw(UploadFailed), [Uploaded(Failure(UploadFailed))], rows)
  {
  }

  /** A database error is a partial failure: the ledger call has been made, the table is
      unchanged, and the caller sees "Storing audit failed". */
  lemma DbErrorAfterLedgerCall<J, Tx>(rows: seq<AuditRow<Tx>>, req: Request<J>, env: Services<J, Tx>)
    requires env.dbError.Some?
    requires |Anchor(rows, req, env).calls| == 3
    ensures var run := Anchor(rows, req, env);
      run.outcome == Threw(StoringFailed) && run.rows == rows && run.calls[1].SentToLedger?
  {
  }

  /** Only the two anchor columns of the rows with the request's id change, and only on a
      run that settles normally. */
  lemma OnlyAnchorColumnsChange<J, Tx>(rows: seq<AuditRow<Tx>>, req: Request<J>, env: Services<J, Tx>, k: nat)
    requires k < |rows|
    ensures |Anchor(rows, req, env).rows| == |rows|
    ensures var after := Anchor(rows, req, env).rows[k];
      after.id == rows[k].id && after.columns == rows[k].columns
      && (after.txHash != rows[k].txHash || after.ipfsCID != rows[k].ipfsCID ==>
            rows[k].id == req.id && Anchor(rows, req, env).outcome.Returned?)
  {
  }

  /** The helper does not check that a row matched: with an id no row carries, a run whose
      steps all succeed still returns the ledger's `tx`, and the table is unchanged. */
  lemma UnknownIdStillReturnsTx<J, Tx>(rows: seq<AuditRow<Tx>>, req: Request<J>, env: Services<J, Tx>, cid: string, tx: Tx)
    requires forall k :: 0 <= k < |rows| ==> rows[k].id != req.id
    requires UploadToIpfs(req.auditText, env.parse, env.pin) == Success(cid)
    requires env.send(req.wallet, FileHash(req.code, env), cid) == Success(tx)
    requires env.dbError.None?
    ensures Anchor(rows, req, env).outcome == Returned(tx)
    ensures Anchor(rows, req, env).rows == rows
  {
    UnknownIdUpdatesNothing(rows, req.id, tx, cid);
  }

  /** With the shipped ledger stub, a successful upload and database update store the stub's
      object, which names the wallet, the code hash and the CID, on the request's rows. */
  lemma StubRunStoresEcho<J>(rows: seq<AuditRow<StubTx>>, req: Request<J>, env: Services<J, StubTx>, cid: string, k: nat)
    requires env.send == SendToBlockchainStub
    requires UploadToIpfs(req.auditText, env.parse, env.pin) == Success(cid)
    requires env.dbError.None?
    requires k < |rows| && rows[k].id == req.id
    ensures var run := Anchor(rows, req, env);
      run.outcome.Returned?
      && run.outcome.tx == StubTx("success", "0x123fakeTxHash456", FileHash(req.code, env), cid, req.wallet)
      && run.rows[k].txHash == Some(run.outcome.tx)
      && run.rows[k].ipfsCID == Some(cid)
  {
  }
}
