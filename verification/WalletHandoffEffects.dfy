/** When each operation of the wallet handoff succeeds and what it leaves behind, field by field. */
module WalletHandoffEffects {
  import opened Text
  import opened Collections
  import opened WalletHandoff
  import opened WalletHandoffRuns

  // ---------------------------------------------------------------------------------------
  // Vocabulary
  // ---------------------------------------------------------------------------------------

  /** Both times parse, and the first is strictly earlier. */
  predicate Earlier(a: Timestamp, b: Timestamp) {
    a.At? && b.At? && a.ms < b.ms
  }

  predicate NotEarlier(a: Timestamp, b: Timestamp) {
    a.At? && b.At? && a.ms >= b.ms
  }

  lemma NotBeforeIs(a: Timestamp, b: Timestamp)
    ensures NotBefore(a, b) == Ok(false) <==> Earlier(a, b)
    ensures NotBefore(a, b) == Ok(true) <==> NotEarlier(a, b)
    ensures NotBefore(a, b).Err? <==> NotBefore(a, b) == Err(INPUT_INVALID)
  {
  }

  /** The two hashes are there, not empty, and equal up to the case of their letters. */
  predicate HashesAgree(a: Option<string>, b: Option<string>) {
    a.Some? && b.Some? && a.value != "" && b.value != "" && Lower(a.value) == Lower(b.value)
  }

  /** The error list after a failure: a code that is there already is not added again. */
  function WithFailure(errors: seq<Failure>, f: Failure): seq<Failure> {
    if f.code in Codes(errors) then errors else errors + [f]
  }

  lemma AppendErrorIs(h: Handoff, f: Failure)
    ensures AppendError(h, f) == h.(errors := WithFailure(h.errors, f))
  {
    if f.code in Codes(h.errors) {
      var i :| 0 <= i < |h.errors| && Codes(h.errors)[i] == f.code;
      assert h.errors[i].code == f.code;
    }
    if i :| 0 <= i < |h.errors| && h.errors[i].code == f.code {
      assert Codes(h.errors)[i] == f.code;
    }
  }

  // ---------------------------------------------------------------------------------------
  // Preparing
  // ---------------------------------------------------------------------------------------

  /** The record that a preparation is to make. */
  function Fresh(operation: Operation, p: PrepareParams, now: Timestamp): Handoff {
    Handoff(
      id := p.id, operationId := operation.operationId, capability := operation.capability, walletAddress := p.walletAddress,
      network := p.network, prepared := p.prepared, expiresAt := p.expiresAt, lifecycle := PREPARED,
      authorization := AwaitingSignature(p.expiresAt),
      transaction := Transaction(status := WALLET_REQUIRED, network := p.network, txHash := None, financialEffect := NoEffect,
                                 observedAt := now, submittedAt := None, failureCode := None, failureReason := None),
      verification := NotRequested, errors := [],
      createdAt := if p.createdAt.Some? then p.createdAt.value else now,
      updatedAt := if p.updatedAt.Some? then p.updatedAt.value else now)
  }

  /** Preparation succeeds exactly if the operation is known, the chain ids agree, a wallet address given is the
      sender's, expiry lies after the time of preparation, a capability given is the operation's, and the schema accepts
      the fresh record; and that is what it returns. */
  lemma PrepareIff(schemas: Schemas, operation: Option<Operation>, p: PrepareParams)
    ensures var now := if p.now.Some? then p.now.value else if p.createdAt.Some? then p.createdAt.value else p.clock;
      && (Prepare(schemas, operation, p).Ok? <==>
            && operation.Some? && p.prepared.chainId == p.network.chainId
            && (p.walletAddress.None? || p.walletAddress.value == "" || Lower(p.walletAddress.value) == Lower(p.prepared.from))
            && Earlier(now, p.expiresAt)
            && (p.capability.None? || p.capability.value == "" || p.capability.value == operation.value.capability)
            && schemas.handoff(Fresh(operation.value, p, now)))
      && (Prepare(schemas, operation, p).Ok? ==> Prepare(schemas, operation, p).value == Fresh(operation.value, p, now))
  {
    NotBeforeIs(PreparedAt(p), p.expiresAt);
  }

  // ---------------------------------------------------------------------------------------
  // Signing
  // ---------------------------------------------------------------------------------------

  /** An authorization succeeds exactly on a record that its schema accepts and that awaits it, before expiry, by the prepared
      sender, if the schema accepts the signed record; and that is what it returns. */
  lemma AuthorizeIff(schemas: Schemas, h: Handoff, signer: string, signature: string, signedAt: Timestamp, clock: Option<Timestamp>)
    ensures var now := if clock.Some? then clock.value else signedAt;
      var r := Do(schemas, h, DoAuthorize(signer, signature, signedAt, clock));
      var signed := h.(authorization := Signed(signer, signature, signedAt, h.expiresAt), lifecycle := COMMITTED, updatedAt := now);
      && (r.Ok? <==> schemas.handoff(h) && h.authorization.AwaitingSignature? && Earlier(now, h.expiresAt)
                     && Lower(signer) == Lower(h.prepared.from) && schemas.handoff(signed))
      && (r.Ok? ==> r.value == signed)
  {
    NotBeforeIs(Or(clock, signedAt), h.expiresAt);
  }

  // ---------------------------------------------------------------------------------------
  // Expiring
  // ---------------------------------------------------------------------------------------

  /** The record of an expiry. */
  function ExpiredRecord(h: Handoff, now: Timestamp): Handoff {
    h.(lifecycle := FAILED, authorization := Expired(h.expiresAt),
       transaction := h.transaction.(status := NOT_REQUESTED, financialEffect := NoEffect, observedAt := now),
       errors := WithFailure(h.errors, Failure(SIGNATURE_EXPIRED, false, NoEffect, FAILED, NOT_REQUESTED, now)),
       updatedAt := now)
  }

  /** Expiring kills the handoff exactly from expiry on, while no transaction has been submitted or rejected and it has not
      expired before; otherwise it returns the record as it is. It throws if a time does not parse or the schema refuses
      what it would return. */
  lemma ExpireIs(schemas: Schemas, h: Handoff, now: Timestamp)
    ensures var r := Do(schemas, h, DoExpire(now));
      if !now.At? || !h.expiresAt.At? then r == Err(INPUT_INVALID)
      else
        var next := if now.ms >= h.expiresAt.ms && h.transaction.status in {NOT_REQUESTED, WALLET_REQUIRED} && !h.authorization.Expired?
                    then ExpiredRecord(h, now) else h;
        r == if schemas.handoff(next) then Ok(next) else Err(SCHEMA_INVALID)
  {
    AppendErrorIs(h.(lifecycle := FAILED, authorization := Expired(h.expiresAt),
                     transaction := h.transaction.(status := NOT_REQUESTED, financialEffect := NoEffect, observedAt := now),
                     updatedAt := now),
                  Failure(SIGNATURE_EXPIRED, false, NoEffect, FAILED, NOT_REQUESTED, now));
  }

  // ---------------------------------------------------------------------------------------
  // Rejections
  // ---------------------------------------------------------------------------------------

  /** The wallet says no, directly or as the outcome of a submission. */
  predicate WalletRejects(op: Op) {
    op.DoReject? || (op.DoSubmit? && op.transaction.status == REJECTED_BY_WALLET)
  }

  function RejectionReason(op: Op): string
    requires WalletRejects(op)
  {
    match op
    case DoReject(reason, _) => reason
    case DoSubmit(t) => if t.failureReason.Some? then t.failureReason.value else "The external wallet rejected the transaction."
  }

  function RejectionTime(op: Op): Timestamp
    requires WalletRejects(op)
  {
    match op
    case DoReject(_, now) => now
    case DoSubmit(t) => t.observedAt
  }

  /** The record of a rejection of h by the wallet. */
  function RejectedRecord(h: Handoff, op: Op): Handoff
    requires WalletRejects(op)
  {
    var now := RejectionTime(op);
    var t := if op.DoSubmit? then op.transaction else h.transaction;
    h.(lifecycle := FAILED, authorization := Rejected(RejectionReason(op), h.expiresAt),
       transaction := t.(status := REJECTED_BY_WALLET, financialEffect := NoEffect, observedAt := now),
       verification := NotRequested,
       errors := WithFailure(h.errors, Failure(WALLET_REJECTED, true, NoEffect, FAILED, REJECTED_BY_WALLET, now)),
       updatedAt := now)
  }

  lemma RejectionLeaves(h: Handoff, reason: string, now: Timestamp)
    ensures AppendError(h.(lifecycle := FAILED, authorization := Rejected(reason, h.expiresAt),
                           transaction := h.transaction.(status := REJECTED_BY_WALLET, financialEffect := NoEffect, observedAt := now),
                           verification := NotRequested, updatedAt := now),
                        Failure(WALLET_REJECTED, true, NoEffect, FAILED, REJECTED_BY_WALLET, now))
         == RejectedRecord(h, DoReject(reason, now))
  {
    AppendErrorIs(h.(lifecycle := FAILED, authorization := Rejected(reason, h.expiresAt),
                     transaction := h.transaction.(status := REJECTED_BY_WALLET, financialEffect := NoEffect, observedAt := now),
                     verification := NotRequested, updatedAt := now),
                  Failure(WALLET_REJECTED, true, NoEffect, FAILED, REJECTED_BY_WALLET, now));
  }

  lemma RejectIs(schemas: Schemas, h: Handoff, reason: string, now: Timestamp)
    requires Reject(schemas, h, reason, now).Ok?
    ensures Reject(schemas, h, reason, now).value == RejectedRecord(h, DoReject(reason, now))
  {
    RejectionLeaves(h, reason, now);
  }

  /** In a run every rejection that succeeds leaves exactly this record, whatever was signed, submitted or verified before. */
  lemma RejectionRecorded(schemas: Schemas, operation: Option<Operation>, p: PrepareParams, ops: seq<Op>, hs: seq<Handoff>, k: nat)
    requires IsRun(schemas, operation, p, ops, hs) && k < |ops|
    requires WalletRejects(ops[k]) && Do(schemas, hs[k], ops[k]).Ok?
    ensures hs[k + 1] == RejectedRecord(hs[k], ops[k])
    ensures hs[k + 1].authorization == Rejected(RejectionReason(ops[k]), p.expiresAt)
    ensures hs[k + 1].transaction.status == REJECTED_BY_WALLET && hs[k + 1].lifecycle == FAILED && hs[k + 1].verification == NotRequested
  {
    assert Advances(schemas, hs[k], ops[k], hs[k + 1]);
    RunKeeps(schemas, operation, p, ops, hs, k);
    match ops[k]
    case DoReject(reason, now) => RejectIs(schemas, hs[k], reason, now);
    case DoSubmit(t) =>
      RejectIs(schemas, hs[k].(transaction := t, updatedAt := t.observedAt), RejectionReason(ops[k]), t.observedAt);
  }

  /** A direct rejection succeeds on every record that the schema accepts, unless it refuses what would be left. */
  lemma RejectSucceedsIff(schemas: Schemas, h: Handoff, reason: string, now: Timestamp)
    ensures Do(schemas, h, DoReject(reason, now)).Ok? <==> schemas.handoff(h) && schemas.handoff(RejectedRecord(h, DoReject(reason, now)))
  {
    RejectionLeaves(h, reason, now);
  }

  predicate StandsRejected(h: Handoff) {
    h.authorization.Rejected? && h.transaction.status == REJECTED_BY_WALLET && h.lifecycle == FAILED && h.verification == NotRequested
  }

  lemma RejectedStays(schemas: Schemas, h: Handoff, op: Op)
    requires StandsRejected(h)
    ensures Do(schemas, h, op).Ok? ==> StandsRejected(Do(schemas, h, op).value)
    ensures op.DoAuthorize? || op.DoSubmit? || op.DoReceipt? ==> Do(schemas, h, op).Err?
  {
    if op.DoReject? && Do(schemas, h, op).Ok? {
      RejectIs(schemas, h, op.reason, op.now);
    }
  }

  /** After a rejection by the wallet, at any point of the run: nothing can be authorized, submitted or verified any
      more, and no verification finds the handoff valid, let alone successful. */
  lemma {:induction false} NothingAfterRejection(schemas: Schemas, operation: Option<Operation>, p: PrepareParams, ops: seq<Op>, hs: seq<Handoff>,
                                                 k: nat, j: nat, op: Op, expected: Network, now: Timestamp)
    requires IsRun(schemas, operation, p, ops, hs) && k < j < |hs|
    requires WalletRejects(ops[k]) && Do(schemas, hs[k], ops[k]).Ok?
    ensures StandsRejected(hs[j])
    ensures op.DoAuthorize? || op.DoSubmit? || op.DoReceipt? ==> Do(schemas, hs[j], op).Err?
    ensures var report := Verify(schemas, hs[j], expected, now);
      report.Ok? ==> !report.value.valid && report.value.status == FAILED && !report.value.financialSuccess && !report.value.receiptVerified
    decreases j
  {
    if j == k + 1 {
      RejectionRecorded(schemas, operation, p, ops, hs, k);
    } else {
      NothingAfterRejection(schemas, operation, p, ops, hs, k, j - 1, op, expected, now);
      assert Advances(schemas, hs[j - 1], ops[j - 1], hs[j]);
      RejectedStays(schemas, hs[j - 1], ops[j - 1]);
    }
    RejectedStays(schemas, hs[j], op);
  }

  // ---------------------------------------------------------------------------------------
  // Submissions
  // ---------------------------------------------------------------------------------------

  /** The code of a failed transaction. */
  function CodeOf(t: Transaction): Code {
    if t.failureCode.Some? then t.failureCode.value
    else if t.status == REVERTED then TRANSACTION_REVERTED
    else if t.status == REPLACED then TRANSACTION_REPLACED
    else if t.status == DROPPED then TRANSACTION_DROPPED
    else RPC_UNAVAILABLE
  }

  /** The record of the submission t that the wallet did not reject. */
  function SubmittedRecord(h: Handoff, t: Transaction): Handoff
    requires t.status != REJECTED_BY_WALLET
  {
    var next := h.(transaction := t, updatedAt := t.observedAt);
    if t.status == SUBMITTED || t.status == PENDING_CONFIRMATION then
      next.(lifecycle := SENT, verification := Pending("A verified financial receipt is still pending."))
    else if t.status == CONFIRMED then
      next.(lifecycle := SETTLING, verification := Pending("Exact receipt evidence and canonical reconciliation are still pending."))
    else if t.status == NOT_REQUESTED || t.status == WALLET_REQUIRED then
      next.(lifecycle := PREPARED, verification := NotRequested)
    else
      next.(lifecycle := FAILED, errors := WithFailure(h.errors,
        Failure(CodeOf(t), CodeOf(t) != TRANSACTION_REVERTED, t.financialEffect, FAILED, t.status, t.observedAt)))
  }

  /** What a submission must be to be looked at: for a signed handoff, accepted by its schema, on the handoff's network,
      and submitted before expiry if it gives a time. */
  predicate Admitted(schemas: Schemas, h: Handoff, t: Transaction) {
    && schemas.handoff(h) && schemas.transaction(t) && t.network == h.network && h.authorization.Signed?
    && (t.submittedAt.Some? ==> Earlier(t.submittedAt.value, h.expiresAt))
  }

  lemma SubmitAdmits(schemas: Schemas, h: Handoff, t: Transaction)
    ensures Submit(schemas, h, t).Ok? ==> Admitted(schemas, h, t)
  {
    if t.submittedAt.Some? {
      NotBeforeIs(t.submittedAt.value, h.expiresAt);
    }
  }

  lemma FailedSubmissionLeaves(h: Handoff, t: Transaction)
    ensures var next := h.(transaction := t, updatedAt := t.observedAt, lifecycle := FAILED);
      var f := Failure(CodeOf(t), CodeOf(t) != TRANSACTION_REVERTED, t.financialEffect, FAILED, t.status, t.observedAt);
      AppendError(next, f) == next.(errors := WithFailure(h.errors, f))
  {
    AppendErrorIs(h.(transaction := t, updatedAt := t.observedAt, lifecycle := FAILED),
                  Failure(CodeOf(t), CodeOf(t) != TRANSACTION_REVERTED, t.financialEffect, FAILED, t.status, t.observedAt));
  }

  lemma AdmittedSubmission(schemas: Schemas, h: Handoff, t: Transaction)
    requires t.status != REJECTED_BY_WALLET && Admitted(schemas, h, t)
    ensures Submit(schemas, h, t) == Checked(schemas, SubmittedRecord(h, t))
  {
    if t.submittedAt.Some? {
      NotBeforeIs(t.submittedAt.value, h.expiresAt);
    }
    FailedSubmissionLeaves(h, t);
  }

  /** A submission that the wallet did not reject is recorded exactly if it is admitted and the schema accepts the record
      left. */
  lemma SubmitIff(schemas: Schemas, h: Handoff, t: Transaction)
    requires t.status != REJECTED_BY_WALLET
    ensures Do(schemas, h, DoSubmit(t)).Ok? <==> Admitted(schemas, h, t) && schemas.handoff(SubmittedRecord(h, t))
    ensures Do(schemas, h, DoSubmit(t)).Ok? ==> Do(schemas, h, DoSubmit(t)).value == SubmittedRecord(h, t)
  {
    SubmitAdmits(schemas, h, t);
    if Admitted(schemas, h, t) {
      AdmittedSubmission(schemas, h, t);
    }
  }

  /** And one that the wallet rejected exactly if it is admitted and the schema accepts both the record with the
      transaction and the record of the rejection. */
  lemma SubmitRejectedIff(schemas: Schemas, h: Handoff, t: Transaction)
    requires t.status == REJECTED_BY_WALLET
    ensures Do(schemas, h, DoSubmit(t)).Ok? <==>
      && Admitted(schemas, h, t)
      && schemas.handoff(h.(transaction := t, updatedAt := t.observedAt)) && schemas.handoff(RejectedRecord(h, DoSubmit(t)))
  {
    SubmitAdmits(schemas, h, t);
    if t.submittedAt.Some? {
      NotBeforeIs(t.submittedAt.value, h.expiresAt);
    }
    RejectionLeaves(h.(transaction := t, updatedAt := t.observedAt), Or(t.failureReason, WALLET_SAID_NO), t.observedAt);
  }

  // ---------------------------------------------------------------------------------------
  // Receipts
  // ---------------------------------------------------------------------------------------

  /** The record of the receipt r. */
  function ReceiptedRecord(h: Handoff, r: Receipt, now: Timestamp): Handoff {
    var next := h.(transaction := r.transaction, updatedAt := now);
    if r.status == VERIFIED_RECEIPT && r.outcome == RECONCILED && r.reconciliation == MATCHED then
      next.(verification := Verified(r.id, r.network, r.reasons, now), lifecycle := SETTLED)
    else if r.status == VERIFIED_RECEIPT then
      next.(verification := Verified(r.id, r.network, r.reasons, now), lifecycle := SETTLING,
            errors := WithFailure(h.errors, Failure(RECEIPT_UNVERIFIED, true, ReconciliationRequired, SETTLING, r.transaction.status, now)))
    else
      var judged := next.(verification := if r.status == REJECTED_RECEIPT then RejectedReceipt(r.id, r.network, r.reasons)
                                          else Unverified(r.id, r.network, r.reasons));
      if r.transaction.status == REVERTED then
        judged.(lifecycle := FAILED,
                errors := WithFailure(h.errors, Failure(TRANSACTION_REVERTED, false, r.transaction.financialEffect, FAILED, REVERTED, now)))
      else
        judged.(lifecycle := SETTLING,
                errors := WithFailure(h.errors, Failure(RECEIPT_UNVERIFIED, true,
                                                        if r.outcome == PENDING_OUTCOME then PendingEffect else UnknownEffect,
                                                        SETTLING, r.transaction.status, now)))
  }

  /** The three ways in which a receipt leaves an error. */
  lemma ReceiptErrorsAre(h: Handoff, r: Receipt, now: Timestamp)
    ensures var next := h.(transaction := r.transaction, updatedAt := now);
      var verified := next.(verification := Verified(r.id, r.network, r.reasons, now), lifecycle := SETTLING);
      var f := Failure(RECEIPT_UNVERIFIED, true, ReconciliationRequired, SETTLING, r.transaction.status, now);
      AppendError(verified, f) == verified.(errors := WithFailure(h.errors, f))
    ensures var next := h.(transaction := r.transaction, updatedAt := now);
      var judged := next.(verification := if r.status == REJECTED_RECEIPT then RejectedReceipt(r.id, r.network, r.reasons)
                                          else Unverified(r.id, r.network, r.reasons));
      var reverted := Failure(TRANSACTION_REVERTED, false, r.transaction.financialEffect, FAILED, REVERTED, now);
      var pending := Failure(RECEIPT_UNVERIFIED, true, if r.outcome == PENDING_OUTCOME then PendingEffect else UnknownEffect,
                             SETTLING, r.transaction.status, now);
      && AppendError(judged.(lifecycle := FAILED), reverted) == judged.(lifecycle := FAILED, errors := WithFailure(h.errors, reverted))
      && AppendError(judged.(lifecycle := SETTLING), pending) == judged.(lifecycle := SETTLING, errors := WithFailure(h.errors, pending))
  {
    var next := h.(transaction := r.transaction, updatedAt := now);
    AppendErrorIs(next.(verification := Verified(r.id, r.network, r.reasons, now), lifecycle := SETTLING),
                  Failure(RECEIPT_UNVERIFIED, true, ReconciliationRequired, SETTLING, r.transaction.status, now));
    var judged := next.(verification := if r.status == REJECTED_RECEIPT then RejectedReceipt(r.id, r.network, r.reasons)
                                        else Unverified(r.id, r.network, r.reasons));
    AppendErrorIs(judged.(lifecycle := FAILED), Failure(TRANSACTION_REVERTED, false, r.transaction.financialEffect, FAILED, REVERTED, now));
    AppendErrorIs(judged.(lifecycle := SETTLING),
                  Failure(RECEIPT_UNVERIFIED, true, if r.outcome == PENDING_OUTCOME then PendingEffect else UnknownEffect,
                          SETTLING, r.transaction.status, now));
  }

  /** A receipt is recorded exactly if its schema and the record's accept it and the record, it is for the handoff's network
      and operation, the transaction recorded is CONFIRMED with the receipt's hash, and a verified receipt is for a
      confirmed transaction, if the schema accepts the record left. */
  lemma ReceiptIff(schemas: Schemas, h: Handoff, r: Receipt, now: Timestamp)
    ensures var done := Do(schemas, h, DoReceipt(r, now));
      && (done.Ok? <==>
            && schemas.handoff(h) && schemas.receipt(r)
            && r.network == h.network && r.transaction.network == h.network && r.operationId == h.operationId
            && h.transaction.status == CONFIRMED && HashesAgree(r.transaction.txHash, h.transaction.txHash)
            && (r.status == VERIFIED_RECEIPT ==> r.transaction.status == CONFIRMED)
            && schemas.handoff(ReceiptedRecord(h, r, now)))
      && (done.Ok? ==> done.value == ReceiptedRecord(h, r, now))
  {
    ReceiptErrorsAre(h, r, now);
  }

  // ---------------------------------------------------------------------------------------
  // Reports
  // ---------------------------------------------------------------------------------------

  predicate OnItsWay(status: TxStatus) {
    status in {SUBMITTED, PENDING_CONFIRMATION, CONFIRMED}
  }

  predicate WentWrong(status: TxStatus) {
    status in {REVERTED, REPLACED, DROPPED, UNKNOWN, REJECTED_BY_WALLET}
  }

  /** The network asked about is the record's, and the prepared request's chain its chain. */
  predicate OnNetwork(h: Handoff, expected: Network) {
    h.network == expected && h.prepared.chainId == expected.chainId
  }

  /** The report on a record that its schema accepts: it throws only if nothing is on its way on the right network and a time
      does not parse; it is valid exactly on the right network, with a transaction on its way or before expiry, and none
      that went wrong; a valid report shows the lifecycle and whether the receipt is verified, an invalid one a failure. A
      record that its schema refuses is reported invalid. */
  lemma ReportIs(schemas: Schemas, h: Handoff, expected: Network, now: Timestamp)
    ensures var report := Verify(schemas, h, expected, now);
      && (report.Err? <==> schemas.handoff(h) && OnNetwork(h, expected) && !OnItsWay(h.transaction.status) && !(now.At? && h.expiresAt.At?))
      && (report.Ok? ==>
            var r := report.value;
            && (r.valid <==> schemas.handoff(h) && OnNetwork(h, expected)
                             && (OnItsWay(h.transaction.status) || Earlier(now, h.expiresAt)) && !WentWrong(h.transaction.status))
            && (r.valid ==> r.status == h.lifecycle && (r.receiptVerified <==> h.verification.Verified?) && r.codes == Codes(h.errors)
                            && (r.financialSuccess <==> h.lifecycle == SETTLED && h.verification.Verified? && h.transaction.status == CONFIRMED))
            && (!r.valid ==> r.status == FAILED && !r.receiptVerified && !r.financialSuccess
                             && r.codes == Codes(h.errors) + (if !schemas.handoff(h) then [INPUT_INVALID]
                                                              else if !OnNetwork(h, expected) then [WRONG_NETWORK]
                                                              else if !OnItsWay(h.transaction.status) && NotEarlier(now, h.expiresAt) then [SIGNATURE_EXPIRED]
                                                              else [])))
  {
    NotBeforeIs(now, h.expiresAt);
    assert Codes(h.errors) + [] == Codes(h.errors);
  }
}
