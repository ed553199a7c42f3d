/** The wallet handoff: six operations on one record, each returning a new record or an error. */
module WalletHandoff {
  import opened Text

  // ---------------------------------------------------------------------------------------
  // Records
  // ---------------------------------------------------------------------------------------

  /** A timestamp as `Date.parse` sees it. */
  datatype Timestamp = At(ms: int) | Unparsable(text: string)

  datatype Code =
    | INPUT_INVALID | WRONG_NETWORK | AUTHORIZATION_REQUIRED | WALLET_REJECTED | SIGNATURE_EXPIRED | STATE_STALE
    | RECEIPT_UNVERIFIED | TRANSACTION_REVERTED | TRANSACTION_REPLACED | TRANSACTION_DROPPED | RPC_UNAVAILABLE
    | SCHEMA_INVALID | OTHER_CODE(name: string)

  datatype TxStatus =
    | NOT_REQUESTED | WALLET_REQUIRED | REJECTED_BY_WALLET | SUBMITTED | PENDING_CONFIRMATION | CONFIRMED
    | REVERTED | REPLACED | DROPPED | UNKNOWN

  datatype Lifecycle = PREPARED | COMMITTED | SENT | SETTLING | SETTLED | FAILED

  datatype Effect = NoEffect | PendingEffect | ReconciliationRequired | UnknownEffect | OtherEffect(name: string)

  datatype Network = Network(networkId: string, chainId: int)

  datatype PreparedRequest = PreparedRequest(from: string, chainId: int, body: string)

  datatype Authorization =
    | AwaitingSignature(expiresAt: Timestamp)
    | Signed(signer: string, signature: string, signedAt: Timestamp, expiresAt: Timestamp)
    | Rejected(reason: string, expiresAt: Timestamp)
    | Expired(expiresAt: Timestamp)

  datatype Transaction = Transaction(
    status: TxStatus,
    network: Network,
    txHash: Option<string>,
    financialEffect: Effect,
    observedAt: Timestamp,
    submittedAt: Option<Timestamp>,
    failureCode: Option<Code>,
    failureReason: Option<string>)

  datatype Verification =
    | NotRequested
    | Pending(reason: string)
    | Verified(receiptId: string, network: Network, reasons: seq<string>, verifiedAt: Timestamp)
    | Unverified(receiptId: string, network: Network, reasons: seq<string>)
    | RejectedReceipt(receiptId: string, network: Network, reasons: seq<string>)

  datatype Failure = Failure(code: Code, retryable: bool, effect: Effect, lifecycle: Lifecycle, transaction: TxStatus, occurredAt: Timestamp)

  datatype Handoff = Handoff(
    id: string,
    operationId: string,
    capability: string,
    walletAddress: Option<string>,
    network: Network,
    prepared: PreparedRequest,
    expiresAt: Timestamp,
    lifecycle: Lifecycle,
    authorization: Authorization,
    transaction: Transaction,
    verification: Verification,
    errors: seq<Failure>,
    createdAt: Timestamp,
    updatedAt: Timestamp)

  datatype ReceiptStatus = VERIFIED_RECEIPT | REJECTED_RECEIPT | OTHER_RECEIPT
  datatype Outcome = RECONCILED | PENDING_OUTCOME | OTHER_OUTCOME
  datatype Reconciliation = MATCHED | UNMATCHED

  datatype Receipt = Receipt(
    id: string,
    operationId: string,
    network: Network,
    transaction: Transaction,
    status: ReceiptStatus,
    outcome: Outcome,
    reconciliation: Reconciliation,
    reasons: seq<string>)

  /** The generated JSON-schema validators: any predicates at all. */
  datatype Schemas = Schemas(handoff: Handoff -> bool, transaction: Transaction -> bool, receipt: Receipt -> bool)

  datatype Operation = Operation(operationId: string, capability: string)

  datatype PrepareParams = PrepareParams(
    id: string,
    capability: Option<string>,
    walletAddress: Option<string>,
    network: Network,
    prepared: PreparedRequest,
    expiresAt: Timestamp,
    createdAt: Option<Timestamp>,
    now: Option<Timestamp>,
    clock: Timestamp,           // read if neither `now` nor `createdAt` is given
    updatedAt: Option<Timestamp>)

  const RECEIPT_PENDING := "A verified financial receipt is still pending."
  const RECONCILIATION_PENDING := "Exact receipt evidence and canonical reconciliation are still pending."
  const WALLET_SAID_NO := "The external wallet rejected the transaction."

  // ---------------------------------------------------------------------------------------
  // Checks
  // ---------------------------------------------------------------------------------------

  predicate Truthy(s: Option<string>) {
    s.Some? && s.value != ""
  }

  /** `time(a) >= time(b)`, or an error if either does not parse. */
  function NotBefore(a: Timestamp, b: Timestamp): Result<bool, Code> {
    match (a, b)
    case (At(x), At(y)) => Ok(x >= y)
    case _ => Err(INPUT_INVALID)
  }

  function Checked(schemas: Schemas, h: Handoff): Result<Handoff, Code> {
    if schemas.handoff(h) then Ok(h) else Err(SCHEMA_INVALID)
  }

  function AppendError(h: Handoff, e: Failure): Handoff {
    if exists i :: 0 <= i < |h.errors| && h.errors[i].code == e.code then h else h.(errors := h.errors + [e])
  }

  // ---------------------------------------------------------------------------------------
  // Operations
  // ---------------------------------------------------------------------------------------

  function PreparedAt(p: PrepareParams): Timestamp {
    Or(p.now, Or(p.createdAt, p.clock))
  }

  /** `operation` is what the registry resolves the requested operation id to, if it knows it. */
  function Prepare(schemas: Schemas, operation: Option<Operation>, p: PrepareParams): Result<Handoff, Code> {
    if operation.None? then Err(INPUT_INVALID)
    else if p.prepared.chainId != p.network.chainId then Err(WRONG_NETWORK)
    else if Truthy(p.walletAddress) && Lower(p.walletAddress.value) != Lower(p.prepared.from) then Err(AUTHORIZATION_REQUIRED)
    else
      match NotBefore(PreparedAt(p), p.expiresAt)
      case Err(code) => Err(code)
      case Ok(expired) =>
        if expired then Err(SIGNATURE_EXPIRED)
        else if Truthy(p.capability) && p.capability.value != operation.value.capability then Err(INPUT_INVALID)
        else Checked(schemas, Handoff(
          p.id, operation.value.operationId, operation.value.capability, p.walletAddress, p.network, p.prepared, p.expiresAt,
          PREPARED, AwaitingSignature(p.expiresAt),
          Transaction(WALLET_REQUIRED, p.network, None, NoEffect, PreparedAt(p), None, None, None),
          NotRequested, [],
          Or(p.createdAt, PreparedAt(p)),
          Or(p.updatedAt, PreparedAt(p))))
  }

  function IsExpired(h: Handoff, now: Timestamp): Result<bool, Code> {
    NotBefore(now, h.expiresAt)
  }

  function Expire(schemas: Schemas, h: Handoff, now: Timestamp): Result<Handoff, Code> {
    match IsExpired(h, now)
    case Err(code) => Err(code)
    case Ok(expired) =>
      if !expired || !(h.transaction.status == NOT_REQUESTED || h.transaction.status == WALLET_REQUIRED) || h.authorization.Expired?
      then Checked(schemas, h)
      else
        var next := h.(lifecycle := FAILED, authorization := Expired(h.expiresAt),
                       transaction := h.transaction.(status := NOT_REQUESTED, financialEffect := NoEffect, observedAt := now),
                       updatedAt := now);
        Checked(schemas, AppendError(next, Failure(SIGNATURE_EXPIRED, false, NoEffect, FAILED, NOT_REQUESTED, now)))
  }

  /** The signing time stands in for the clock if no clock reading is given. */
  function Authorize(schemas: Schemas, h: Handoff, signer: string, signature: string, signedAt: Timestamp, now: Option<Timestamp>): Result<Handoff, Code> {
    if !schemas.handoff(h) then Err(SCHEMA_INVALID)
    else if !h.authorization.AwaitingSignature? then Err(AUTHORIZATION_REQUIRED)
    else
      match NotBefore(Or(now, signedAt), h.expiresAt)
      case Err(code) => Err(code)
      case Ok(expired) =>
        if expired then Err(SIGNATURE_EXPIRED)
        else if Lower(signer) != Lower(h.prepared.from) then Err(AUTHORIZATION_REQUIRED)
        else Checked(schemas, h.(authorization := Signed(signer, signature, signedAt, h.expiresAt), lifecycle := COMMITTED, updatedAt := Or(now, signedAt)))
  }

  function Reject(schemas: Schemas, h: Handoff, reason: string, now: Timestamp): Result<Handoff, Code> {
    if !schemas.handoff(h) then Err(SCHEMA_INVALID)
    else
      var next := h.(lifecycle := FAILED, authorization := Rejected(reason, h.expiresAt),
                     transaction := h.transaction.(status := REJECTED_BY_WALLET, financialEffect := NoEffect, observedAt := now),
                     verification := NotRequested, updatedAt := now);
      Checked(schemas, AppendError(next, Failure(WALLET_REJECTED, true, NoEffect, FAILED, REJECTED_BY_WALLET, now)))
  }

  function FailureCode(t: Transaction): Code {
    if t.failureCode.Some? then t.failureCode.value
    else
      match t.status
      case REVERTED => TRANSACTION_REVERTED
      case REPLACED => TRANSACTION_REPLACED
      case DROPPED => TRANSACTION_DROPPED
      case _ => RPC_UNAVAILABLE
  }

  function Submit(schemas: Schemas, h: Handoff, t: Transaction): Result<Handoff, Code> {
    if !schemas.handoff(h) || !schemas.transaction(t) then Err(SCHEMA_INVALID)
    else if t.network != h.network then Err(WRONG_NETWORK)
    else if !h.authorization.Signed? then Err(AUTHORIZATION_REQUIRED)
    else
      match (if t.submittedAt.Some? then NotBefore(t.submittedAt.value, h.expiresAt) else Ok(false))
      case Err(code) => Err(code)
      case Ok(expired) =>
        if expired then Err(SIGNATURE_EXPIRED)
        else
          var next := h.(transaction := t, updatedAt := t.observedAt);
          match t.status
          case SUBMITTED => Checked(schemas, next.(lifecycle := SENT, verification := Pending(RECEIPT_PENDING)))
          case PENDING_CONFIRMATION => Checked(schemas, next.(lifecycle := SENT, verification := Pending(RECEIPT_PENDING)))
          case CONFIRMED => Checked(schemas, next.(lifecycle := SETTLING, verification := Pending(RECONCILIATION_PENDING)))
          case REJECTED_BY_WALLET => Reject(schemas, next, if t.failureReason.Some? then t.failureReason.value else WALLET_SAID_NO, t.observedAt)
          case NOT_REQUESTED => Checked(schemas, next.(lifecycle := PREPARED, verification := NotRequested))
          case WALLET_REQUIRED => Checked(schemas, next.(lifecycle := PREPARED, verification := NotRequested))
          case _ =>
            var failed := next.(lifecycle := FAILED);
            Checked(schemas, AppendError(failed,
              Failure(FailureCode(t), FailureCode(t) != TRANSACTION_REVERTED, t.financialEffect, FAILED, t.status, t.observedAt)))
  }

  /** The hash comparison ignores case. */
  predicate SameHash(a: Transaction, b: Transaction) {
    Truthy(a.txHash) && Truthy(b.txHash) && Lower(a.txHash.value) == Lower(b.txHash.value)
  }

  function RecordReceipt(schemas: Schemas, h: Handoff, r: Receipt, now: Timestamp): Result<Handoff, Code> {
    if !schemas.handoff(h) || !schemas.receipt(r) then Err(SCHEMA_INVALID)
    else if r.network != h.network || r.transaction.network != h.network then Err(WRONG_NETWORK)
    else if r.operationId != h.operationId then Err(INPUT_INVALID)
    else if h.transaction.status != CONFIRMED || !Truthy(h.transaction.txHash) then Err(STATE_STALE)
    else if !SameHash(r.transaction, h.transaction) then Err(RECEIPT_UNVERIFIED)
    else
      var next := h.(transaction := r.transaction, updatedAt := now);
      if r.status == VERIFIED_RECEIPT then
        if r.transaction.status != CONFIRMED then Err(INPUT_INVALID)
        else
          var verified := next.(verification := Verified(r.id, r.network, r.reasons, now));
          if r.outcome == RECONCILED && r.reconciliation == MATCHED
          then Checked(schemas, verified.(lifecycle := SETTLED))
          else Checked(schemas, AppendError(verified.(lifecycle := SETTLING),
                 Failure(RECEIPT_UNVERIFIED, true, ReconciliationRequired, SETTLING, r.transaction.status, now)))
      else
        var unverified := next.(verification :=
          if r.status == REJECTED_RECEIPT then RejectedReceipt(r.id, r.network, r.reasons) else Unverified(r.id, r.network, r.reasons));
        if r.transaction.status == REVERTED
        then Checked(schemas, AppendError(unverified.(lifecycle := FAILED),
               Failure(TRANSACTION_REVERTED, false, r.transaction.financialEffect, FAILED, REVERTED, now)))
        else Checked(schemas, AppendError(unverified.(lifecycle := SETTLING),
               Failure(RECEIPT_UNVERIFIED, true, if r.outcome == PENDING_OUTCOME then PendingEffect else UnknownEffect, SETTLING, r.transaction.status, now)))
  }

  datatype Report = Report(valid: bool, status: Lifecycle, financialSuccess: bool, receiptVerified: bool, codes: seq<Code>)

  function Codes(errors: seq<Failure>): seq<Code> {
    seq(|errors|, i requires 0 <= i < |errors| => errors[i].code)
  }

  /** `verifyWalletHandoff`; an unparsable clock reading makes it throw. */
  function Verify(schemas: Schemas, h: Handoff, expected: Network, now: Timestamp): Result<Report, Code> {
    if !schemas.handoff(h) then Ok(Report(false, FAILED, false, false, Codes(h.errors) + [INPUT_INVALID]))
    else if h.network != expected || h.prepared.chainId != expected.chainId then
      Ok(Report(false, FAILED, false, false, Codes(h.errors) + [WRONG_NETWORK]))
    else
      var submitted := h.transaction.status == SUBMITTED || h.transaction.status == PENDING_CONFIRMATION || h.transaction.status == CONFIRMED;
      match (if submitted then Ok(false) else IsExpired(h, now))
      case Err(code) => Err(code)
      case Ok(expired) =>
        if expired then Ok(Report(false, FAILED, false, false, Codes(h.errors) + [SIGNATURE_EXPIRED]))
        else if h.transaction.status in {REVERTED, REPLACED, DROPPED, UNKNOWN, REJECTED_BY_WALLET} then
          Ok(Report(false, FAILED, false, false, Codes(h.errors)))
        else
          Ok(Report(true, h.lifecycle, h.lifecycle == SETTLED && h.verification.Verified? && h.transaction.status == CONFIRMED,
                    h.verification.Verified?, Codes(h.errors)))
  }

  // ---------------------------------------------------------------------------------------
  // Runs
  // ---------------------------------------------------------------------------------------

  datatype Op =
    | DoExpire(now: Timestamp)
    | DoAuthorize(signer: string, signature: string, signedAt: Timestamp, clock: Option<Timestamp>)
    | DoReject(reason: string, now: Timestamp)
    | DoSubmit(transaction: Transaction)
    | DoReceipt(receipt: Receipt, now: Timestamp)

  function Do(schemas: Schemas, h: Handoff, op: Op): Result<Handoff, Code> {
    match op
    case DoExpire(now) => Expire(schemas, h, now)
    case DoAuthorize(signer, signature, signedAt, clock) => Authorize(schemas, h, signer, signature, signedAt, clock)
    case DoReject(reason, now) => Reject(schemas, h, reason, now)
    case DoSubmit(t) => Submit(schemas, h, t)
    case DoReceipt(r, now) => RecordReceipt(schemas, h, r, now)
  }

  /** A preparation followed by operations, each on the record the previous one returned; one that throws leaves
      the caller with the record it had. */
  ghost predicate IsRun(schemas: Schemas, operation: Option<Operation>, p: PrepareParams, ops: seq<Op>, hs: seq<Handoff>) {
    && |hs| == |ops| + 1
    && Prepare(schemas, operation, p) == Ok(hs[0])
    && forall k | 0 <= k < |ops| :: Advances(schemas, hs[k], ops[k], hs[k + 1])
  }

  predicate Advances(schemas: Schemas, h: Handoff, op: Op, h': Handoff) {
    match Do(schemas, h, op)
    case Ok(next) => h' == next
    case Err(_) => h' == h
  }
}
