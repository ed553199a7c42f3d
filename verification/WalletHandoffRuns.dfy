/** What every run of the wallet handoff keeps, and what financial success says about its history. */
module WalletHandoffRuns {
  import opened Text
  import opened Collections
  import opened WalletHandoff

  // ---------------------------------------------------------------------------------------
  // One step
  // ---------------------------------------------------------------------------------------

  predicate OnChain(status: TxStatus) {
    status in {SUBMITTED, PENDING_CONFIRMATION, CONFIRMED, REVERTED, REPLACED, DROPPED, UNKNOWN}
  }

  predicate Dead(h: Handoff) {
    h.authorization.Rejected? || h.authorization.Expired?
  }

  /** How the four status fields constrain each other. */
  predicate Consistent(h: Handoff) {
    && h.transaction.network == h.network
    && (Dead(h) ==> h.lifecycle == FAILED && !OnChain(h.transaction.status))
    && (OnChain(h.transaction.status) ==> h.authorization.Signed?)
    && (h.lifecycle == SETTLED ==> h.verification.Verified? && h.transaction.status == CONFIRMED && Truthy(h.transaction.txHash))
    && (h.authorization.AwaitingSignature? ==> h.lifecycle == PREPARED)
  }

  predicate SameTerms(a: Handoff, b: Handoff) {
    && a.id == b.id && a.operationId == b.operationId && a.capability == b.capability
    && a.network == b.network && a.prepared == b.prepared && a.expiresAt == b.expiresAt
    && a.walletAddress == b.walletAddress && a.createdAt == b.createdAt
  }

  ghost predicate ErrorsExtend(a: Handoff, b: Handoff) {
    a.errors <= b.errors && (NoDup(Codes(a.errors)) ==> NoDup(Codes(b.errors)))
  }

  /** What one successful step keeps. */
  ghost predicate Keeps(schemas: Schemas, h: Handoff, h': Handoff) {
    && Consistent(h') && SameTerms(h, h') && schemas.handoff(h')
    && (Dead(h) ==> Dead(h') && h'.lifecycle == FAILED)
  }

  lemma SubmitKeeps(schemas: Schemas, h: Handoff, t: Transaction)
    requires Consistent(h) && Submit(schemas, h, t).Ok?
    ensures Keeps(schemas, h, Submit(schemas, h, t).value)
  {
  }

  lemma ReceiptKeeps(schemas: Schemas, h: Handoff, r: Receipt, now: Timestamp)
    requires Consistent(h) && RecordReceipt(schemas, h, r, now).Ok?
    ensures Keeps(schemas, h, RecordReceipt(schemas, h, r, now).value)
  {
  }

  lemma StepKeeps(schemas: Schemas, h: Handoff, op: Op)
    requires Consistent(h) && Do(schemas, h, op).Ok?
    ensures Keeps(schemas, h, Do(schemas, h, op).value)
  {
    match op
    case DoSubmit(t) => SubmitKeeps(schemas, h, t);
    case DoReceipt(r, now) => ReceiptKeeps(schemas, h, r, now);
    case _ =>
  }

  lemma Grown(h: Handoff, h': Handoff)
    requires h'.errors == h.errors
          || (|h'.errors| == |h.errors| + 1 && h'.errors[..|h.errors|] == h.errors && h'.errors[|h.errors|].code !in Codes(h.errors))
    ensures ErrorsExtend(h, h')
  {
    if h'.errors != h.errors {
      var e := h'.errors[|h.errors|];
      assert Codes(h'.errors) == Codes(h.errors) + [e.code];
      NoDupAppend(Codes(h.errors), e.code);
    }
  }

  lemma SubmitErrors(schemas: Schemas, h: Handoff, t: Transaction)
    requires Submit(schemas, h, t).Ok?
    ensures ErrorsExtend(h, Submit(schemas, h, t).value)
  {
    Grown(h, Submit(schemas, h, t).value);
  }

  lemma ReceiptErrors(schemas: Schemas, h: Handoff, r: Receipt, now: Timestamp)
    requires RecordReceipt(schemas, h, r, now).Ok?
    ensures ErrorsExtend(h, RecordReceipt(schemas, h, r, now).value)
  {
    Grown(h, RecordReceipt(schemas, h, r, now).value);
  }

  lemma StepErrors(schemas: Schemas, h: Handoff, op: Op)
    requires Do(schemas, h, op).Ok?
    ensures ErrorsExtend(h, Do(schemas, h, op).value)
  {
    match op
    case DoSubmit(t) => SubmitErrors(schemas, h, t);
    case DoReceipt(r, now) => ReceiptErrors(schemas, h, r, now);
    case DoExpire(now) => Grown(h, Expire(schemas, h, now).value);
    case DoReject(reason, now) => Grown(h, Reject(schemas, h, reason, now).value);
    case DoAuthorize(_, _, _, _) =>
  }

  // ---------------------------------------------------------------------------------------
  // Whole runs
  // ---------------------------------------------------------------------------------------

  lemma {:induction false} RunKeeps(schemas: Schemas, operation: Option<Operation>, p: PrepareParams, ops: seq<Op>, hs: seq<Handoff>, k: nat)
    requires IsRun(schemas, operation, p, ops, hs) && k < |hs|
    ensures Consistent(hs[k]) && SameTerms(hs[0], hs[k]) && schemas.handoff(hs[k])
    ensures NoDup(Codes(hs[k].errors))
    ensures hs[k].network == p.network && hs[k].prepared == p.prepared && hs[k].expiresAt == p.expiresAt
    ensures hs[k].prepared.chainId == hs[k].network.chainId
  {
    if k == 0 {
    } else {
      RunKeeps(schemas, operation, p, ops, hs, k - 1);
      assert Advances(schemas, hs[k - 1], ops[k - 1], hs[k]);
      if Do(schemas, hs[k - 1], ops[k - 1]).Ok? {
        StepKeeps(schemas, hs[k - 1], ops[k - 1]);
        StepErrors(schemas, hs[k - 1], ops[k - 1]);
      }
    }
  }

  /** The terms stay, the error list only grows, and a rejected or expired authorization stays so. */
  ghost predicate Steady(a: Handoff, b: Handoff) {
    SameTerms(a, b) && a.errors <= b.errors && (Dead(a) ==> Dead(b))
  }

  lemma SteadyTwice(a: Handoff, b: Handoff, c: Handoff)
    requires Steady(a, b) && Steady(b, c)
    ensures Steady(a, c)
  {
  }

  /** One step of a run. */
  lemma RunMoves(schemas: Schemas, operation: Option<Operation>, p: PrepareParams, ops: seq<Op>, hs: seq<Handoff>, k: nat)
    requires IsRun(schemas, operation, p, ops, hs) && k < |ops|
    ensures Steady(hs[k], hs[k + 1])
  {
    RunKeeps(schemas, operation, p, ops, hs, k);
    assert Advances(schemas, hs[k], ops[k], hs[k + 1]);
    if Do(schemas, hs[k], ops[k]).Ok? {
      StepKeeps(schemas, hs[k], ops[k]);
      StepErrors(schemas, hs[k], ops[k]);
    }
  }

  ghost predicate Steadily(hs: seq<Handoff>) {
    forall k | 0 < k < |hs| :: Steady(hs[k - 1], hs[k])
  }

  lemma {:induction false} SteadyAlong(hs: seq<Handoff>, j: nat, k: nat)
    requires Steadily(hs) && j <= k < |hs|
    ensures Steady(hs[j], hs[k])
    decreases k
  {
    if j == k {
    } else {
      SteadyAlong(hs, j, k - 1);
      SteadyTwice(hs[j], hs[k - 1], hs[k]);
    }
  }

  lemma RunIsSteady(schemas: Schemas, operation: Option<Operation>, p: PrepareParams, ops: seq<Op>, hs: seq<Handoff>)
    requires IsRun(schemas, operation, p, ops, hs)
    ensures Steadily(hs)
  {
    forall k | 0 < k < |hs| ensures Steady(hs[k - 1], hs[k]) {
      RunMoves(schemas, operation, p, ops, hs, k - 1);
    }
  }

  /** In every run, from any record on: the terms never change, the transaction stays on the handoff's network, the
      error list only grows and never repeats a code, and a rejected or expired authorization is final: the handoff
      is FAILED from then on, and is never signed or settled again. */
  lemma RejectionIsFinal(schemas: Schemas, operation: Option<Operation>, p: PrepareParams, ops: seq<Op>, hs: seq<Handoff>, j: nat, k: nat)
    requires IsRun(schemas, operation, p, ops, hs) && j <= k < |hs|
    ensures SameTerms(hs[j], hs[k]) && hs[k].transaction.network == p.network
    ensures hs[j].errors <= hs[k].errors && NoDup(Codes(hs[k].errors))
    ensures Dead(hs[j]) ==> Dead(hs[k]) && hs[k].lifecycle == FAILED && !hs[k].authorization.Signed? && hs[k].lifecycle != SETTLED
  {
    RunIsSteady(schemas, operation, p, ops, hs);
    SteadyAlong(hs, j, k);
    RunKeeps(schemas, operation, p, ops, hs, k);
  }

  // ---------------------------------------------------------------------------------------
  // Financial success
  // ---------------------------------------------------------------------------------------

  /** Step k recorded a verified, reconciled and matched receipt for the transaction recorded before it. */
  ghost predicate Earns(schemas: Schemas, h: Handoff, op: Op) {
    && op.DoReceipt? && Do(schemas, h, op).Ok?
    && op.receipt.status == VERIFIED_RECEIPT && op.receipt.outcome == RECONCILED && op.receipt.reconciliation == MATCHED
    && op.receipt.transaction.status == CONFIRMED && SameHash(op.receipt.transaction, h.transaction)
  }

  /** The handoff was submitted as CONFIRMED, with a hash, on its own network, before expiry if a time was given. */
  ghost predicate Submits(schemas: Schemas, h: Handoff, op: Op) {
    && op.DoSubmit? && Do(schemas, h, op).Ok?
    && op.transaction.status == CONFIRMED && op.transaction.network == h.network
    && (op.transaction.submittedAt.Some? ==> NotBefore(op.transaction.submittedAt.value, h.expiresAt) == Ok(false))
  }

  /** The prepared sender signed, strictly before expiry by the clock reading, or by its own time if none is given. */
  ghost predicate Signs(schemas: Schemas, h: Handoff, op: Op) {
    && op.DoAuthorize? && Do(schemas, h, op).Ok? && h.authorization.AwaitingSignature?
    && Lower(op.signer) == Lower(h.prepared.from) && NotBefore(Or(op.clock, op.signedAt), h.expiresAt) == Ok(false)
  }

  lemma SettledByReceipt(schemas: Schemas, h: Handoff, op: Op)
    requires Do(schemas, h, op).Ok? && Do(schemas, h, op).value.lifecycle == SETTLED && Do(schemas, h, op).value != h
    ensures Earns(schemas, h, op)
  {
  }

  lemma EarnedIsSettled(schemas: Schemas, h: Handoff, op: Op)
    requires Earns(schemas, h, op)
    ensures var h' := Do(schemas, h, op).value;
      h'.lifecycle == SETTLED && h'.verification.Verified? && h'.transaction == op.receipt.transaction
  {
  }

  /** The last step that changed anything. */
  ghost predicate LastEffective(hs: seq<Handoff>, r: nat) {
    r + 1 < |hs| && forall k | r < k < |hs| :: hs[k] == hs[|hs| - 1]
  }

  lemma {:induction false} FindEarning(schemas: Schemas, operation: Option<Operation>, p: PrepareParams, ops: seq<Op>, hs: seq<Handoff>, n: nat) returns (r: nat)
    requires IsRun(schemas, operation, p, ops, hs) && n < |hs| && hs[n].lifecycle == SETTLED
    ensures r < n && Earns(schemas, hs[r], ops[r])
    ensures forall k | r < k <= n :: hs[k] == hs[n]
    decreases n
  {
    assert hs[0].lifecycle == PREPARED;
    assert Advances(schemas, hs[n - 1], ops[n - 1], hs[n]);
    if hs[n - 1] == hs[n] {
      r := FindEarning(schemas, operation, p, ops, hs, n - 1);
    } else {
      r := n - 1;
      SettledByReceipt(schemas, hs[n - 1], ops[n - 1]);
    }
  }

  /** Step r earned the success, and nothing has changed the record since. */
  ghost predicate EarnedLast(schemas: Schemas, ops: seq<Op>, hs: seq<Handoff>, r: nat) {
    r < |ops| && |hs| == |ops| + 1 && Earns(schemas, hs[r], ops[r]) && forall k | r < k <= |ops| :: hs[k] == hs[|ops|]
  }

  lemma ReportsSettled(schemas: Schemas, h: Handoff, expected: Network, now: Timestamp)
    requires Consistent(h) && schemas.handoff(h) && h.prepared.chainId == h.network.chainId
    ensures var report := Verify(schemas, h, expected, now);
      (report.Ok? && report.value.financialSuccess) <==> expected == h.network && h.lifecycle == SETTLED
  {
  }

  lemma EarnedLastSettles(schemas: Schemas, operation: Option<Operation>, p: PrepareParams, ops: seq<Op>, hs: seq<Handoff>, r: nat)
    requires IsRun(schemas, operation, p, ops, hs) && EarnedLast(schemas, ops, hs, r)
    ensures hs[|ops|].lifecycle == SETTLED
  {
    assert Advances(schemas, hs[r], ops[r], hs[r + 1]);
    EarnedIsSettled(schemas, hs[r], ops[r]);
  }

  /** Financial success is reported for a run exactly when the network asked about is the handoff's, some step
      recorded a verified, reconciled, matched receipt for the confirmed transaction of the record, and nothing has
      changed the record since. */
  lemma SuccessIffEarned(schemas: Schemas, operation: Option<Operation>, p: PrepareParams, ops: seq<Op>, hs: seq<Handoff>,
                         expected: Network, now: Timestamp)
    requires IsRun(schemas, operation, p, ops, hs)
    ensures var report := Verify(schemas, hs[|ops|], expected, now);
      (report.Ok? && report.value.financialSuccess) <==> expected == p.network && exists r :: EarnedLast(schemas, ops, hs, r)
  {
    var n := |ops|;
    RunKeeps(schemas, operation, p, ops, hs, n);
    ReportsSettled(schemas, hs[n], expected, now);
    if hs[n].lifecycle == SETTLED {
      var r := FindEarning(schemas, operation, p, ops, hs, n);
      assert EarnedLast(schemas, ops, hs, r);
    }
    if r :| EarnedLast(schemas, ops, hs, r) {
      EarnedLastSettles(schemas, operation, p, ops, hs, r);
    }
  }

  /** What the record says about a signature is what the authorization that put it there said. */
  lemma {:induction false} FindSignature(schemas: Schemas, operation: Option<Operation>, p: PrepareParams, ops: seq<Op>, hs: seq<Handoff>, n: nat) returns (a: nat)
    requires IsRun(schemas, operation, p, ops, hs) && n < |hs| && hs[n].authorization.Signed?
    ensures a < n && Signs(schemas, hs[a], ops[a])
    ensures hs[n].authorization == Signed(ops[a].signer, ops[a].signature, ops[a].signedAt, hs[a].expiresAt)
    decreases n
  {
    assert hs[0].authorization.AwaitingSignature?;
    assert Advances(schemas, hs[n - 1], ops[n - 1], hs[n]);
    if hs[n - 1].authorization.Signed? {
      a := FindSignature(schemas, operation, p, ops, hs, n - 1);
      if Do(schemas, hs[n - 1], ops[n - 1]).Ok? {
        SignatureStays(schemas, hs[n - 1], ops[n - 1]);
      }
    } else {
      a := n - 1;
      SignedByAuthorize(schemas, hs[a], ops[a]);
    }
  }

  lemma SignatureStays(schemas: Schemas, h: Handoff, op: Op)
    requires h.authorization.Signed? && Do(schemas, h, op).Ok? && Do(schemas, h, op).value.authorization.Signed?
    ensures Do(schemas, h, op).value.authorization == h.authorization
  {
  }

  lemma SignedByAuthorize(schemas: Schemas, h: Handoff, op: Op)
    requires Do(schemas, h, op).Ok? && Do(schemas, h, op).value.authorization.Signed? && !h.authorization.Signed?
    ensures Signs(schemas, h, op)
    ensures Do(schemas, h, op).value.authorization == Signed(op.signer, op.signature, op.signedAt, h.expiresAt)
  {
  }

  /** Without a clock reading the recorded signing time is strictly before expiry. */
  lemma SignedInTime(schemas: Schemas, operation: Option<Operation>, p: PrepareParams, ops: seq<Op>, hs: seq<Handoff>, n: nat)
    requires IsRun(schemas, operation, p, ops, hs) && n < |hs| && hs[n].authorization.Signed?
    requires forall k | 0 <= k < n && ops[k].DoAuthorize? :: ops[k].clock.None?
    ensures NotBefore(hs[n].authorization.signedAt, p.expiresAt) == Ok(false)
  {
    var a := FindSignature(schemas, operation, p, ops, hs, n);
    RunKeeps(schemas, operation, p, ops, hs, a);
  }

  /** The step that confirms either submits the transaction or records a receipt for the same one. */
  lemma ConfirmedBy(schemas: Schemas, h: Handoff, op: Op)
    requires Do(schemas, h, op).Ok? && Do(schemas, h, op).value.transaction.status == CONFIRMED
    ensures var t := Do(schemas, h, op).value.transaction;
      || (Submits(schemas, h, op) && t == op.transaction)
      || (!op.DoSubmit? && h.transaction.status == CONFIRMED && (t == h.transaction || SameHash(t, h.transaction)))
  {
  }

  lemma {:induction false} FindSubmission(schemas: Schemas, operation: Option<Operation>, p: PrepareParams, ops: seq<Op>, hs: seq<Handoff>, n: nat) returns (s: nat)
    requires IsRun(schemas, operation, p, ops, hs) && n < |hs| && hs[n].transaction.status == CONFIRMED
    ensures s < n && Submits(schemas, hs[s], ops[s])
    ensures hs[n].transaction == ops[s].transaction || SameHash(hs[n].transaction, ops[s].transaction)
    ensures forall k | s < k < n && ops[k].DoSubmit? :: Do(schemas, hs[k], ops[k]).Err?
    decreases n
  {
    assert hs[0].transaction.status == WALLET_REQUIRED;
    assert Advances(schemas, hs[n - 1], ops[n - 1], hs[n]);
    if Do(schemas, hs[n - 1], ops[n - 1]).Err? {
      s := FindSubmission(schemas, operation, p, ops, hs, n - 1);
    } else {
      ConfirmedBy(schemas, hs[n - 1], ops[n - 1]);
      if Submits(schemas, hs[n - 1], ops[n - 1]) && hs[n].transaction == ops[n - 1].transaction {
        s := n - 1;
      } else {
        s := FindSubmission(schemas, operation, p, ops, hs, n - 1);
      }
    }
  }

  lemma SettledNotBySubmit(schemas: Schemas, h: Handoff, op: Op)
    requires op.DoSubmit? && Do(schemas, h, op).Ok?
    ensures Do(schemas, h, op).value.lifecycle != SETTLED
  {
  }

  /** The history behind financial success, whatever the schema validators accept: the prepared sender signed strictly
      before expiry; later the transaction was submitted as CONFIRMED with a hash on the handoff's network, and no
      later submission was recorded; later still the last step that changed the record recorded a verified,
      reconciled, matched receipt for that same hash. */
  lemma SuccessHistory(schemas: Schemas, operation: Option<Operation>, p: PrepareParams, ops: seq<Op>, hs: seq<Handoff>,
                       expected: Network, now: Timestamp)
    returns (a: nat, s: nat, r: nat)
    requires IsRun(schemas, operation, p, ops, hs)
    requires Verify(schemas, hs[|ops|], expected, now).Ok? && Verify(schemas, hs[|ops|], expected, now).value.financialSuccess
    ensures a < s < r < |ops|
    ensures Signs(schemas, hs[a], ops[a]) && hs[a].prepared == p.prepared && hs[a].expiresAt == p.expiresAt
    ensures Submits(schemas, hs[s], ops[s]) && Truthy(ops[s].transaction.txHash) && ops[s].transaction.network == p.network
    ensures forall k | s < k < |ops| && ops[k].DoSubmit? :: Do(schemas, hs[k], ops[k]).Err?
    ensures Earns(schemas, hs[r], ops[r]) && SameHash(ops[r].receipt.transaction, ops[s].transaction)
    ensures LastEffective(hs, r)
  {
    var n := |ops|;
    r := FindEarning(schemas, operation, p, ops, hs, n);
    s := FindSubmission(schemas, operation, p, ops, hs, r);
    a := FindSignature(schemas, operation, p, ops, hs, s);
    RunKeeps(schemas, operation, p, ops, hs, a);
    RunKeeps(schemas, operation, p, ops, hs, s);
    forall k | s < k < n && ops[k].DoSubmit? ensures Do(schemas, hs[k], ops[k]).Err? {
      assert Advances(schemas, hs[k], ops[k], hs[k + 1]);
      if k >= r && Do(schemas, hs[k], ops[k]).Ok? {
        SettledNotBySubmit(schemas, hs[k], ops[k]);
      }
    }
  }

  // ---------------------------------------------------------------------------------------
  // Signing and expiring
  // ---------------------------------------------------------------------------------------

  lemma StaysAwaiting(schemas: Schemas, h: Handoff, op: Op)
    requires Consistent(h) && h.transaction.status == WALLET_REQUIRED && h.authorization.AwaitingSignature?
    requires Do(schemas, h, op).Ok? && Do(schemas, h, op).value.authorization.AwaitingSignature?
    ensures Do(schemas, h, op).value == h
  {
  }

  lemma NeverAwaitsAgain(schemas: Schemas, h: Handoff, op: Op)
    requires !h.authorization.AwaitingSignature? && Do(schemas, h, op).Ok?
    ensures !Do(schemas, h, op).value.authorization.AwaitingSignature?
  {
  }

  /** A handoff that still awaits its signature is exactly as it was prepared: no operation has touched it. */
  lemma {:induction false} AwaitingIsUntouched(schemas: Schemas, operation: Option<Operation>, p: PrepareParams, ops: seq<Op>, hs: seq<Handoff>, k: nat)
    requires IsRun(schemas, operation, p, ops, hs) && k < |hs| && hs[k].authorization.AwaitingSignature?
    ensures hs[k] == hs[0] && hs[k].transaction.status == WALLET_REQUIRED
  {
    if k == 0 {
    } else {
      assert Advances(schemas, hs[k - 1], ops[k - 1], hs[k]);
      if Do(schemas, hs[k - 1], ops[k - 1]).Ok? && !hs[k - 1].authorization.AwaitingSignature? {
        NeverAwaitsAgain(schemas, hs[k - 1], ops[k - 1]);
      } else {
        AwaitingIsUntouched(schemas, operation, p, ops, hs, k - 1);
        if Do(schemas, hs[k - 1], ops[k - 1]).Ok? {
          RunKeeps(schemas, operation, p, ops, hs, k - 1);
          StaysAwaiting(schemas, hs[k - 1], ops[k - 1]);
        }
      }
    }
  }

  /** The record of an authorization by `signer`. */
  function SignedBy(h: Handoff, signer: string, signature: string, signedAt: Timestamp, now: Timestamp): Handoff {
    h.(authorization := Signed(signer, signature, signedAt, h.expiresAt), lifecycle := COMMITTED, updatedAt := now)
  }

  /** Wherever a run still awaits the signature, at each clock reading exactly one of signing and expiring can act:
      before expiry the prepared sender's signature is recorded, unless the schema refuses that very record, and
      expiring changes nothing; from expiry on signing is refused, and expiring kills the handoff unless the schema
      refuses; at a reading that does not parse both throw. */
  lemma SignOrExpire(schemas: Schemas, operation: Option<Operation>, p: PrepareParams, ops: seq<Op>, hs: seq<Handoff>, k: nat,
                     signer: string, signature: string, signedAt: Timestamp, clock: Option<Timestamp>)
    requires IsRun(schemas, operation, p, ops, hs) && k < |hs| && hs[k].authorization.AwaitingSignature?
    requires Lower(signer) == Lower(p.prepared.from)
    ensures var h, now := hs[k], Or(clock, signedAt);
      var signed, expired := Authorize(schemas, h, signer, signature, signedAt, clock), Expire(schemas, h, now);
      match NotBefore(now, p.expiresAt)
      case Ok(false) =>
        && expired == Ok(h)
        && signed == (if schemas.handoff(SignedBy(h, signer, signature, signedAt, now)) then Ok(SignedBy(h, signer, signature, signedAt, now))
                      else Err(SCHEMA_INVALID))
      case Ok(true) =>
        && signed == Err(SIGNATURE_EXPIRED)
        && (expired == Err(SCHEMA_INVALID) || (expired.Ok? && Dead(expired.value) && expired.value.lifecycle == FAILED))
      case Err(code) => signed == Err(code) && expired == Err(code)
  {
    AwaitingIsUntouched(schemas, operation, p, ops, hs, k);
    RunKeeps(schemas, operation, p, ops, hs, k);
  }

  /** With a clock reading before expiry, a signature that claims to be from after expiry is recorded like any other. */
  lemma LateSignatureRecorded(schemas: Schemas, operation: Option<Operation>, p: PrepareParams, ops: seq<Op>, hs: seq<Handoff>, k: nat,
                              signature: string, signedAt: Timestamp, now: Timestamp)
    requires IsRun(schemas, operation, p, ops, hs) && k < |hs| && hs[k].authorization.AwaitingSignature?
    requires NotBefore(now, p.expiresAt) == Ok(false) && NotBefore(signedAt, p.expiresAt) == Ok(true)
    requires schemas.handoff(SignedBy(hs[k], p.prepared.from, signature, signedAt, now))
    ensures var r := Authorize(schemas, hs[k], p.prepared.from, signature, signedAt, Some(now));
      r.Ok? && r.value.authorization.Signed? && NotBefore(r.value.authorization.signedAt, p.expiresAt) == Ok(true)
    ensures Authorize(schemas, hs[k], p.prepared.from, signature, signedAt, None) == Err(SIGNATURE_EXPIRED)
  {
    SignOrExpire(schemas, operation, p, ops, hs, k, p.prepared.from, signature, signedAt, Some(now));
    SignOrExpire(schemas, operation, p, ops, hs, k, p.prepared.from, signature, signedAt, None);
  }
}
