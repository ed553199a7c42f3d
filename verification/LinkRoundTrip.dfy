/** Compact links: reading back what was written, self-delimitation, and telling tokens apart. */
module LinkRoundTrip {
  import opened Text
  import opened Base64Url
  import opened Wire
  import opened LinkCodec
  import opened AddressText

  // ---------------------------------------------------------------------------------------
  // Each group of fields reads back as its normal form
  // ---------------------------------------------------------------------------------------

  lemma Assoc3(a: Bytes, b: Bytes, rest: Bytes)
    ensures (a + b) + rest == a + (b + rest)
  {
  }

  lemma Assoc4(a: Bytes, b: Bytes, c: Bytes, rest: Bytes)
    ensures (a + (b + c)) + rest == a + (b + (c + rest))
  {
  }

  lemma Assoc5(a: Bytes, b: Bytes, c: Bytes, d: Bytes, rest: Bytes)
    ensures (a + (b + (c + d))) + rest == a + (b + (c + (d + rest)))
  {
  }

  lemma Assoc6(a: Bytes, b: Bytes, c: Bytes, d: Bytes, e: Bytes, rest: Bytes)
    ensures (a + (b + (c + (d + e)))) + rest == a + (b + (c + (d + (e + rest))))
  {
    Assoc5(b, c, d, e, rest);
    Assoc3(a, b + (c + (d + e)), rest);
  }

  lemma AddressReads(rules: AddressRules, text: string, rest: Bytes)
    requires Address(rules, text).Ok?
    ensures ReadAddress(rules, Address(rules, text).value + rest) == Ok((Checksummed(rules, text), rest))
  {
    AddressRoundTrip(rules, text, rest);
  }

  lemma HashReads(text: string, rest: Bytes)
    requires FixedHex(text, 32).Ok?
    ensures ReadBytes32(FixedHex(text, 32).value + rest) == Ok((LowerHex(text, 32), rest))
  {
    Bytes32RoundTrip(text, rest);
  }

  function NormalCommon(rules: AddressRules, a: Artifact): Common {
    Common(a.chainId, Checksummed(rules, a.vault), Checksummed(rules, a.token), LowerHex(a.metadataHash, 32))
  }

  lemma CommonReads(rules: AddressRules, a: Artifact, rest: Bytes)
    requires WriteCommon(rules, a).Ok?
    ensures ReadCommon(rules, WriteCommon(rules, a).value + rest) == Ok((NormalCommon(rules, a), rest))
  {
    var c, v := Uint(a.chainId, 4).value, Address(rules, a.vault).value;
    var t, h := Address(rules, a.token).value, FixedHex(a.metadataHash, 32).value;
    Assoc5(c, v, t, h, rest);
    UintRoundTrip(a.chainId, 4, v + (t + (h + rest)));
    AddressReads(rules, a.vault, t + (h + rest));
    AddressReads(rules, a.token, h + rest);
    HashReads(a.metadataHash, rest);
  }

  function NormalTerms(rules: AddressRules, p: Payload): Terms
    requires p.Request?
  {
    Terms(Checksummed(rules, p.merchant), Checksummed(rules, p.recipient), p.amount, p.velocity, p.lifespan)
  }

  lemma TermsRead(rules: AddressRules, p: Payload, rest: Bytes)
    requires p.Request? && WriteTerms(rules, p).Ok?
    ensures ReadTerms(rules, WriteTerms(rules, p).value + rest) == Ok((NormalTerms(rules, p), rest))
  {
    var m, r := Address(rules, p.merchant).value, Address(rules, p.recipient).value;
    var a, v, l := Str(p.amount).value, Str(p.velocity).value, Uint(p.lifespan, 8).value;
    Assoc6(m, r, a, v, l, rest);
    AddressReads(rules, p.merchant, r + (a + (v + (l + rest))));
    AddressReads(rules, p.recipient, a + (v + (l + rest)));
    StrRoundTrip(p.amount, v + (l + rest));
    StrRoundTrip(p.velocity, l + rest);
    UintRoundTrip(p.lifespan, 8, rest);
  }

  function NormalExtras(p: Payload): Extras
    requires p.Request?
  {
    Extras(NonEmpty(p.metadataRef), if Present(p.descriptionHash) then Some(LowerHex(p.descriptionHash.value, 32)) else None,
           p.expiresAt, NonEmpty(p.workflowId))
  }

  lemma OptionalTextReads(o: Option<Bytes>, rest: Bytes)
    requires Tagged(Present(o), Str(ValueOr(o))).Ok?
    ensures ReadOptionalStr(Tagged(Present(o), Str(ValueOr(o))).value + rest) == Ok((NonEmpty(o), rest))
  {
    OptionalStrRoundTrip(Present(o), ValueOr(o), rest);
  }

  lemma OptionalHashReads(o: Option<string>, rest: Bytes)
    requires Tagged(Present(o), FixedHex(ValueOr(o), 32)).Ok?
    ensures ReadOptionalBytes32(Tagged(Present(o), FixedHex(ValueOr(o), 32)).value + rest)
         == Ok((if Present(o) then Some(LowerHex(o.value, 32)) else None, rest))
  {
    OptionalBytes32RoundTrip(Present(o), ValueOr(o), rest);
  }

  /** Four readers in a row, whatever they read. */
  lemma ReadExtrasBy(bs: Bytes, m: Option<Bytes>, b1: Bytes, d: Option<string>, b2: Bytes, e: Option<int>, b3: Bytes, w: Option<Bytes>, b4: Bytes)
    requires ReadOptionalStr(bs) == Ok((m, b1)) && ReadOptionalBytes32(b1) == Ok((d, b2))
    requires ReadOptionalUint64(b2) == Ok((e, b3)) && ReadOptionalStr(b3) == Ok((w, b4))
    ensures ReadExtras(bs) == Ok((Extras(m, d, e, w), b4))
  {
  }

  lemma ExtrasRead(p: Payload, rest: Bytes)
    requires p.Request? && WriteExtras(p).Ok?
    ensures ReadExtras(WriteExtras(p).value + rest) == Ok((NormalExtras(p), rest))
  {
    var m := Tagged(Present(p.metadataRef), Str(ValueOr(p.metadataRef))).value;
    var d := Tagged(Present(p.descriptionHash), FixedHex(ValueOr(p.descriptionHash), 32)).value;
    var expiry := if p.expiresAt.Some? then p.expiresAt.value else 0;
    var e := Tagged(p.expiresAt.Some?, Uint(expiry, 8)).value;
    var w := Tagged(Present(p.workflowId), Str(ValueOr(p.workflowId))).value;
    Assoc5(m, d, e, w, rest);
    var b3 := w + rest;
    var b2 := e + b3;
    var b1 := d + b2;
    OptionalTextReads(p.metadataRef, b1);
    OptionalHashReads(p.descriptionHash, b2);
    OptionalUint64RoundTrip(p.expiresAt.Some?, expiry, b3);
    OptionalTextReads(p.workflowId, rest);
    ReadExtrasBy(m + b1, NonEmpty(p.metadataRef), b1, NormalExtras(p).descriptionHash, b2, p.expiresAt, b3, NonEmpty(p.workflowId), rest);
  }

  lemma ClaimReads(a: Artifact, rest: Bytes)
    requires a.payload.Envelope? && WriteClaim(a).Ok?
    ensures ReadClaim(WriteClaim(a).value + rest) == Ok(((KindMode(a) as nat, a.payload.envelopeToken, NonEmpty(a.payload.claimHint)), rest))
  {
    var e := Str(a.payload.envelopeToken).value;
    var h := Tagged(Present(a.payload.claimHint), Str(ValueOr(a.payload.claimHint))).value;
    Assoc4([KindMode(a)], e, h, rest);
    TagReads(KindMode(a), e + (h + rest));
    StrRoundTrip(a.payload.envelopeToken, h + rest);
    OptionalTextReads(a.payload.claimHint, rest);
  }

  lemma ReadFlowBy(rules: AddressRules, bs: Bytes, c: Common, b1: Bytes, t: Terms, b2: Bytes, x: Extras, b3: Bytes)
    requires ReadCommon(rules, bs) == Ok((c, b1)) && ReadTerms(rules, b1) == Ok((t, b2)) && ReadExtras(b2) == Ok((x, b3))
    ensures ReadArtifact(rules, Flow, bs) == Ok((FlowArtifact(c, t, x), b3))
  {
  }

  lemma ReadClaimBy(rules: AddressRules, bs: Bytes, c: Common, b1: Bytes, mode: nat, envelope: Bytes, hint: Option<Bytes>, b2: Bytes)
    requires ReadCommon(rules, bs) == Ok((c, b1)) && ReadClaim(b1) == Ok(((mode, envelope, hint), b2))
    requires ClaimArtifact(c, mode, envelope, hint).Ok?
    ensures ReadArtifact(rules, Claim, bs) == Ok((ClaimArtifact(c, mode, envelope, hint).value, b2))
  {
  }

  lemma FlowReads(rules: AddressRules, a: Artifact, rest: Bytes)
    requires WritePayload(rules, a).Ok? && a.payload.Request?
    ensures ReadArtifact(rules, Flow, WritePayload(rules, a).value + rest)
         == Ok((FlowArtifact(NormalCommon(rules, a), NormalTerms(rules, a.payload), NormalExtras(a.payload)), rest))
  {
    var common := WriteCommon(rules, a).value;
    var terms, extras := WriteTerms(rules, a.payload).value, WriteExtras(a.payload).value;
    Assoc4(common, terms, extras, rest);
    var b2 := extras + rest;
    var b1 := terms + b2;
    CommonReads(rules, a, b1);
    TermsRead(rules, a.payload, b2);
    ExtrasRead(a.payload, rest);
    ReadFlowBy(rules, common + b1, NormalCommon(rules, a), b1, NormalTerms(rules, a.payload), b2, NormalExtras(a.payload), rest);
  }

  lemma EnvelopeParts(rules: AddressRules, a: Artifact)
    requires WritePayload(rules, a).Ok? && a.payload.Envelope?
    ensures WriteCommon(rules, a).Ok? && WriteClaim(a).Ok?
    ensures WritePayload(rules, a).value == WriteCommon(rules, a).value + WriteClaim(a).value
    ensures ClaimArtifact(NormalCommon(rules, a), KindMode(a), a.payload.envelopeToken, NonEmpty(a.payload.claimHint)).Ok?
  {
  }

  lemma EnvelopeReads(rules: AddressRules, a: Artifact, rest: Bytes)
    requires WritePayload(rules, a).Ok? && a.payload.Envelope?
    ensures ReadArtifact(rules, Claim, WritePayload(rules, a).value + rest)
         == Ok((ClaimArtifact(NormalCommon(rules, a), KindMode(a), a.payload.envelopeToken, NonEmpty(a.payload.claimHint)).value, rest))
  {
    EnvelopeParts(rules, a);
    var common, claim := WriteCommon(rules, a).value, WriteClaim(a).value;
    Assoc3(common, claim, rest);
    var b1 := claim + rest;
    CommonReads(rules, a, b1);
    ClaimReads(a, rest);
    ReadClaimBy(rules, common + b1, NormalCommon(rules, a), b1, KindMode(a), a.payload.envelopeToken, NonEmpty(a.payload.claimHint), rest);
  }

  /** What the two profiles rebuild is the normal form. */
  lemma NormalParts(rules: AddressRules, a: Artifact)
    requires Invalid(rules, a) == None
    ensures a.payload.Request? ==>
      && SelectProfile(a) == Flow
      && Normal(rules, a) == FlowArtifact(NormalCommon(rules, a), NormalTerms(rules, a.payload), NormalExtras(a.payload))
    ensures a.payload.Envelope? ==>
      && SelectProfile(a) == Claim
      && ClaimArtifact(NormalCommon(rules, a), KindMode(a), a.payload.envelopeToken, NonEmpty(a.payload.claimHint)) == Ok(Normal(rules, a))
  {
  }

  /** A reader standing before a written payload takes exactly that payload and returns its normal form. */
  lemma ArtifactReads(rules: AddressRules, a: Artifact, rest: Bytes)
    requires WritePayload(rules, a).Ok?
    ensures ReadArtifact(rules, SelectProfile(a), WritePayload(rules, a).value + rest) == Ok((Normal(rules, a), rest))
  {
    NormalParts(rules, a);
    if a.payload.Request? {
      FlowReads(rules, a, rest);
    } else {
      EnvelopeReads(rules, a, rest);
    }
  }

  // ---------------------------------------------------------------------------------------
  // Self-delimitation
  // ---------------------------------------------------------------------------------------

  lemma CommonExtends(rules: AddressRules, bs: Bytes, more: Bytes)
    requires ReadCommon(rules, bs).Ok?
    ensures ReadCommon(rules, bs + more) == Ok((ReadCommon(rules, bs).value.0, ReadCommon(rules, bs).value.1 + more))
  {
    ReadUintExtends(bs, 4, more);
    var (_, b1) := ReadUint(bs, 4).value;
    ReadAddressExtends(rules, b1, more);
    var (_, b2) := ReadAddress(rules, b1).value;
    ReadAddressExtends(rules, b2, more);
    var (_, b3) := ReadAddress(rules, b2).value;
    ReadBytes32Extends(b3, more);
  }

  lemma TermsExtend(rules: AddressRules, bs: Bytes, more: Bytes)
    requires ReadTerms(rules, bs).Ok?
    ensures ReadTerms(rules, bs + more) == Ok((ReadTerms(rules, bs).value.0, ReadTerms(rules, bs).value.1 + more))
  {
    ReadAddressExtends(rules, bs, more);
    var (_, b1) := ReadAddress(rules, bs).value;
    ReadAddressExtends(rules, b1, more);
    var (_, b2) := ReadAddress(rules, b1).value;
    ReadStrExtends(b2, more);
    var (_, b3) := ReadStr(b2).value;
    ReadStrExtends(b3, more);
    var (_, b4) := ReadStr(b3).value;
    ReadUintExtends(b4, 8, more);
  }

  lemma ExtrasExtend(bs: Bytes, more: Bytes)
    requires ReadExtras(bs).Ok?
    ensures ReadExtras(bs + more) == Ok((ReadExtras(bs).value.0, ReadExtras(bs).value.1 + more))
  {
    ReadOptionalStrExtends(bs, more);
    var (_, b1) := ReadOptionalStr(bs).value;
    ReadOptionalBytes32Extends(b1, more);
    var (_, b2) := ReadOptionalBytes32(b1).value;
    ReadOptionalUint64Extends(b2, more);
    var (_, b3) := ReadOptionalUint64(b2).value;
    ReadOptionalStrExtends(b3, more);
  }

  lemma ClaimExtends(bs: Bytes, more: Bytes)
    requires ReadClaim(bs).Ok?
    ensures ReadClaim(bs + more) == Ok((ReadClaim(bs).value.0, ReadClaim(bs).value.1 + more))
  {
    ReadUintExtends(bs, 1, more);
    var (_, b1) := ReadUint(bs, 1).value;
    ReadStrExtends(b1, more);
    var (_, b2) := ReadStr(b1).value;
    ReadOptionalStrExtends(b2, more);
  }

  lemma ArtifactExtends(rules: AddressRules, profile: Profile, bs: Bytes, more: Bytes)
    requires ReadArtifact(rules, profile, bs).Ok?
    ensures ReadArtifact(rules, profile, bs + more)
         == Ok((ReadArtifact(rules, profile, bs).value.0, ReadArtifact(rules, profile, bs).value.1 + more))
  {
    CommonExtends(rules, bs, more);
    var (_, b1) := ReadCommon(rules, bs).value;
    match profile
    case Flow =>
      TermsExtend(rules, b1, more);
      var (_, b2) := ReadTerms(rules, b1).value;
      ExtrasExtend(b2, more);
    case Claim =>
      ClaimExtends(b1, more);
  }

  lemma PrefixRejected(rules: AddressRules, a: Artifact, k: nat)
    requires WritePayload(rules, a).Ok? && k < |WritePayload(rules, a).value|
    ensures ReadArtifact(rules, SelectProfile(a), WritePayload(rules, a).value[..k]).Err?
  {
    ArtifactReads(rules, a, []);
    assert WritePayload(rules, a).value + [] == WritePayload(rules, a).value;
    NothingLeftBehind(rules, SelectProfile(a), WritePayload(rules, a).value, k);
  }

  /** Bytes that are read to their end cannot be read from a strict prefix. */
  lemma NothingLeftBehind(rules: AddressRules, profile: Profile, bytes: Bytes, k: nat)
    requires ReadArtifact(rules, profile, bytes).Ok? && ReadArtifact(rules, profile, bytes).value.1 == [] && k < |bytes|
    ensures ReadArtifact(rules, profile, bytes[..k]).Err?
  {
    assert bytes[..k] + bytes[k..] == bytes;
    if ReadArtifact(rules, profile, bytes[..k]).Ok? {
      ArtifactExtends(rules, profile, bytes[..k], bytes[k..]);
    }
  }

  /** Every strict prefix of a written payload is rejected, and so is every extension of it. */
  lemma SelfDelimiting(rules: AddressRules, a: Artifact, k: nat, more: Bytes)
    requires WritePayload(rules, a).Ok? && k < |WritePayload(rules, a).value| && more != []
    ensures ReadPayload(rules, SelectProfile(a), WritePayload(rules, a).value[..k]).Err?
    ensures ReadPayload(rules, SelectProfile(a), WritePayload(rules, a).value + more) == Err(TRAILING_BYTES)
  {
    ArtifactReads(rules, a, more);
    PrefixRejected(rules, a, k);
  }

  // ---------------------------------------------------------------------------------------
  // The round trip
  // ---------------------------------------------------------------------------------------

  lemma ZeroDigit(bytes: Bytes, upper: int -> bool, i: nat)
    requires i < 2 * |bytes| && bytes[i / 2] == 0
    ensures HexText(bytes, upper)[2 + i] == '0'
  {
    assert Nibble(bytes, i) == 0;
  }

  lemma ZeroAddressIsZero(rules: AddressRules)
    ensures ChecksumAddress(rules, ZEROS) == ZERO_ADDRESS
  {
    var s := ChecksumAddress(rules, ZEROS);
    forall i | 0 <= i < 40 ensures s[2..][i] == BARE_ZERO[i] {
      ZeroDigit(ZEROS, i => rules.upper(ZEROS, i), i);
      assert s[2..][i] == s[2 + i];
    }
    assert s[2..] == BARE_ZERO;
    assert s == s[..2] + s[2..];
  }

  lemma BareZeroIsZero()
    ensures HexToBytes(BARE_ZERO, 20) == Some(ZEROS)
  {
    assert StripPrefix(BARE_ZERO) == BARE_ZERO by {
      assert BARE_ZERO[1] == '0';
    }
    forall k | 0 <= k < 20 ensures ByteAt(BARE_ZERO, k) == 0 {
      assert BARE_ZERO[2 * k] == '0' && BARE_ZERO[2 * k + 1] == '0';
    }
    assert HexToBytes(BARE_ZERO, 20).value == ZEROS;
  }

  /** An accepted, non-zero address text stays one in normal form unless it hides the zero address. */
  lemma NormalZero(rules: AddressRules, text: string)
    requires IsNonZeroAddress(rules, text) && FitsAddress(rules, text)
    ensures IsNonZeroAddress(rules, Checksummed(rules, text)) <==> !HidesZero(rules, text)
  {
    AddressBytes(rules, text);
    ZeroAddressIsZero(rules);
    ChecksumAddressReads(rules, ZEROS);
  }

  lemma LowerHexIsHash(text: string)
    requires HexToBytes(text, 32).Some?
    ensures IsHexString32(LowerHex(text, 32))
  {
    var bytes := HexToBytes(text, 32).value;
    HexTextReads(bytes, i => false);
    assert BytesToHex(bytes)[..2] == "0x";
  }

  /** The addresses that the checks look at. */
  predicate AddressesPass(rules: AddressRules, a: Artifact) {
    && IsNonZeroAddress(rules, a.vault) && IsNonZeroAddress(rules, a.token)
    && (a.payload.Request? ==> IsNonZeroAddress(rules, a.payload.merchant) && IsNonZeroAddress(rules, a.payload.recipient))
  }

  /** The checks that are not about addresses. */
  predicate OthersPass(a: Artifact) {
    && IsHexString32(a.metadataHash) && a.chainId > 0
    && (a.payload.Request? ==> a.kind == RailsFlow)
    && (a.payload.Envelope? ==> (a.kind == RailsFlow <==> a.payload.mode == FlowMode) && a.payload.envelopeToken != [])
  }

  /** What the checks accept, in whatever order they run. */
  lemma ValidIff(rules: AddressRules, a: Artifact)
    ensures Invalid(rules, a) == None <==> AddressesPass(rules, a) && OthersPass(a)
  {
  }

  /** Every address field stands for twenty bytes. */
  predicate AddressesFit(rules: AddressRules, a: Artifact) {
    && FitsAddress(rules, a.vault) && FitsAddress(rules, a.token)
    && (a.payload.Request? ==> FitsAddress(rules, a.payload.merchant) && FitsAddress(rules, a.payload.recipient))
  }

  /** The checks, in the order in which they are made: which error each reports, and whether it fails. */
  function Checks(rules: AddressRules, a: Artifact): seq<(Error, bool)> {
    [(INVALID_VAULT, !IsNonZeroAddress(rules, a.vault)), (INVALID_TOKEN, !IsNonZeroAddress(rules, a.token)),
     (INVALID_METADATA_HASH, !IsHexString32(a.metadataHash)), (INVALID_CHAIN_ID, a.chainId <= 0)]
    + match a.payload
      case Request(merchant, recipient, _, _, _, _, _, _, _) =>
        [(MODE_MISMATCH, a.kind == RailsCard), (INVALID_MERCHANT, !IsNonZeroAddress(rules, merchant)),
         (INVALID_RECIPIENT, !IsNonZeroAddress(rules, recipient))]
      case Envelope(mode, envelopeToken, _) =>
        [(MODE_MISMATCH, a.kind == RailsFlow <==> mode != FlowMode), (MISSING_ENVELOPE, envelopeToken == [])]
  }

  function FirstFailure(checks: seq<(Error, bool)>): Option<Error> {
    if checks == [] then None else if checks[0].1 then Some(checks[0].0) else FirstFailure(checks[1..])
  }

  lemma FirstFailureAfter(c: (Error, bool), checks: seq<(Error, bool)>)
    ensures FirstFailure([c] + checks) == if c.1 then Some(c.0) else FirstFailure(checks)
  {
    assert ([c] + checks)[1..] == checks;
  }

  /** Validation reports the first check that fails. */
  lemma FirstFailureReported(rules: AddressRules, a: Artifact)
    ensures Invalid(rules, a) == FirstFailure(Checks(rules, a))
  {
    var cs := Checks(rules, a);
    var rest := cs[4..];
    assert cs == [cs[0]] + ([cs[1]] + ([cs[2]] + ([cs[3]] + rest)));
    FirstFailureAfter(cs[0], [cs[1]] + ([cs[2]] + ([cs[3]] + rest)));
    FirstFailureAfter(cs[1], [cs[2]] + ([cs[3]] + rest));
    FirstFailureAfter(cs[2], [cs[3]] + rest);
    FirstFailureAfter(cs[3], rest);
    LastChecks(rules, a, rest);
  }

  lemma LastChecks(rules: AddressRules, a: Artifact, rest: seq<(Error, bool)>)
    requires rest == Checks(rules, a)[4..]
    ensures FirstFailure(rest) ==
      match a.payload
      case Request(merchant, recipient, _, _, _, _, _, _, _) =>
        if a.kind == RailsCard then Some(MODE_MISMATCH)
        else if !IsNonZeroAddress(rules, merchant) then Some(INVALID_MERCHANT)
        else if !IsNonZeroAddress(rules, recipient) then Some(INVALID_RECIPIENT) else None
      case Envelope(mode, envelopeToken, _) =>
        if a.kind == RailsFlow <==> mode != FlowMode then Some(MODE_MISMATCH)
        else if envelopeToken == [] then Some(MISSING_ENVELOPE) else None
  {
    if a.payload.Request? {
      assert rest == [rest[0]] + ([rest[1]] + ([rest[2]] + []));
      FirstFailureAfter(rest[0], [rest[1]] + ([rest[2]] + []));
      FirstFailureAfter(rest[1], [rest[2]] + []);
      FirstFailureAfter(rest[2], []);
    } else {
      assert rest == [rest[0]] + ([rest[1]] + []);
      FirstFailureAfter(rest[0], [rest[1]] + []);
      FirstFailureAfter(rest[1], []);
    }
  }

  lemma NormalAddressesPass(rules: AddressRules, a: Artifact)
    requires AddressesPass(rules, a) && AddressesFit(rules, a)
    ensures AddressesPass(rules, Normal(rules, a)) <==> !HasHiddenZero(rules, a)
  {
    NormalZero(rules, a.vault);
    NormalZero(rules, a.token);
    if a.payload.Request? {
      NormalZero(rules, a.payload.merchant);
      NormalZero(rules, a.payload.recipient);
    }
  }

  lemma NormalOthersPass(rules: AddressRules, a: Artifact)
    requires OthersPass(a)
    ensures OthersPass(Normal(rules, a))
  {
    LowerHexIsHash(a.metadataHash);
  }

  /** The normal form of a valid artifact whose addresses fit is valid exactly when none of them hides zero. */
  lemma NormalIsValid(rules: AddressRules, a: Artifact)
    requires Invalid(rules, a) == None && AddressesFit(rules, a)
    ensures Invalid(rules, Normal(rules, a)) == None <==> !HasHiddenZero(rules, a)
  {
    ValidIff(rules, a);
    ValidIff(rules, Normal(rules, a));
    NormalAddressesPass(rules, a);
    NormalOthersPass(rules, a);
  }

  // ---------------------------------------------------------------------------------------
  // When serialization succeeds
  // ---------------------------------------------------------------------------------------

  predicate TextFits(text: Bytes) {
    |text| <= 0xffff
  }

  predicate Uint64Fits(n: int) {
    0 <= n <= 0xffff_ffff_ffff_ffff
  }

  /** Every field fits the width it is written in. */
  predicate FieldsFit(rules: AddressRules, a: Artifact) {
    && a.chainId <= 0xffff_ffff
    && FitsAddress(rules, a.vault) && FitsAddress(rules, a.token)
    && match a.payload
       case Request(merchant, recipient, amount, velocity, lifespan, workflowId, metadataRef, descriptionHash, expiresAt) =>
         && FitsAddress(rules, merchant) && FitsAddress(rules, recipient)
         && TextFits(amount) && TextFits(velocity) && Uint64Fits(lifespan)
         && TextFits(ValueOr(workflowId)) && TextFits(ValueOr(metadataRef))
         && (Present(descriptionHash) ==> HexToBytes(descriptionHash.value, 32).Some?)
         && (expiresAt.Some? ==> Uint64Fits(expiresAt.value))
       case Envelope(_, envelopeToken, claimHint) => TextFits(envelopeToken) && TextFits(ValueOr(claimHint))
  }

  lemma Widths()
    ensures Power256(4) == 0x1_0000_0000 && Power256(8) == 0x1_0000_0000_0000_0000
  {
    assert Power256(2) == 65536 && Power256(4) == 65536 * Power256(2);
    assert Power256(6) == 65536 * Power256(4) && Power256(8) == 65536 * Power256(6);
  }

  lemma CommonWritesIff(rules: AddressRules, a: Artifact)
    requires OthersPass(a)
    ensures WriteCommon(rules, a).Ok? <==> a.chainId <= 0xffff_ffff && FitsAddress(rules, a.vault) && FitsAddress(rules, a.token)
  {
    Widths();
    AddressWritesIff(rules, a.vault);
    AddressWritesIff(rules, a.token);
  }

  lemma TermsWriteIff(rules: AddressRules, p: Payload)
    requires p.Request?
    ensures WriteTerms(rules, p).Ok? <==>
      && FitsAddress(rules, p.merchant) && FitsAddress(rules, p.recipient)
      && TextFits(p.amount) && TextFits(p.velocity) && Uint64Fits(p.lifespan)
  {
    Widths();
    AddressWritesIff(rules, p.merchant);
    AddressWritesIff(rules, p.recipient);
  }

  lemma ExtrasWriteIff(p: Payload)
    requires p.Request?
    ensures WriteExtras(p).Ok? <==>
      && TextFits(ValueOr(p.workflowId)) && TextFits(ValueOr(p.metadataRef))
      && (Present(p.descriptionHash) ==> HexToBytes(p.descriptionHash.value, 32).Some?)
      && (p.expiresAt.Some? ==> Uint64Fits(p.expiresAt.value))
  {
    Widths();
  }

  lemma ClaimWritesIff(a: Artifact)
    requires a.payload.Envelope?
    ensures WriteClaim(a).Ok? <==> TextFits(a.payload.envelopeToken) && TextFits(ValueOr(a.payload.claimHint))
  {
  }

  lemma BodyWritesIff(rules: AddressRules, a: Artifact)
    requires a.chainId <= 0xffff_ffff && FitsAddress(rules, a.vault) && FitsAddress(rules, a.token)
    ensures WriteBody(rules, a).Ok? <==> FieldsFit(rules, a)
  {
    if a.payload.Request? {
      TermsWriteIff(rules, a.payload);
      ExtrasWriteIff(a.payload);
    } else {
      ClaimWritesIff(a);
    }
  }

  /** Serialization succeeds exactly on valid artifacts whose fields fit. */
  lemma SerializesIff(rules: AddressRules, a: Artifact)
    ensures Serialize(rules, a).Ok? <==> Invalid(rules, a) == None && FieldsFit(rules, a)
  {
    ValidIff(rules, a);
    if Invalid(rules, a) == None {
      CommonWritesIff(rules, a);
      if WriteCommon(rules, a).Ok? {
        BodyWritesIff(rules, a);
      }
    }
  }

  /** A valid artifact stops serializing when one letter of a vault in mixed case is mistyped in the other case, and both
      cases still occur. */
  lemma MistypedVaultRefused(rules: AddressRules, a: Artifact, i: nat, c: char)
    requires Serialize(rules, a).Ok? && IsHexText(a.vault, 20) && Mixed(Digits(a.vault))
    requires |a.vault| - 40 <= i < |a.vault| && OtherCase(a.vault[i], c) && Mixed(Digits(a.vault[i := c]))
    ensures Serialize(rules, a.(vault := a.vault[i := c])) == Err(INVALID_VAULT)
  {
    SerializesIff(rules, a);
    ValidIff(rules, a);
    OneLetterBreaksChecksum(rules, a.vault, i, c);
  }

  // ---------------------------------------------------------------------------------------
  // The round trip of whole tokens
  // ---------------------------------------------------------------------------------------

  lemma PayloadRoundTrip(rules: AddressRules, a: Artifact)
    requires WritePayload(rules, a).Ok?
    ensures var r := ReadPayload(rules, SelectProfile(a), WritePayload(rules, a).value);
      if HasHiddenZero(rules, a) then r.Err? else r == Ok(Normal(rules, a))
  {
    var bytes := WritePayload(rules, a).value;
    ArtifactReads(rules, a, []);
    assert bytes + [] == bytes;
    WrittenFits(rules, a);
    NormalIsValid(rules, a);
  }

  lemma WrittenFits(rules: AddressRules, a: Artifact)
    requires WritePayload(rules, a).Ok?
    ensures Invalid(rules, a) == None && AddressesFit(rules, a)
  {
    SerializesIff(rules, a);
  }

  lemma TokenParts(profile: Profile, bytes: Bytes)
    ensures var body := Token(profile, bytes)[5..];
      && "orc1:" <= Token(profile, bytes)
      && IndexOf(body, '.') == 1 && body[..1] == [ProfileChar(profile)] && body[2..] == Encode(bytes)
  {
    var body := Token(profile, bytes)[5..];
    assert body == [ProfileChar(profile)] + "." + Encode(bytes);
    assert body[0] == ProfileChar(profile) && body[1] == '.';
  }

  /** A decoder that reads back what the encoder writes, whatever it makes of other texts. */
  ghost predicate Inverts(decode: string -> Option<Bytes>) {
    forall bytes :: decode(Encode(bytes)) == Some(bytes)
  }

  lemma DecodeInverts()
    ensures Inverts(Decode)
  {
    forall bytes ensures Decode(Encode(bytes)) == Some(bytes) {
      RoundTrip(bytes);
    }
  }

  lemma TokenReads(rules: AddressRules, decode: string -> Option<Bytes>, profile: Profile, bytes: Bytes)
    requires Inverts(decode)
    ensures Deserialize(rules, decode, Token(profile, bytes)) == ReadPayload(rules, profile, bytes)
  {
    TokenParts(profile, bytes);
    assert [ProfileChar(profile)] == "f" <==> profile == Flow;
    assert SplitToken(Token(profile, bytes)) == Ok((profile, Encode(bytes)));
    assert decode(Encode(bytes)) == Some(bytes);
  }

  /** Whenever serialization succeeds, deserializing the token gives the normal form of the artifact, unless some
      address text stands for the zero address without being its usual text: validation lets that text through, but
      not its normal form, and the token is rejected. */
  lemma LinkRoundTrips(rules: AddressRules, decode: string -> Option<Bytes>, a: Artifact)
    requires Inverts(decode) && Serialize(rules, a).Ok?
    ensures var r := Deserialize(rules, decode, Serialize(rules, a).value);
      if HasHiddenZero(rules, a) then r.Err? else r == Ok(Normal(rules, a))
  {
    TokenReads(rules, decode, SelectProfile(a), WritePayload(rules, a).value);
    PayloadRoundTrip(rules, a);
  }

  /** Forty zeros without the prefix hide the zero address, and so does any text that the rules let stand for it. */
  lemma HiddenZeros(rules: AddressRules, text: string)
    requires text == BARE_ZERO || (HexToBytes(text, 20).None? && rules.icap(text) == Some(ZEROS))
    ensures HidesZero(rules, text) && IsNonZeroAddress(rules, text) && FitsAddress(rules, text)
  {
    if text == BARE_ZERO {
      BareZeroIsZero();
      assert forall i | 0 <= i < |text| :: text[i] == '0';
      assert |text| == 40 && |ZERO_ADDRESS| == 42;
    } else {
      BareZeroIsZero();
      PrefixedZeroReads();
    }
  }

  lemma PrefixedZeroReads()
    ensures HexToBytes(ZERO_ADDRESS, 20).Some?
  {
    assert StripPrefix(ZERO_ADDRESS) == BARE_ZERO;
  }

  function BearerCard(vault: string): Artifact {
    Artifact(RailsCard, 1, vault, vault, BytesToHex(ZeroBytes(32)), Envelope(Bearer, [0], None))
  }

  lemma BearerCardPasses(rules: AddressRules, vault: string)
    requires IsNonZeroAddress(rules, vault) && FitsAddress(rules, vault)
    ensures AddressesPass(rules, BearerCard(vault)) && OthersPass(BearerCard(vault)) && FieldsFit(rules, BearerCard(vault))
  {
    HexTextReads(ZeroBytes(32), i => false);
    assert "0x" <= BytesToHex(ZeroBytes(32));
  }

  lemma BearerCardSerializes(rules: AddressRules, vault: string)
    requires IsNonZeroAddress(rules, vault) && FitsAddress(rules, vault)
    ensures Serialize(rules, BearerCard(vault)).Ok?
  {
    BearerCardPasses(rules, vault);
    ValidIff(rules, BearerCard(vault));
    SerializesIff(rules, BearerCard(vault));
  }

  /** So there are artifacts that serialize to tokens which nobody can read back. */
  lemma UnreadableTokenExists(rules: AddressRules, decode: string -> Option<Bytes>, text: string) returns (a: Artifact)
    requires Inverts(decode)
    requires text == BARE_ZERO || (HexToBytes(text, 20).None? && rules.icap(text) == Some(ZEROS))
    ensures a.vault == text && Serialize(rules, a).Ok? && Deserialize(rules, decode, Serialize(rules, a).value).Err?
  {
    a := BearerCard(text);
    HiddenZeros(rules, text);
    BearerCardSerializes(rules, text);
    LinkRoundTrips(rules, decode, a);
  }

  lemma TokenInjective(p: Profile, x: Bytes, q: Profile, y: Bytes)
    ensures Token(p, x) == Token(q, y) <==> p == q && x == y
  {
    TokenParts(p, x);
    TokenParts(q, y);
    EncodeInjective(x, y);
  }

  lemma WriteNormalAddress(rules: AddressRules, text: string)
    requires Address(rules, text).Ok?
    ensures Address(rules, Checksummed(rules, text)) == Address(rules, text)
  {
    AddressWritesIff(rules, text);
    AddressBytes(rules, text);
  }

  lemma WriteLowerHex(text: string)
    requires FixedHex(text, 32).Ok?
    ensures FixedHex(LowerHex(text, 32), 32) == FixedHex(text, 32)
  {
    HexTextReads(FixedHex(text, 32).value, i => false);
  }

  /** The claim hint that is written. */
  function Hint(a: Artifact): Option<Bytes> {
    if a.payload.Envelope? then NonEmpty(a.payload.claimHint) else None
  }

  lemma NormalCommonWrites(rules: AddressRules, a: Artifact)
    requires WriteCommon(rules, a).Ok?
    ensures WriteCommon(rules, Normal(rules, a)) == WriteCommon(rules, a)
  {
    WriteNormalAddress(rules, a.vault);
    WriteNormalAddress(rules, a.token);
    WriteLowerHex(a.metadataHash);
  }

  lemma NormalTermsWrite(rules: AddressRules, a: Artifact)
    requires a.payload.Request? && WriteTerms(rules, a.payload).Ok?
    ensures WriteTerms(rules, Normal(rules, a).payload) == WriteTerms(rules, a.payload)
  {
    WriteNormalAddress(rules, a.payload.merchant);
    WriteNormalAddress(rules, a.payload.recipient);
  }

  lemma NormalExtrasWrite(rules: AddressRules, a: Artifact)
    requires a.payload.Request? && WriteExtras(a.payload).Ok?
    ensures WriteExtras(Normal(rules, a).payload) == WriteExtras(a.payload)
  {
    var p := a.payload;
    if Present(p.descriptionHash) {
      WriteLowerHex(p.descriptionHash.value);
      assert FixedHex(p.descriptionHash.value, 32).Ok?;
      assert Present(Normal(rules, a).payload.descriptionHash) by {
        assert |LowerHex(p.descriptionHash.value, 32)| > 0;
      }
    }
  }

  lemma SameClaimWrites(rules: AddressRules, a: Artifact, b: Artifact)
    requires a.payload.Envelope? && b.payload.Envelope? && Normal(rules, a) == Normal(rules, b) && Hint(a) == Hint(b)
    ensures WriteClaim(a) == WriteClaim(b)
  {
  }

  lemma SamePartsSamePayload(rules: AddressRules, a: Artifact, b: Artifact)
    requires Invalid(rules, a) == None && Invalid(rules, b) == None
    requires WriteCommon(rules, a) == WriteCommon(rules, b)
    requires a.payload.Request? && b.payload.Request? ==>
      WriteTerms(rules, a.payload) == WriteTerms(rules, b.payload) && WriteExtras(a.payload) == WriteExtras(b.payload)
    requires a.payload.Envelope? && b.payload.Envelope? ==> WriteClaim(a) == WriteClaim(b)
    requires a.payload.Request? == b.payload.Request?
    ensures WritePayload(rules, a) == WritePayload(rules, b)
  {
  }

  lemma WrittenParts(rules: AddressRules, a: Artifact)
    requires WritePayload(rules, a).Ok?
    ensures Invalid(rules, a) == None && WriteCommon(rules, a).Ok?
    ensures a.payload.Request? ==> WriteTerms(rules, a.payload).Ok? && WriteExtras(a.payload).Ok?
  {
  }

  /** A payload is a function of the normal form and the claim hint. */
  lemma SameNormalSamePayload(rules: AddressRules, a: Artifact, b: Artifact)
    requires WritePayload(rules, a).Ok? && WritePayload(rules, b).Ok?
    requires Normal(rules, a) == Normal(rules, b) && Hint(a) == Hint(b)
    ensures WritePayload(rules, a) == WritePayload(rules, b)
  {
    WrittenParts(rules, a);
    WrittenParts(rules, b);
    NormalCommonWrites(rules, a);
    NormalCommonWrites(rules, b);
    if a.payload.Request? {
      NormalTermsWrite(rules, a);
      NormalTermsWrite(rules, b);
      NormalExtrasWrite(rules, a);
      NormalExtrasWrite(rules, b);
    } else {
      SameClaimWrites(rules, a, b);
    }
    SamePartsSamePayload(rules, a, b);
  }

  /** The claim hint that a payload holds. */
  function HintIn(rules: AddressRules, payload: Bytes): Result<Option<Bytes>, Error> {
    var (_, bs) :- ReadCommon(rules, payload);
    var (claim, _) :- ReadClaim(bs);
    Ok(claim.2)
  }

  lemma HintIsWritten(rules: AddressRules, a: Artifact)
    requires WritePayload(rules, a).Ok? && a.payload.Envelope?
    ensures HintIn(rules, WritePayload(rules, a).value) == Ok(Hint(a))
  {
    EnvelopeParts(rules, a);
    CommonReads(rules, a, WriteClaim(a).value);
    ClaimReads(a, []);
    assert WriteClaim(a).value + [] == WriteClaim(a).value;
  }

  /** Two artifacts have the same token if and only if they have the same normal form and the same claim hint. */
  lemma EqualTokensEqualNormals(rules: AddressRules, a: Artifact, b: Artifact)
    requires Serialize(rules, a).Ok? && Serialize(rules, b).Ok?
    ensures Serialize(rules, a) == Serialize(rules, b) <==> Normal(rules, a) == Normal(rules, b) && Hint(a) == Hint(b)
  {
    var x, y := WritePayload(rules, a).value, WritePayload(rules, b).value;
    TokenInjective(SelectProfile(a), x, SelectProfile(b), y);
    if x == y && SelectProfile(a) == SelectProfile(b) {
      ArtifactReads(rules, a, []);
      ArtifactReads(rules, b, []);
      SamePayloadSameHint(rules, a, b);
    }
    if Normal(rules, a) == Normal(rules, b) && Hint(a) == Hint(b) {
      SameNormalSamePayload(rules, a, b);
    }
  }

  lemma SamePayloadSameHint(rules: AddressRules, a: Artifact, b: Artifact)
    requires WritePayload(rules, a).Ok? && WritePayload(rules, a) == WritePayload(rules, b)
    requires a.payload.Request? == b.payload.Request?
    ensures Hint(a) == Hint(b)
  {
    if a.payload.Envelope? {
      HintIsWritten(rules, a);
      HintIsWritten(rules, b);
    }
  }

  // ---------------------------------------------------------------------------------------
  // Which tokens are read
  // ---------------------------------------------------------------------------------------

  predicate Dots(s: string, i: int) {
    0 <= i < |s| && s[i] == '.'
  }

  lemma FirstDot(s: string)
    ensures var n := IndexOf(s, '.');
      if n < 0 then forall i :: !Dots(s, i) else Dots(s, n) && forall i | 0 <= i < n :: !Dots(s, i)
  {
  }

  /** A token is split exactly if it is the prefix, a profile letter, a dot and a text. */
  lemma SplitIff(token: string, profile: Profile, text: string)
    ensures SplitToken(token) == Ok((profile, text)) <==> token == "orc1:" + ((if profile == Flow then "f" else "c") + ("." + text))
  {
    var whole := "orc1:" + ((if profile == Flow then "f" else "c") + ("." + text));
    if token == whole {
      var body := token[5..];
      assert body == (if profile == Flow then "f" else "c") + ("." + text);
      FirstDot(body);
      assert !Dots(body, 0) && Dots(body, 1);
      assert body[..1] == (if profile == Flow then "f" else "c") && body[2..] == text;
      assert ["f"[0]] != "c";
    }
    if SplitToken(token) == Ok((profile, text)) {
      var body := token[5..];
      var n := IndexOf(body, '.');
      FirstDot(body);
      assert token == "orc1:" + body && body == body[..n] + ("." + body[n + 1..]);
    }
  }

  /** Any other token is refused: for its prefix; for want of a dot behind something; or for its profile. */
  lemma SplitFails(token: string)
    requires SplitToken(token).Err?
    ensures SplitToken(token).error ==
      if !("orc1:" <= token) then BAD_PREFIX
      else if Dots(token[5..], 0) || forall i :: !Dots(token[5..], i) then BAD_TOKEN
      else BAD_PROFILE
  {
    if "orc1:" <= token {
      FirstDot(token[5..]);
    }
  }

  lemma ReadProfile(rules: AddressRules, profile: Profile, payload: Bytes)
    requires ReadArtifact(rules, profile, payload).Ok?
    ensures SelectProfile(ReadArtifact(rules, profile, payload).value.0) == profile
  {
  }

  lemma ReadPayloadIsValid(rules: AddressRules, profile: Profile, payload: Bytes)
    requires ReadPayload(rules, profile, payload).Ok?
    ensures var a := ReadPayload(rules, profile, payload).value;
      Invalid(rules, a) == None && SelectProfile(a) == profile && ReadArtifact(rules, profile, payload) == Ok((a, []))
  {
    ReadProfile(rules, profile, payload);
  }

  /** Whatever is read, from any text, is a valid artifact of the profile that the token names. */
  lemma ReadIsValid(rules: AddressRules, decode: string -> Option<Bytes>, token: string)
    requires Deserialize(rules, decode, token).Ok?
    ensures var a := Deserialize(rules, decode, token).value;
      && Invalid(rules, a) == None
      && SplitToken(token).Ok? && SplitToken(token).value.0 == SelectProfile(a)
  {
    var (profile, text) := SplitToken(token).value;
    ReadPayloadIsValid(rules, profile, decode(text).value);
  }

  /** A claim token names one of three modes by its first byte. */
  lemma ClaimModes(rules: AddressRules, payload: Bytes)
    requires ReadPayload(rules, Claim, payload).Ok?
    ensures ReadCommon(rules, payload).Ok? && ReadClaim(ReadCommon(rules, payload).value.1).Ok?
    ensures var mode := ReadClaim(ReadCommon(rules, payload).value.1).value.0.0;
      var a := ReadPayload(rules, Claim, payload).value;
      && mode <= 2 && a.payload.Envelope?
      && (mode == 0 <==> a.kind == RailsFlow) && (mode == 1 <==> a.payload.mode == Bearer) && (mode == 2 <==> a.payload.mode == RecipientBound)
  {
  }

  // ---------------------------------------------------------------------------------------
  // Telling tokens apart
  // ---------------------------------------------------------------------------------------

  /** `extractOpenRailsLinkToken` hands an input back unparsed when it does not look like a URL or a path. */
  predicate TakenAsToken(input: string) {
    !Contains(input, "://") && !("/" <= input)
  }

  predicate OccursAt(s: string, t: string, i: nat) {
    i + |t| <= |s| && s[i..i + |t|] == t
  }

  predicate Contains(s: string, t: string) {
    exists i | 0 <= i <= |s| :: OccursAt(s, t, i)
  }

  /** A legacy token is base64url text and never looks compact; neither kind of token is ever taken for a URL. */
  lemma TokensAreUnambiguous(profile: Profile, bytes: Bytes, legacy: Bytes)
    ensures !("orc1:" <= Encode(legacy))
    ensures TakenAsToken(Encode(legacy)) && TakenAsToken(Token(profile, bytes))
  {
    var e, t := Encode(legacy), Token(profile, bytes);
    forall i | 0 <= i < |e| ensures e[i] != ':' && e[i] != '/' {
      SafeAlphabet(legacy, i);
    }
    forall i | 0 <= i < |t| ensures t[i] != '/' {
      if i >= 7 {
        assert t[i] == Encode(bytes)[i - 7];
        SafeAlphabet(bytes, i - 7);
      }
    }
    assert "orc1:"[4] == ':';
    NoSlashNoUrl(e);
    NoSlashNoUrl(t);
  }

  lemma NoSlashNoUrl(s: string)
    requires forall i | 0 <= i < |s| :: s[i] != '/'
    ensures TakenAsToken(s)
  {
    assert "://"[1] == '/' && "/"[0] == '/';
    forall i: nat | i <= |s| ensures !OccursAt(s, "://", i) {
      assert i + 3 <= |s| ==> s[i..i + 3][1] == s[i + 1];
    }
  }
}
