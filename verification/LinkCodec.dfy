/** Compact link tokens: validation, serialization, and their round trip up to a normal form. */
module LinkCodec {
  import opened Text
  import opened Base64Url
  import opened Wire

  // ---------------------------------------------------------------------------------------
  // Artifacts. Free text is a byte string; addresses and hashes are hex text.
  // ---------------------------------------------------------------------------------------

  datatype Kind = RailsFlow | RailsCard

  datatype Mode = FlowMode | Bearer | RecipientBound

  datatype Payload =
    | Request(merchant: string, recipient: string, amount: Bytes, velocity: Bytes, lifespan: int,
              workflowId: Option<Bytes>, metadataRef: Option<Bytes>, descriptionHash: Option<string>, expiresAt: Option<int>)
    | Envelope(mode: Mode, envelopeToken: Bytes, claimHint: Option<Bytes>)

  datatype Artifact = Artifact(kind: Kind, chainId: int, vault: string, token: string, metadataHash: string, payload: Payload)

  function ZeroDigits(n: nat): (s: string)
    ensures |s| == n && forall i | 0 <= i < n :: s[i] == '0'
  {
    if n == 0 then "" else ZeroDigits(n - 1) + ['0']
  }

  /** Forty zeros, without and with the prefix. */
  const BARE_ZERO := ZeroDigits(40)
  const ZERO_ADDRESS := "0x" + BARE_ZERO

  predicate IsNonZeroAddress(rules: AddressRules, text: string) {
    IsAddress(rules, text) && text != ZERO_ADDRESS
  }

  /** The first check that fails, if one does. */
  function Invalid(rules: AddressRules, a: Artifact): Option<Error> {
    if !IsNonZeroAddress(rules, a.vault) then Some(INVALID_VAULT)
    else if !IsNonZeroAddress(rules, a.token) then Some(INVALID_TOKEN)
    else if !IsHexString32(a.metadataHash) then Some(INVALID_METADATA_HASH)
    else if a.chainId <= 0 then Some(INVALID_CHAIN_ID)
    else
      match (a.kind, a.payload)
      case (RailsFlow, Envelope(mode, envelopeToken, _)) =>
        if mode != FlowMode then Some(MODE_MISMATCH) else if envelopeToken == [] then Some(MISSING_ENVELOPE) else None
      case (RailsFlow, Request(merchant, recipient, _, _, _, _, _, _, _)) =>
        if !IsNonZeroAddress(rules, merchant) then Some(INVALID_MERCHANT)
        else if !IsNonZeroAddress(rules, recipient) then Some(INVALID_RECIPIENT)
        else None
      case (RailsCard, Envelope(mode, envelopeToken, _)) =>
        if mode == FlowMode then Some(MODE_MISMATCH) else if envelopeToken == [] then Some(MISSING_ENVELOPE) else None
      case (RailsCard, Request(_, _, _, _, _, _, _, _, _)) => Some(MODE_MISMATCH)
  }

  /** Absent and empty optional strings are written alike. */
  predicate Present<T>(o: Option<seq<T>>) {
    o.Some? && o.value != []
  }

  function ValueOr<T>(o: Option<seq<T>>): seq<T> {
    if o.Some? then o.value else []
  }

  // ---------------------------------------------------------------------------------------
  // Writing
  // ---------------------------------------------------------------------------------------

  function WriteCommon(rules: AddressRules, a: Artifact): Result<Bytes, Error> {
    var chainId :- Uint(a.chainId, 4);
    var vault :- Address(rules, a.vault);
    var token :- Address(rules, a.token);
    var hash :- FixedHex(a.metadataHash, 32);
    Ok(chainId + (vault + (token + hash)))
  }

  function WriteTerms(rules: AddressRules, p: Payload): Result<Bytes, Error>
    requires p.Request?
  {
    var merchant :- Address(rules, p.merchant);
    var recipient :- Address(rules, p.recipient);
    var amount :- Str(p.amount);
    var velocity :- Str(p.velocity);
    var lifespan :- Uint(p.lifespan, 8);
    Ok(merchant + (recipient + (amount + (velocity + lifespan))))
  }

  function WriteExtras(p: Payload): Result<Bytes, Error>
    requires p.Request?
  {
    var metadataRef :- Tagged(Present(p.metadataRef), Str(ValueOr(p.metadataRef)));
    var descriptionHash :- Tagged(Present(p.descriptionHash), FixedHex(ValueOr(p.descriptionHash), 32));
    var expiresAt :- Tagged(p.expiresAt.Some?, Uint(if p.expiresAt.Some? then p.expiresAt.value else 0, 8));
    var workflowId :- Tagged(Present(p.workflowId), Str(ValueOr(p.workflowId)));
    Ok(metadataRef + (descriptionHash + (expiresAt + workflowId)))
  }

  function KindMode(a: Artifact): byte
    requires a.payload.Envelope?
  {
    if a.kind == RailsFlow then 0 else if a.payload.mode == Bearer then 1 else 2
  }

  function WriteClaim(a: Artifact): Result<Bytes, Error>
    requires a.payload.Envelope?
  {
    var envelope :- Str(a.payload.envelopeToken);
    var hint :- Tagged(Present(a.payload.claimHint), Str(ValueOr(a.payload.claimHint)));
    Ok([KindMode(a)] + (envelope + hint))
  }

  datatype Profile = Flow | Claim

  function SelectProfile(a: Artifact): Profile {
    if a.kind == RailsFlow && a.payload.Request? then Flow else Claim
  }

  function WriteBody(rules: AddressRules, a: Artifact): Result<Bytes, Error> {
    match a.payload
    case Request(_, _, _, _, _, _, _, _, _) =>
      var terms :- WriteTerms(rules, a.payload);
      var extras :- WriteExtras(a.payload);
      Ok(terms + extras)
    case Envelope(_, _, _) => WriteClaim(a)
  }

  function WriteArtifact(rules: AddressRules, a: Artifact): Result<Bytes, Error> {
    var common :- WriteCommon(rules, a);
    var body :- WriteBody(rules, a);
    Ok(common + body)
  }

  /** The bytes under the base64url layer. */
  function WritePayload(rules: AddressRules, a: Artifact): Result<Bytes, Error> {
    match Invalid(rules, a)
    case Some(e) => Err(e)
    case None => WriteArtifact(rules, a)
  }

  function ProfileChar(profile: Profile): char {
    if profile == Flow then 'f' else 'c'
  }

  function Token(profile: Profile, bytes: Bytes): string {
    "orc1:" + [ProfileChar(profile)] + "." + Encode(bytes)
  }

  function Serialize(rules: AddressRules, a: Artifact): Result<string, Error> {
    var bytes :- WritePayload(rules, a);
    Ok(Token(SelectProfile(a), bytes))
  }

  // ---------------------------------------------------------------------------------------
  // Reading
  // ---------------------------------------------------------------------------------------

  datatype Common = Common(chainId: int, vault: string, token: string, metadataHash: string)

  function ReadCommon(rules: AddressRules, bs: Bytes): Result<(Common, Bytes), Error> {
    var (chainId, bs) :- ReadUint(bs, 4);
    var (vault, bs) :- ReadAddress(rules, bs);
    var (token, bs) :- ReadAddress(rules, bs);
    var (hash, bs) :- ReadBytes32(bs);
    Ok((Common(chainId, vault, token, hash), bs))
  }

  datatype Terms = Terms(merchant: string, recipient: string, amount: Bytes, velocity: Bytes, lifespan: int)

  function ReadTerms(rules: AddressRules, bs: Bytes): Result<(Terms, Bytes), Error> {
    var (merchant, bs) :- ReadAddress(rules, bs);
    var (recipient, bs) :- ReadAddress(rules, bs);
    var (amount, bs) :- ReadStr(bs);
    var (velocity, bs) :- ReadStr(bs);
    var (lifespan, bs) :- ReadUint(bs, 8);
    Ok((Terms(merchant, recipient, amount, velocity, lifespan), bs))
  }

  datatype Extras = Extras(metadataRef: Option<Bytes>, descriptionHash: Option<string>, expiresAt: Option<int>, workflowId: Option<Bytes>)

  function ReadExtras(bs: Bytes): Result<(Extras, Bytes), Error> {
    var (metadataRef, bs) :- ReadOptionalStr(bs);
    var (descriptionHash, bs) :- ReadOptionalBytes32(bs);
    var (expiresAt, bs) :- ReadOptionalUint64(bs);
    var (workflowId, bs) :- ReadOptionalStr(bs);
    Ok((Extras(metadataRef, descriptionHash, expiresAt, workflowId), bs))
  }

  /** Mode byte, envelope token, claim hint. */
  function ReadClaim(bs: Bytes): Result<((nat, Bytes, Option<Bytes>), Bytes), Error> {
    var (mode, bs) :- ReadUint(bs, 1);
    var (envelope, bs) :- ReadStr(bs);
    var (hint, bs) :- ReadOptionalStr(bs);
    Ok(((mode, envelope, hint), bs))
  }

  function FlowArtifact(c: Common, t: Terms, x: Extras): Artifact {
    Artifact(RailsFlow, c.chainId, c.vault, c.token, c.metadataHash,
      Request(t.merchant, t.recipient, t.amount, t.velocity, t.lifespan, x.workflowId, x.metadataRef, x.descriptionHash, x.expiresAt))
  }

  function ClaimArtifact(c: Common, mode: nat, envelope: Bytes, hint: Option<Bytes>): Result<Artifact, Error> {
    if mode == 0 then Ok(Artifact(RailsFlow, c.chainId, c.vault, c.token, c.metadataHash, Envelope(FlowMode, envelope, None)))
    else if mode == 1 then Ok(Artifact(RailsCard, c.chainId, c.vault, c.token, c.metadataHash, Envelope(Bearer, envelope, hint)))
    else if mode == 2 then Ok(Artifact(RailsCard, c.chainId, c.vault, c.token, c.metadataHash, Envelope(RecipientBound, envelope, hint)))
    else Err(BAD_CLAIM_MODE)
  }

  /** The artifact at the front of a payload, and what follows it. */
  function ReadArtifact(rules: AddressRules, profile: Profile, bs: Bytes): Result<(Artifact, Bytes), Error> {
    var (common, bs) :- ReadCommon(rules, bs);
    match profile
    case Flow =>
      var (terms, bs) :- ReadTerms(rules, bs);
      var (extras, bs) :- ReadExtras(bs);
      Ok((FlowArtifact(common, terms, extras), bs))
    case Claim =>
      var (claim, bs) :- ReadClaim(bs);
      var artifact :- ClaimArtifact(common, claim.0, claim.1, claim.2);
      Ok((artifact, bs))
  }

  function ReadPayload(rules: AddressRules, profile: Profile, bs: Bytes): Result<Artifact, Error> {
    var (a, rest) :- ReadArtifact(rules, profile, bs);
    if rest != [] then Err(TRAILING_BYTES)
    else
      match Invalid(rules, a)
      case Some(e) => Err(e)
      case None => Ok(a)
  }

  function IndexOf(s: string, c: char): (i: int)
    ensures -1 <= i < |s|
    ensures i >= 0 ==> s[i] == c && forall j | 0 <= j < i :: s[j] != c
    ensures i < 0 ==> c !in s
  {
    if |s| == 0 then -1
    else if s[0] == c then 0
    else
      var i := IndexOf(s[1..], c);
      if i < 0 then -1 else i + 1
  }

  /** The profile and the encoded payload of a compact token. */
  function SplitToken(token: string): Result<(Profile, string), Error> {
    if !("orc1:" <= token) then Err(BAD_PREFIX)
    else
      var body := token[5..];
      var separator := IndexOf(body, '.');
      if separator <= 0 then Err(BAD_TOKEN)
      else
        var profile := body[..separator];
        if profile != "f" && profile != "c" then Err(BAD_PROFILE)
        else Ok((if profile == "f" then Flow else Claim, body[separator + 1..]))
  }

  /** `decode` turns base64url text into bytes: that of the browser fallback is `Decode`, and a library's may accept
      more texts. */
  function Deserialize(rules: AddressRules, decode: string -> Option<Bytes>, token: string): Result<Artifact, Error> {
    var (profile, text) :- SplitToken(token);
    match decode(text)
    case None => Err(BAD_BASE64)
    case Some(bytes) => ReadPayload(rules, profile, bytes)
  }

  // ---------------------------------------------------------------------------------------
  // The normal form
  // ---------------------------------------------------------------------------------------

  function Checksummed(rules: AddressRules, text: string): string {
    match GetAddress(rules, text)
    case Some(address) => address
    case None => text
  }

  function LowerHex(text: string, n: nat): string {
    match HexToBytes(text, n)
    case Some(bytes) => BytesToHex(bytes)
    case None => text
  }

  function NonEmpty<T>(o: Option<seq<T>>): Option<seq<T>> {
    if Present(o) then o else None
  }

  function NormalPayload(rules: AddressRules, kind: Kind, p: Payload): Payload {
    match p
    case Request(merchant, recipient, amount, velocity, lifespan, workflowId, metadataRef, descriptionHash, expiresAt) =>
      Request(Checksummed(rules, merchant), Checksummed(rules, recipient), amount, velocity, lifespan,
              NonEmpty(workflowId), NonEmpty(metadataRef),
              if Present(descriptionHash) then Some(LowerHex(descriptionHash.value, 32)) else None, expiresAt)
    case Envelope(mode, envelopeToken, claimHint) =>
      Envelope(mode, envelopeToken, if kind == RailsFlow then None else NonEmpty(claimHint))
  }

  /** Addresses checksummed, hex in lower case, empty optional strings absent, no claim hint on a signed RailsFlow. */
  function Normal(rules: AddressRules, a: Artifact): Artifact {
    Artifact(a.kind, a.chainId, Checksummed(rules, a.vault), Checksummed(rules, a.token), LowerHex(a.metadataHash, 32),
             NormalPayload(rules, a.kind, a.payload))
  }

  function ZeroBytes(n: nat): (bs: Bytes)
    ensures |bs| == n && forall i | 0 <= i < n :: bs[i] == 0
  {
    if n == 0 then [] else ZeroBytes(n - 1) + [0]
  }

  const ZEROS := ZeroBytes(20)

  /** The text stands for the zero address without being the text that validation refuses. */
  predicate HidesZero(rules: AddressRules, text: string) {
    Denoted(rules, text) == Some(ZEROS) && text != ZERO_ADDRESS
  }

  /** Some address field does. */
  predicate HasHiddenZero(rules: AddressRules, a: Artifact) {
    HidesZero(rules, a.vault) || HidesZero(rules, a.token)
    || (a.payload.Request? && (HidesZero(rules, a.payload.merchant) || HidesZero(rules, a.payload.recipient)))
  }
}
