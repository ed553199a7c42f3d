/** The writer and reader objects of compact links, and serialization through them. */
module LinkObjects {
  import opened Text
  import opened Base64Url
  import opened Wire
  import opened LinkCodec

  // ---------------------------------------------------------------------------------------
  // Byte arithmetic of the integer writers
  // ---------------------------------------------------------------------------------------

  /** `n >> 8 * k` */
  function ShiftRight(n: nat, k: nat): nat {
    if k == 0 then n else ShiftRight(n / 256, k - 1)
  }

  lemma {:induction false} ShiftOneMore(n: nat, k: nat)
    ensures ShiftRight(n, k + 1) == ShiftRight(n, k) / 256
  {
    if k == 0 {
    } else {
      ShiftOneMore(n / 256, k - 1);
    }
  }

  /** One more byte from the top. */
  lemma NextByte(n: nat, k: nat, i: nat)
    ensures BigEndian(ShiftRight(n, k + 1), i) + [ShiftRight(n, k) % 256] == BigEndian(ShiftRight(n, k), i + 1)
  {
    ShiftOneMore(n, k);
  }

  lemma Appended2(c: Bytes, a: Bytes, b: Bytes)
    ensures c + a + b == c + (a + b)
  {
  }

  lemma Appended3(c: Bytes, a: Bytes, b: Bytes, d: Bytes)
    ensures c + a + b + d == c + (a + (b + d))
  {
  }

  lemma Appended4(c: Bytes, a: Bytes, b: Bytes, d: Bytes, e: Bytes)
    ensures c + a + b + d + e == c + (a + (b + (d + e)))
  {
    Appended3(c + a, b, d, e);
  }

  lemma Appended5(c: Bytes, a: Bytes, b: Bytes, d: Bytes, e: Bytes, f: Bytes)
    ensures c + a + b + d + e + f == c + (a + (b + (d + (e + f))))
  {
    Appended4(c + a, b, d, e, f);
  }

  // ---------------------------------------------------------------------------------------
  // Hex text into an array
  // ---------------------------------------------------------------------------------------

  method FillFromHex(hex: string, n: nat) returns (r: Result<array<byte>, Error>)
    ensures r.Ok? <==> HexToBytes(hex, n).Some?
    ensures r.Ok? ==> fresh(r.value) && HexToBytes(hex, n) == Some(r.value[..])
    ensures r.Err? ==> r.error == BAD_HEX
  {
    var normalized := StripPrefix(hex);
    if |normalized| != 2 * n || !AllHex(normalized) { return Err(BAD_HEX); }
    var bytes := new byte[n];
    for i := 0 to n
      invariant forall k | 0 <= k < i :: bytes[k] == ByteAt(normalized, k)
    {
      bytes[i] := ByteAt(normalized, i);
    }
    assert bytes[..] == HexToBytes(hex, n).value;
    r := Ok(bytes);
  }

  // ---------------------------------------------------------------------------------------
  // Writer
  // ---------------------------------------------------------------------------------------

  /** A write either appends the encoding or throws. */
  ghost predicate Wrote(encoding: Result<Bytes, Error>, r: Result<(), Error>, before: Bytes, after: Bytes) {
    match encoding
    case Ok(bytes) => r == Ok(()) && after == before + bytes
    case Err(e) => r == Err(e)
  }

  class CompactWriter {
    var chunks: Bytes

    constructor ()
      ensures chunks == []
    {
      chunks := [];
    }

    method WriteUint8(value: byte)
      modifies this
      ensures chunks == old(chunks) + [value]
    {
      chunks := chunks + [value];
    }

    method WriteUint32(value: int) returns (r: Result<(), Error>)
      modifies this
      ensures Wrote(Uint(value, 4), r, old(chunks), chunks)
    {
      assert Power256(4) == 256 * Power256(3) == 0x1_0000_0000 by {
        assert Power256(1) == 256 && Power256(2) == 65536 && Power256(3) == 16777216;
      }
      if value < 0 || value > 0xffffffff { return Err(UINT_OUT_OF_RANGE); }
      chunks := chunks + [value / 0x1000000 % 256, value / 0x10000 % 256, value / 0x100 % 256, value % 256];
      assert BigEndian(value, 4) == [value / 0x1000000 % 256, value / 0x10000 % 256, value / 0x100 % 256, value % 256] by {
        assert BigEndian(value / 0x1000000, 1) == [value / 0x1000000 % 256];
        assert BigEndian(value / 0x10000, 2) == BigEndian(value / 0x1000000, 1) + [value / 0x10000 % 256];
        assert BigEndian(value / 0x100, 3) == BigEndian(value / 0x10000, 2) + [value / 0x100 % 256];
      }
      r := Ok(());
    }

    method WriteUint64(value: int) returns (r: Result<(), Error>)
      modifies this
      ensures Wrote(Uint(value, 8), r, old(chunks), chunks)
    {
      if value < 0 || value >= Power256(8) { return Err(UINT_OUT_OF_RANGE); }
      for i := 0 to 8
        invariant chunks == old(chunks) + BigEndian(ShiftRight(value, 8 - i), i)
      {
        NextByte(value, 7 - i, i);
        chunks := chunks + [ShiftRight(value, 7 - i) % 256];
      }
      r := Ok(());
    }

    method WriteBytes(bytes: Bytes)
      modifies this
      ensures chunks == old(chunks) + bytes
    {
      for i := 0 to |bytes|
        invariant chunks == old(chunks) + bytes[..i]
      {
        chunks := chunks + [bytes[i]];
      }
      assert bytes[..|bytes|] == bytes;
    }

    method WriteHex(value: string, n: nat) returns (r: Result<(), Error>)
      modifies this
      ensures Wrote(FixedHex(value, n), r, old(chunks), chunks)
    {
      var filled := FillFromHex(value, n);
      if filled.Err? { return Err(filled.error); }
      WriteBytes(filled.value[..]);
      r := Ok(());
    }

    method WriteAddress(rules: AddressRules, value: string) returns (r: Result<(), Error>)
      modifies this
      ensures Wrote(Address(rules, value), r, old(chunks), chunks)
    {
      var address := GetAddress(rules, value);
      if address.None? { return Err(BAD_ADDRESS); }
      r := WriteHex(address.value, 20);
    }

    method WriteString(value: Bytes) returns (r: Result<(), Error>)
      modifies this
      ensures Wrote(Str(value), r, old(chunks), chunks)
    {
      if |value| > 0xffff { return Err(STRING_TOO_LONG); }
      assert BigEndian(|value|, 2) == [|value| / 256 % 256, |value| % 256] by {
        assert BigEndian(|value| / 256, 1) == [|value| / 256 % 256];
      }
      chunks := chunks + [|value| / 256 % 256, |value| % 256];
      WriteBytes(value);
      r := Ok(());
    }

    method WriteOptionalString(value: Option<Bytes>) returns (r: Result<(), Error>)
      modifies this
      ensures Wrote(Tagged(Present(value), Str(ValueOr(value))), r, old(chunks), chunks)
    {
      WriteUint8(if Present(value) then 1 else 0);
      r := Ok(());
      if Present(value) {
        r := WriteString(value.value);
      }
    }

    method WriteOptionalBytes32(value: Option<string>) returns (r: Result<(), Error>)
      modifies this
      ensures Wrote(Tagged(Present(value), FixedHex(ValueOr(value), 32)), r, old(chunks), chunks)
    {
      WriteUint8(if Present(value) then 1 else 0);
      r := Ok(());
      if Present(value) {
        r := WriteHex(value.value, 32);
      }
    }

    method WriteOptionalUint64(value: Option<int>) returns (r: Result<(), Error>)
      modifies this
      ensures Wrote(Tagged(value.Some?, Uint(if value.Some? then value.value else 0, 8)), r, old(chunks), chunks)
    {
      WriteUint8(if value.Some? then 1 else 0);
      r := Ok(());
      if value.Some? {
        r := WriteUint64(value.value);
      }
    }

    method WriteCommonArtifact(rules: AddressRules, a: Artifact) returns (r: Result<(), Error>)
      modifies this
      ensures Wrote(WriteCommon(rules, a), r, old(chunks), chunks)
    {
      var _ :- WriteUint32(a.chainId);
      var _ :- WriteAddress(rules, a.vault);
      var _ :- WriteAddress(rules, a.token);
      var _ :- WriteHex(a.metadataHash, 32);
      Appended4(old(chunks), Uint(a.chainId, 4).value, Address(rules, a.vault).value, Address(rules, a.token).value,
                FixedHex(a.metadataHash, 32).value);
      r := Ok(());
    }

    method WriteRequest(rules: AddressRules, p: Payload) returns (r: Result<(), Error>)
      requires p.Request?
      modifies this
      ensures Wrote(WriteTerms(rules, p), r, old(chunks), chunks)
    {
      var _ :- WriteAddress(rules, p.merchant);
      var _ :- WriteAddress(rules, p.recipient);
      var _ :- WriteString(p.amount);
      var _ :- WriteString(p.velocity);
      var _ :- WriteUint64(p.lifespan);
      Appended5(old(chunks), Address(rules, p.merchant).value, Address(rules, p.recipient).value,
                Str(p.amount).value, Str(p.velocity).value, Uint(p.lifespan, 8).value);
      r := Ok(());
    }

    method WriteRequestExtras(p: Payload) returns (r: Result<(), Error>)
      requires p.Request?
      modifies this
      ensures Wrote(WriteExtras(p), r, old(chunks), chunks)
    {
      var _ :- WriteOptionalString(p.metadataRef);
      var _ :- WriteOptionalBytes32(p.descriptionHash);
      var _ :- WriteOptionalUint64(p.expiresAt);
      var _ :- WriteOptionalString(p.workflowId);
      Appended4(old(chunks), Tagged(Present(p.metadataRef), Str(ValueOr(p.metadataRef))).value,
                Tagged(Present(p.descriptionHash), FixedHex(ValueOr(p.descriptionHash), 32)).value,
                Tagged(p.expiresAt.Some?, Uint(if p.expiresAt.Some? then p.expiresAt.value else 0, 8)).value,
                Tagged(Present(p.workflowId), Str(ValueOr(p.workflowId))).value);
      r := Ok(());
    }

    method WriteEnvelope(a: Artifact) returns (r: Result<(), Error>)
      requires a.payload.Envelope?
      modifies this
      ensures Wrote(WriteClaim(a), r, old(chunks), chunks)
    {
      WriteUint8(KindMode(a));
      var _ :- WriteString(a.payload.envelopeToken);
      var _ :- WriteOptionalString(a.payload.claimHint);
      Appended3(old(chunks), [KindMode(a)], Str(a.payload.envelopeToken).value,
                Tagged(Present(a.payload.claimHint), Str(ValueOr(a.payload.claimHint))).value);
      r := Ok(());
    }

    method WriteArtifactBody(rules: AddressRules, a: Artifact) returns (r: Result<(), Error>)
      modifies this
      ensures Wrote(WriteBody(rules, a), r, old(chunks), chunks)
    {
      if a.payload.Envelope? {
        r := WriteEnvelope(a);
        return;
      }
      var _ :- WriteRequest(rules, a.payload);
      var _ :- WriteRequestExtras(a.payload);
      Appended2(old(chunks), WriteTerms(rules, a.payload).value, WriteExtras(a.payload).value);
      r := Ok(());
    }

    method WriteWhole(rules: AddressRules, a: Artifact) returns (r: Result<(), Error>)
      modifies this
      ensures Wrote(WriteArtifact(rules, a), r, old(chunks), chunks)
    {
      var common := WriteCommonArtifact(rules, a);
      if common.Err? { return common; }
      r := WriteArtifactBody(rules, a);
      if r.Ok? {
        Appended2(old(chunks), WriteCommon(rules, a).value, WriteBody(rules, a).value);
      }
    }
  }

  /** `serializeCompactOpenRailsLinkArtifact` */
  method SerializeLink(rules: AddressRules, a: Artifact) returns (r: Result<string, Error>)
    ensures r == Serialize(rules, a)
  {
    var bytes :- PayloadOf(rules, a);
    r := Ok(Token(SelectProfile(a), bytes));
  }

  method PayloadOf(rules: AddressRules, a: Artifact) returns (r: Result<Bytes, Error>)
    ensures r == WritePayload(rules, a)
  {
    var invalid := Invalid(rules, a);
    if invalid.Some? { return Err(invalid.value); }
    r := WriteFresh(rules, a);
  }

  method WriteFresh(rules: AddressRules, a: Artifact) returns (r: Result<Bytes, Error>)
    ensures r == WriteArtifact(rules, a)
  {
    var writer := new CompactWriter();
    ghost var encoding := WriteArtifact(rules, a);
    var written := writer.WriteWhole(rules, a);
    assert encoding.Ok? ==> [] + encoding.value == encoding.value;
    r := if written.Ok? then Ok(writer.chunks) else Err(written.error);
  }

  // ---------------------------------------------------------------------------------------
  // Reader
  // ---------------------------------------------------------------------------------------

  /** A read either advances past what it read or throws. */
  ghost predicate Took<T>(reading: Result<(T, Bytes), Error>, r: Result<T, Error>, rest: Bytes) {
    match reading
    case Ok((value, after)) => r == Ok(value) && rest == after
    case Err(e) => r == Err(e)
  }

  class CompactReader {
    const bytes: Bytes
    var offset: nat

    /** The offset never passes the end. */
    ghost predicate Valid()
      reads this
    {
      offset <= |bytes|
    }

    ghost function Rest(): Bytes
      reads this
      requires Valid()
    {
      bytes[offset..]
    }

    constructor (input: Bytes)
      ensures Valid() && Rest() == input
    {
      bytes, offset := input, 0;
    }

    method Done() returns (done: bool)
      requires Valid()
      ensures done <==> Rest() == []
    {
      done := offset == |bytes|;
    }

    method Take(length: nat) returns (r: Result<Bytes, Error>)
      requires Valid()
      modifies this
      ensures Valid() && Took(ReadBytes(old(Rest()), length), r, Rest())
    {
      if offset + length > |bytes| { return Err(MALFORMED_PAYLOAD); }
      var value := bytes[offset..offset + length];
      assert value == Rest()[..length] && bytes[offset + length..] == Rest()[length..];
      offset := offset + length;
      r := Ok(value);
    }

    method ReadUint8() returns (r: Result<nat, Error>)
      requires Valid()
      modifies this
      ensures Valid() && Took(ReadUint(old(Rest()), 1), r, Rest())
    {
      var b :- Take(1);
      assert b[..0] == [] && Number(b) == 256 * Number(b[..0]) + b[0];
      r := Ok(b[0]);
    }

    method ReadUint32() returns (r: Result<nat, Error>)
      requires Valid()
      modifies this
      ensures Valid() && Took(ReadUint(old(Rest()), 4), r, Rest())
    {
      var b :- Take(4);
      NumberOfFour(b);
      r := Ok((b[0] as int) * 0x1000000 + (b[1] as int) * 0x10000 + (b[2] as int) * 0x100 + b[3]);
    }

    method ReadUint64() returns (r: Result<nat, Error>)
      requires Valid()
      modifies this
      ensures Valid() && Took(ReadUint(old(Rest()), 8), r, Rest())
    {
      var b :- Take(8);
      var value: nat := 0;
      for i := 0 to 8
        invariant value == Number(b[..i])
      {
        assert b[..i + 1][..i] == b[..i];
        value := value * 256 + b[i];
      }
      assert b[..8] == b;
      r := Ok(value);
    }

    method ReadString() returns (r: Result<Bytes, Error>)
      requires Valid()
      modifies this
      ensures Valid() && Took(ReadStr(old(Rest())), r, Rest())
    {
      var b :- Take(2);
      NumberOfTwo(b);
      r := Take((b[0] as int) * 256 + b[1]);
    }

    method ReadAddressText(rules: AddressRules) returns (r: Result<string, Error>)
      requires Valid()
      modifies this
      ensures Valid() && Took(ReadAddress(rules, old(Rest())), r, Rest())
    {
      var b :- Take(20);
      var address := GetAddress(rules, BytesToHex(b));
      r := if address.Some? then Ok(address.value) else Err(BAD_ADDRESS);
    }

    method ReadHash() returns (r: Result<string, Error>)
      requires Valid()
      modifies this
      ensures Valid() && Took(ReadBytes32(old(Rest())), r, Rest())
    {
      var b :- Take(32);
      r := Ok(BytesToHex(b));
    }

    method ReadOptionalString() returns (r: Result<Option<Bytes>, Error>)
      requires Valid()
      modifies this
      ensures Valid() && Took(ReadOptionalStr(old(Rest())), r, Rest())
    {
      var tag :- ReadUint8();
      if tag != 1 { return Ok(None); }
      var v :- ReadString();
      r := Ok(Some(v));
    }

    method ReadOptionalHash() returns (r: Result<Option<string>, Error>)
      requires Valid()
      modifies this
      ensures Valid() && Took(ReadOptionalBytes32(old(Rest())), r, Rest())
    {
      var tag :- ReadUint8();
      if tag != 1 { return Ok(None); }
      var v :- ReadHash();
      r := Ok(Some(v));
    }

    method ReadOptionalNumber() returns (r: Result<Option<int>, Error>)
      requires Valid()
      modifies this
      ensures Valid() && Took(ReadOptionalUint64(old(Rest())), r, Rest())
    {
      var tag :- ReadUint8();
      if tag != 1 { return Ok(None); }
      var v :- ReadUint64();
      r := Ok(Some(v));
    }

    method ReadCommonArtifact(rules: AddressRules) returns (r: Result<Common, Error>)
      requires Valid()
      modifies this
      ensures Valid() && Took(ReadCommon(rules, old(Rest())), r, Rest())
    {
      var chainId :- ReadUint32();
      var vault :- ReadAddressText(rules);
      var token :- ReadAddressText(rules);
      var hash :- ReadHash();
      r := Ok(Common(chainId, vault, token, hash));
    }

    method ReadRequest(rules: AddressRules) returns (r: Result<Terms, Error>)
      requires Valid()
      modifies this
      ensures Valid() && Took(ReadTerms(rules, old(Rest())), r, Rest())
    {
      var merchant :- ReadAddressText(rules);
      var recipient :- ReadAddressText(rules);
      var amount :- ReadString();
      var velocity :- ReadString();
      var lifespan :- ReadUint64();
      r := Ok(Terms(merchant, recipient, amount, velocity, lifespan));
    }

    method ReadRequestExtras() returns (r: Result<Extras, Error>)
      requires Valid()
      modifies this
      ensures Valid() && Took(ReadExtras(old(Rest())), r, Rest())
    {
      var metadataRef :- ReadOptionalString();
      var descriptionHash :- ReadOptionalHash();
      var expiresAt :- ReadOptionalNumber();
      var workflowId :- ReadOptionalString();
      r := Ok(Extras(metadataRef, descriptionHash, expiresAt, workflowId));
    }

    method ReadEnvelope() returns (r: Result<(nat, Bytes, Option<Bytes>), Error>)
      requires Valid()
      modifies this
      ensures Valid() && Took(ReadClaim(old(Rest())), r, Rest())
    {
      var mode :- ReadUint8();
      var envelope :- ReadString();
      var hint :- ReadOptionalString();
      r := Ok((mode, envelope, hint));
    }
  }

  lemma NumberOfTwo(b: Bytes)
    requires |b| == 2
    ensures Number(b) == (b[0] as int) * 256 + b[1]
  {
    assert b[..1][..0] == [] && Number(b[..1]) == 256 * Number([]) + b[0];
  }

  lemma NumberOfFour(b: Bytes)
    requires |b| == 4
    ensures Number(b) == (b[0] as int) * 0x1000000 + (b[1] as int) * 0x10000 + (b[2] as int) * 0x100 + b[3]
  {
    assert b[..3][..2] == b[..2];
    NumberOfTwo(b[..2]);
    assert Number(b[..3]) == 256 * Number(b[..2]) + b[2];
  }

  /** `deserializeCompactOpenRailsLinkArtifact` */
  method DeserializeLink(rules: AddressRules, decode: string -> Option<Bytes>, token: string) returns (r: Result<Artifact, Error>)
    ensures r == Deserialize(rules, decode, token)
  {
    var parts :- SplitToken(token);
    var bytes := decode(parts.1);
    if bytes.None? { return Err(BAD_BASE64); }
    r := ParsePayload(rules, parts.0, bytes.value);
  }

  method ParsePayload(rules: AddressRules, profile: Profile, bytes: Bytes) returns (r: Result<Artifact, Error>)
    ensures r == ReadPayload(rules, profile, bytes)
  {
    var reader := new CompactReader(bytes);
    var common :- reader.ReadCommonArtifact(rules);
    var artifact: Artifact;
    if profile == Flow {
      var terms :- reader.ReadRequest(rules);
      var extras :- reader.ReadRequestExtras();
      artifact := FlowArtifact(common, terms, extras);
    } else {
      var claim :- reader.ReadEnvelope();
      artifact :- ClaimArtifact(common, claim.0, claim.1, claim.2);
    }
    var done := reader.Done();
    if !done { return Err(TRAILING_BYTES); }
    var invalid := Invalid(rules, artifact);
    if invalid.Some? { return Err(invalid.value); }
    r := Ok(artifact);
  }
}
