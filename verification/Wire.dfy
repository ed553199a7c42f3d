/** The wire primitives of compact links: hex text, addresses, integers, strings and tagged optionals. */
module Wire {
  import opened Text
  import opened Base64Url

  type Bytes = seq<byte>

  datatype Error =
    | MALFORMED_PAYLOAD | TRAILING_BYTES | UINT_OUT_OF_RANGE | STRING_TOO_LONG | BAD_HEX | BAD_ADDRESS
    | BAD_PREFIX | BAD_TOKEN | BAD_PROFILE | BAD_BASE64 | BAD_CLAIM_MODE
    | INVALID_VAULT | INVALID_TOKEN | INVALID_METADATA_HASH | INVALID_CHAIN_ID | MODE_MISMATCH
    | MISSING_ENVELOPE | INVALID_MERCHANT | INVALID_RECIPIENT

  // ---------------------------------------------------------------------------------------
  // Hex
  // ---------------------------------------------------------------------------------------

  predicate IsHexChar(c: char) {
    '0' <= c <= '9' || 'a' <= c <= 'f' || 'A' <= c <= 'F'
  }

  function HexValue(c: char): (v: nat)
    requires IsHexChar(c)
    ensures v < 16
  {
    if '0' <= c <= '9' then c as int - '0' as int
    else if 'a' <= c <= 'f' then c as int - 'a' as int + 10
    else c as int - 'A' as int + 10
  }

  /** A hex digit, in upper case if asked and if it is a letter. */
  function HexChar(v: nat, upper: bool): (c: char)
    requires v < 16
    ensures IsHexChar(c) && HexValue(c) == v
    ensures !upper ==> !('A' <= c <= 'F')
    ensures v == 0 ==> c == '0'
  {
    if v < 10 then (v + '0' as int) as char
    else if upper then (v - 10 + 'A' as int) as char
    else (v - 10 + 'a' as int) as char
  }

  function StripPrefix(hex: string): string {
    if "0x" <= hex then hex[2..] else hex
  }

  predicate AllHex(s: string) {
    forall i | 0 <= i < |s| :: IsHexChar(s[i])
  }

  /** Byte k of a text of hex digits. */
  function ByteAt(digits: string, k: nat): byte
    requires AllHex(digits) && 2 * k + 1 < |digits|
  {
    HexValue(digits[2 * k]) * 16 + HexValue(digits[2 * k + 1])
  }

  /** The bytes of a hex text of exactly n bytes, with or without `0x`. */
  function HexToBytes(hex: string, n: nat): (r: Option<Bytes>)
    ensures r.Some? ==> |r.value| == n
  {
    var digits := StripPrefix(hex);
    if |digits| != 2 * n || !AllHex(digits) then None
    else Some(seq(n, k requires 0 <= k < n => ByteAt(digits, k)))
  }

  /** The nibble of a byte string that hex digit i shows. */
  function Nibble(bytes: Bytes, i: nat): (v: nat)
    requires i < 2 * |bytes|
    ensures v < 16
  {
    if i % 2 == 0 then bytes[i / 2] / 16 else bytes[i / 2] % 16
  }

  function HexText(bytes: Bytes, upper: int -> bool): (s: string)
    ensures |s| == 2 + 2 * |bytes| && s[..2] == "0x"
    ensures forall i | 0 <= i < 2 * |bytes| :: s[2 + i] == HexChar(Nibble(bytes, i), upper(i))
  {
    "0x" + seq(2 * |bytes|, i requires 0 <= i < 2 * |bytes| => HexChar(Nibble(bytes, i), upper(i)))
  }

  function BytesToHex(bytes: Bytes): string {
    HexText(bytes, i => false)
  }

  lemma NibblePair(bytes: Bytes, k: nat)
    requires k < |bytes|
    ensures Nibble(bytes, 2 * k) * 16 + Nibble(bytes, 2 * k + 1) == bytes[k]
  {
    assert 2 * k / 2 == k && (2 * k + 1) / 2 == k;
  }

  lemma HexTextLength(bytes: Bytes, upper: int -> bool)
    ensures StripPrefix(HexText(bytes, upper)) == HexText(bytes, upper)[2..]
  {
    assert HexText(bytes, upper)[..2] == "0x";
  }

  lemma HexTextDigits(bytes: Bytes, upper: int -> bool, i: nat)
    requires i < 2 * |bytes|
    ensures var digits := StripPrefix(HexText(bytes, upper));
      |digits| == 2 * |bytes| && digits[i] == HexChar(Nibble(bytes, i), upper(i))
  {
    HexTextLength(bytes, upper);
    assert HexText(bytes, upper)[2..][i] == HexText(bytes, upper)[2 + i];
  }

  lemma HexTextIsHex(bytes: Bytes, upper: int -> bool)
    ensures AllHex(StripPrefix(HexText(bytes, upper))) && |StripPrefix(HexText(bytes, upper))| == 2 * |bytes|
  {
    var digits := StripPrefix(HexText(bytes, upper));
    HexTextLength(bytes, upper);
    forall i | 0 <= i < |digits| ensures IsHexChar(digits[i]) {
      HexTextDigits(bytes, upper, i);
    }
  }

  lemma HexTextByte(bytes: Bytes, upper: int -> bool, k: nat)
    requires k < |bytes|
    ensures var digits := StripPrefix(HexText(bytes, upper));
      AllHex(digits) && |digits| == 2 * |bytes| && ByteAt(digits, k) == bytes[k]
  {
    HexTextIsHex(bytes, upper);
    HexTextDigits(bytes, upper, 2 * k);
    HexTextDigits(bytes, upper, 2 * k + 1);
    NibblePair(bytes, k);
  }

  lemma HexTextReads(bytes: Bytes, upper: int -> bool)
    ensures HexToBytes(HexText(bytes, upper), |bytes|) == Some(bytes)
  {
    var digits := StripPrefix(HexText(bytes, upper));
    HexTextIsHex(bytes, upper);
    forall k | 0 <= k < |bytes| ensures ByteAt(digits, k) == bytes[k] {
      HexTextByte(bytes, upper, k);
    }
    assert HexToBytes(HexText(bytes, upper), |bytes|).value == bytes;
  }

  // ---------------------------------------------------------------------------------------
  // Addresses. The checksum decides the case of each letter from the bytes; it is left arbitrary, and so are the
  // texts in bank-account form (ICAP) and the bytes they stand for, of which there may be more than twenty.
  // ---------------------------------------------------------------------------------------

  datatype AddressRules = AddressRules(upper: (Bytes, int) -> bool, icap: string -> Option<Bytes>)

  function ChecksumAddress(rules: AddressRules, bytes: Bytes): string {
    HexText(bytes, i => rules.upper(bytes, i))
  }

  predicate MixedCase(s: string) {
    (exists i :: 0 <= i < |s| && 'A' <= s[i] <= 'F') && (exists i :: 0 <= i < |s| && 'a' <= s[i] <= 'f')
  }

  /** The bytes a text stands for, if it has the form of an address. */
  function Denoted(rules: AddressRules, text: string): Option<Bytes> {
    if HexToBytes(text, 20).Some? then HexToBytes(text, 20) else rules.icap(text)
  }

  /** `getAddress`: a hex text in mixed case must carry the right checksum. */
  function GetAddress(rules: AddressRules, text: string): Option<string> {
    match Denoted(rules, text)
    case None => None
    case Some(bytes) =>
      var address := ChecksumAddress(rules, bytes);
      if HexToBytes(text, 20).Some? && MixedCase(text) && "0x" + StripPrefix(text) != address then None else Some(address)
  }

  predicate IsHexString32(text: string) {
    "0x" <= text && HexToBytes(text, 32).Some?
  }

  /** `isAddress` */
  predicate IsAddress(rules: AddressRules, text: string) {
    GetAddress(rules, text).Some?
  }

  /** An accepted address text that stands for twenty bytes. */
  predicate FitsAddress(rules: AddressRules, text: string) {
    GetAddress(rules, text).Some? && |Denoted(rules, text).value| == 20
  }

  lemma HexTextPrefixed(bytes: Bytes, upper: int -> bool)
    ensures "0x" + StripPrefix(HexText(bytes, upper)) == HexText(bytes, upper)
  {
    var s := HexText(bytes, upper);
    assert s == s[..2] + s[2..];
  }

  lemma LowerHexNotMixed(bytes: Bytes)
    ensures !MixedCase(BytesToHex(bytes))
  {
    var s := BytesToHex(bytes);
    forall i | 0 <= i < |s| ensures !('A' <= s[i] <= 'F') {
      LowerHexChar(bytes, i);
    }
  }

  lemma LowerHexChar(bytes: Bytes, i: nat)
    requires i < 2 + 2 * |bytes|
    ensures !('A' <= BytesToHex(bytes)[i] <= 'F')
  {
    var s := BytesToHex(bytes);
    if i < 2 {
      assert s[i] == s[..2][i];
    } else {
      assert s[2 + (i - 2)] == HexChar(Nibble(bytes, i - 2), false);
    }
  }

  lemma LowerHexIsAddress(rules: AddressRules, bytes: Bytes)
    requires |bytes| == 20
    ensures GetAddress(rules, BytesToHex(bytes)) == Some(ChecksumAddress(rules, bytes))
  {
    HexTextReads(bytes, i => false);
    LowerHexNotMixed(bytes);
  }

  /** Only twenty bytes make a hex text of forty digits. */
  lemma ChecksumAddressReads(rules: AddressRules, bytes: Bytes)
    ensures HexToBytes(ChecksumAddress(rules, bytes), 20) == if |bytes| == 20 then Some(bytes) else None
  {
    HexTextReads(bytes, i => rules.upper(bytes, i));
    HexTextLength(bytes, i => rules.upper(bytes, i));
  }

  /** The normal form of a fitting address text is a fixed point that stands for the same bytes. */
  lemma AddressBytes(rules: AddressRules, text: string)
    requires FitsAddress(rules, text)
    ensures GetAddress(rules, text).value == ChecksumAddress(rules, Denoted(rules, text).value)
    ensures HexToBytes(GetAddress(rules, text).value, 20) == Denoted(rules, text)
    ensures GetAddress(rules, BytesToHex(Denoted(rules, text).value)) == GetAddress(rules, text)
    ensures GetAddress(rules, GetAddress(rules, text).value) == GetAddress(rules, text)
  {
    var bytes := Denoted(rules, text).value;
    ChecksumAddressReads(rules, bytes);
    HexTextPrefixed(bytes, i => rules.upper(bytes, i));
    LowerHexIsAddress(rules, bytes);
  }

  // ---------------------------------------------------------------------------------------
  // Writing
  // ---------------------------------------------------------------------------------------

  function Power256(k: nat): (p: nat)
    ensures p > 0
  {
    if k == 0 then 1 else 256 * Power256(k - 1)
  }

  /** The k low-order bytes of n, most significant first. */
  function BigEndian(n: nat, k: nat): (bs: Bytes)
    ensures |bs| == k
  {
    if k == 0 then [] else BigEndian(n / 256, k - 1) + [n % 256]
  }

  function Number(bs: Bytes): nat {
    if |bs| == 0 then 0 else 256 * Number(bs[..|bs| - 1]) + bs[|bs| - 1]
  }

  function Uint(n: int, k: nat): Result<Bytes, Error> {
    if 0 <= n < Power256(k) then Ok(BigEndian(n, k)) else Err(UINT_OUT_OF_RANGE)
  }

  function Str(s: Bytes): Result<Bytes, Error> {
    if |s| > 0xffff then Err(STRING_TOO_LONG) else Ok(BigEndian(|s|, 2) + s)
  }

  function Address(rules: AddressRules, text: string): Result<Bytes, Error> {
    match GetAddress(rules, text)
    case None => Err(BAD_ADDRESS)
    case Some(address) => FixedHex(address, 20)
  }

  function FixedHex(text: string, n: nat): Result<Bytes, Error> {
    match HexToBytes(text, n)
    case None => Err(BAD_HEX)
    case Some(bytes) => Ok(bytes)
  }

  /** A tag byte, and the value if the tag is 1. */
  function Tagged(present: bool, value: Result<Bytes, Error>): Result<Bytes, Error> {
    if !present then Ok([0])
    else
      var bytes :- value;
      Ok([1] + bytes)
  }

  // ---------------------------------------------------------------------------------------
  // Reading: each reader consumes a prefix and returns the rest
  // ---------------------------------------------------------------------------------------

  function ReadBytes(bs: Bytes, n: nat): Result<(Bytes, Bytes), Error> {
    if |bs| < n then Err(MALFORMED_PAYLOAD) else Ok((bs[..n], bs[n..]))
  }

  function ReadUint(bs: Bytes, k: nat): Result<(nat, Bytes), Error> {
    var (v, rest) :- ReadBytes(bs, k);
    Ok((Number(v), rest))
  }

  function ReadStr(bs: Bytes): Result<(Bytes, Bytes), Error> {
    var (n, rest) :- ReadUint(bs, 2);
    ReadBytes(rest, n)
  }

  function ReadAddress(rules: AddressRules, bs: Bytes): Result<(string, Bytes), Error> {
    var (v, rest) :- ReadBytes(bs, 20);
    match GetAddress(rules, BytesToHex(v))
    case None => Err(BAD_ADDRESS)
    case Some(address) => Ok((address, rest))
  }

  function ReadBytes32(bs: Bytes): Result<(string, Bytes), Error> {
    var (v, rest) :- ReadBytes(bs, 32);
    Ok((BytesToHex(v), rest))
  }

  /** Any tag but 1 reads as absent. */
  function ReadOptionalStr(bs: Bytes): Result<(Option<Bytes>, Bytes), Error> {
    var (tag, rest) :- ReadUint(bs, 1);
    if tag != 1 then Ok((None, rest))
    else
      var (v, rest) :- ReadStr(rest);
      Ok((Some(v), rest))
  }

  function ReadOptionalBytes32(bs: Bytes): Result<(Option<string>, Bytes), Error> {
    var (tag, rest) :- ReadUint(bs, 1);
    if tag != 1 then Ok((None, rest))
    else
      var (v, rest) :- ReadBytes32(rest);
      Ok((Some(v), rest))
  }

  function ReadOptionalUint64(bs: Bytes): Result<(Option<int>, Bytes), Error> {
    var (tag, rest) :- ReadUint(bs, 1);
    if tag != 1 then Ok((None, rest))
    else
      var (v, rest) :- ReadUint(rest, 8);
      Ok((Some(v as int), rest))
  }

  // ---------------------------------------------------------------------------------------
  // Each reader takes back exactly what its writer put down
  // ---------------------------------------------------------------------------------------

  lemma {:induction false} NumberOfBigEndian(n: nat, k: nat)
    requires n < Power256(k)
    ensures Number(BigEndian(n, k)) == n
  {
    if k == 0 {
    } else {
      NumberOfBigEndian(n / 256, k - 1);
      assert BigEndian(n, k)[..k - 1] == BigEndian(n / 256, k - 1);
    }
  }

  lemma ReadBytesOf(v: Bytes, rest: Bytes)
    ensures ReadBytes(v + rest, |v|) == Ok((v, rest))
  {
    assert (v + rest)[..|v|] == v && (v + rest)[|v|..] == rest;
  }

  lemma UintRoundTrip(n: int, k: nat, rest: Bytes)
    requires Uint(n, k).Ok?
    ensures ReadUint(Uint(n, k).value + rest, k) == Ok((n, rest))
  {
    NumberOfBigEndian(n, k);
    ReadBytesOf(BigEndian(n, k), rest);
  }

  lemma StrRoundTrip(s: Bytes, rest: Bytes)
    requires Str(s).Ok?
    ensures ReadStr(Str(s).value + rest) == Ok((s, rest))
  {
    assert Power256(2) == 256 * Power256(1) == 65536;
    UintRoundTrip(|s|, 2, s + rest);
    assert Str(s).value + rest == BigEndian(|s|, 2) + (s + rest);
    ReadBytesOf(s, rest);
  }

  /** An address is written exactly when it is accepted and stands for twenty bytes. */
  lemma AddressWritesIff(rules: AddressRules, text: string)
    ensures Address(rules, text) == (if GetAddress(rules, text).None? then Err(BAD_ADDRESS)
                                     else if FitsAddress(rules, text) then Ok(Denoted(rules, text).value)
                                     else Err(BAD_HEX))
  {
    if GetAddress(rules, text).Some? {
      ChecksumAddressReads(rules, Denoted(rules, text).value);
    }
  }

  lemma AddressRoundTrip(rules: AddressRules, text: string, rest: Bytes)
    requires Address(rules, text).Ok?
    ensures FitsAddress(rules, text)
    ensures ReadAddress(rules, Address(rules, text).value + rest) == Ok((GetAddress(rules, text).value, rest))
  {
    AddressWritesIff(rules, text);
    AddressBytes(rules, text);
    ReadBytesOf(Address(rules, text).value, rest);
  }

  lemma Bytes32RoundTrip(text: string, rest: Bytes)
    requires FixedHex(text, 32).Ok?
    ensures ReadBytes32(FixedHex(text, 32).value + rest) == Ok((BytesToHex(FixedHex(text, 32).value), rest))
  {
    ReadBytesOf(FixedHex(text, 32).value, rest);
  }

  lemma TagReads(tag: byte, rest: Bytes)
    ensures ReadUint([tag] + rest, 1) == Ok((tag as nat, rest))
  {
    ReadBytesOf([tag], rest);
    assert [tag][..0] == [];
    assert Number([tag]) == 256 * Number([]) + tag;
  }

  lemma OptionalStrRoundTrip(present: bool, s: Bytes, rest: Bytes)
    requires Tagged(present, Str(s)).Ok?
    ensures ReadOptionalStr(Tagged(present, Str(s)).value + rest) == Ok((if present then Some(s) else None, rest))
  {
    if present {
      StrRoundTrip(s, rest);
      TagReads(1, Str(s).value + rest);
      assert Tagged(present, Str(s)).value + rest == [1] + (Str(s).value + rest);
    } else {
      TagReads(0, rest);
    }
  }

  lemma OptionalBytes32RoundTrip(present: bool, text: string, rest: Bytes)
    requires Tagged(present, FixedHex(text, 32)).Ok?
    ensures present ==> FixedHex(text, 32).Ok?
    ensures ReadOptionalBytes32(Tagged(present, FixedHex(text, 32)).value + rest)
         == Ok((if present then Some(BytesToHex(FixedHex(text, 32).value)) else None, rest))
  {
    if present {
      Bytes32RoundTrip(text, rest);
      TagReads(1, FixedHex(text, 32).value + rest);
      assert Tagged(present, FixedHex(text, 32)).value + rest == [1] + (FixedHex(text, 32).value + rest);
    } else {
      TagReads(0, rest);
    }
  }

  lemma OptionalUint64RoundTrip(present: bool, n: int, rest: Bytes)
    requires Tagged(present, Uint(n, 8)).Ok?
    ensures ReadOptionalUint64(Tagged(present, Uint(n, 8)).value + rest) == Ok((if present then Some(n) else None, rest))
  {
    if present {
      UintRoundTrip(n, 8, rest);
      TagReads(1, Uint(n, 8).value + rest);
      assert Tagged(present, Uint(n, 8)).value + rest == [1] + (Uint(n, 8).value + rest);
    } else {
      TagReads(0, rest);
    }
  }

  // ---------------------------------------------------------------------------------------
  // More input never changes what a reader has read
  // ---------------------------------------------------------------------------------------

  lemma ReadBytesExtends(bs: Bytes, n: nat, more: Bytes)
    requires ReadBytes(bs, n).Ok?
    ensures ReadBytes(bs + more, n) == Ok((ReadBytes(bs, n).value.0, ReadBytes(bs, n).value.1 + more))
  {
    assert (bs + more)[..n] == bs[..n] && (bs + more)[n..] == bs[n..] + more;
  }

  lemma ReadUintExtends(bs: Bytes, k: nat, more: Bytes)
    requires ReadUint(bs, k).Ok?
    ensures ReadUint(bs + more, k) == Ok((ReadUint(bs, k).value.0, ReadUint(bs, k).value.1 + more))
  {
    ReadBytesExtends(bs, k, more);
  }

  lemma ReadStrExtends(bs: Bytes, more: Bytes)
    requires ReadStr(bs).Ok?
    ensures ReadStr(bs + more) == Ok((ReadStr(bs).value.0, ReadStr(bs).value.1 + more))
  {
    ReadUintExtends(bs, 2, more);
    var (n, rest) := ReadUint(bs, 2).value;
    ReadBytesExtends(rest, n, more);
  }

  lemma ReadAddressExtends(rules: AddressRules, bs: Bytes, more: Bytes)
    requires ReadAddress(rules, bs).Ok?
    ensures ReadAddress(rules, bs + more) == Ok((ReadAddress(rules, bs).value.0, ReadAddress(rules, bs).value.1 + more))
  {
    ReadBytesExtends(bs, 20, more);
  }

  lemma ReadBytes32Extends(bs: Bytes, more: Bytes)
    requires ReadBytes32(bs).Ok?
    ensures ReadBytes32(bs + more) == Ok((ReadBytes32(bs).value.0, ReadBytes32(bs).value.1 + more))
  {
    ReadBytesExtends(bs, 32, more);
  }

  lemma ReadOptionalStrExtends(bs: Bytes, more: Bytes)
    requires ReadOptionalStr(bs).Ok?
    ensures ReadOptionalStr(bs + more) == Ok((ReadOptionalStr(bs).value.0, ReadOptionalStr(bs).value.1 + more))
  {
    ReadUintExtends(bs, 1, more);
    var (tag, rest) := ReadUint(bs, 1).value;
    if tag == 1 {
      ReadStrExtends(rest, more);
    }
  }

  lemma ReadOptionalBytes32Extends(bs: Bytes, more: Bytes)
    requires ReadOptionalBytes32(bs).Ok?
    ensures ReadOptionalBytes32(bs + more) == Ok((ReadOptionalBytes32(bs).value.0, ReadOptionalBytes32(bs).value.1 + more))
  {
    ReadUintExtends(bs, 1, more);
    var (tag, rest) := ReadUint(bs, 1).value;
    if tag == 1 {
      ReadBytes32Extends(rest, more);
    }
  }

  lemma ReadOptionalUint64Extends(bs: Bytes, more: Bytes)
    requires ReadOptionalUint64(bs).Ok?
    ensures ReadOptionalUint64(bs + more) == Ok((ReadOptionalUint64(bs).value.0, ReadOptionalUint64(bs).value.1 + more))
  {
    ReadUintExtends(bs, 1, more);
    var (tag, rest) := ReadUint(bs, 1).value;
    if tag == 1 {
      ReadUintExtends(rest, 8, more);
    }
  }
}
