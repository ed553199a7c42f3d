/** What the readers take from bytes that nobody need have written. */
module WireReads {
  import opened Text
  import opened Base64Url
  import opened Wire

  lemma {:induction false} NumberFits(bs: Bytes)
    ensures Number(bs) < Power256(|bs|) && BigEndian(Number(bs), |bs|) == bs
  {
    if |bs| == 0 {
    } else {
      var front := bs[..|bs| - 1];
      NumberFits(front);
      assert Number(bs) / 256 == Number(front) && Number(bs) % 256 == bs[|bs| - 1];
      assert bs == front + [bs[|bs| - 1]];
    }
  }

  lemma ReadBytesIff(bs: Bytes, k: nat, v: Bytes, rest: Bytes)
    ensures ReadBytes(bs, k) == Ok((v, rest)) <==> |v| == k && bs == v + rest
  {
    if |v| == k && bs == v + rest {
      ReadBytesOf(v, rest);
    }
  }

  /** A number is read exactly from the k bytes that write it. */
  lemma ReadUintIff(bs: Bytes, k: nat, n: nat, rest: Bytes)
    ensures ReadUint(bs, k) == Ok((n, rest)) <==> n < Power256(k) && bs == BigEndian(n, k) + rest
  {
    if n < Power256(k) && bs == BigEndian(n, k) + rest {
      UintRoundTrip(n, k, rest);
    }
    if ReadUint(bs, k) == Ok((n, rest)) {
      NumberFits(bs[..k]);
    }
  }

  /** A text is read exactly from what writes it. */
  lemma ReadStrIff(bs: Bytes, s: Bytes, rest: Bytes)
    ensures ReadStr(bs) == Ok((s, rest)) <==> |s| <= 0xffff && bs == BigEndian(|s|, 2) + (s + rest)
  {
    if |s| <= 0xffff && bs == BigEndian(|s|, 2) + (s + rest) {
      StrRoundTrip(s, rest);
      assert bs == Str(s).value + rest;
    }
    if ReadStr(bs) == Ok((s, rest)) {
      StrWasWritten(bs, s, rest);
    }
  }

  lemma TwoBytes()
    ensures Power256(2) == 65536
  {
    assert Power256(1) == 256 * Power256(0);
  }

  lemma StrWasWritten(bs: Bytes, s: Bytes, rest: Bytes)
    requires ReadStr(bs) == Ok((s, rest))
    ensures |s| <= 0xffff && bs == BigEndian(|s|, 2) + (s + rest)
  {
    var (n, behind) := ReadUint(bs, 2).value;
    TwoBytes();
    ReadUintIff(bs, 2, n, behind);
    ReadBytesIff(behind, n, s, rest);
  }

  /** Any twenty bytes are read, as the checksummed text of the address they are. */
  lemma ReadAddressIs(rules: AddressRules, bs: Bytes)
    ensures ReadAddress(rules, bs) ==
      if |bs| < 20 then Err(MALFORMED_PAYLOAD) else Ok((ChecksumAddress(rules, bs[..20]), bs[20..]))
  {
    if |bs| >= 20 {
      LowerHexIsAddress(rules, bs[..20]);
    }
  }

  /** A value is read behind the tag 1 only; behind any other tag there is none, and nothing is taken. */
  lemma ReadOptionalStrIff(bs: Bytes, v: Option<Bytes>, rest: Bytes)
    ensures ReadOptionalStr(bs) == Ok((v, rest)) <==>
      if v.None? then |bs| > 0 && bs[0] != 1 && bs[1..] == rest
      else |v.value| <= 0xffff && bs == [1] + (BigEndian(|v.value|, 2) + (v.value + rest))
  {
    TagOf(bs);
    if v.Some? && |bs| > 0 {
      ReadStrIff(bs[1..], v.value, rest);
      Behind1(bs, BigEndian(|v.value|, 2) + (v.value + rest));
    }
  }

  lemma ReadOptionalBytes32Iff(bs: Bytes, v: Option<string>, rest: Bytes)
    ensures ReadOptionalBytes32(bs) == Ok((v, rest)) <==>
      if v.None? then |bs| > 0 && bs[0] != 1 && bs[1..] == rest
      else |bs| >= 33 && bs[0] == 1 && v.value == BytesToHex(bs[1..33]) && bs[33..] == rest
  {
    TagOf(bs);
    if |bs| >= 33 {
      assert bs[1..][..32] == bs[1..33] && bs[1..][32..] == bs[33..];
    }
  }

  lemma ReadOptionalUint64Iff(bs: Bytes, v: Option<int>, rest: Bytes)
    ensures ReadOptionalUint64(bs) == Ok((v, rest)) <==>
      if v.None? then |bs| > 0 && bs[0] != 1 && bs[1..] == rest
      else 0 <= v.value < Power256(8) && bs == [1] + (BigEndian(v.value, 8) + rest)
  {
    TagOf(bs);
    if v.Some? && v.value >= 0 && |bs| > 0 {
      ReadUintIff(bs[1..], 8, v.value, rest);
      Behind1(bs, BigEndian(v.value, 8) + rest);
    }
  }

  lemma TagOf(bs: Bytes)
    ensures ReadUint(bs, 1) == if |bs| == 0 then Err(MALFORMED_PAYLOAD) else Ok((bs[0] as nat, bs[1..]))
  {
    if |bs| > 0 {
      assert bs == [bs[0]] + bs[1..];
      TagReads(bs[0], bs[1..]);
    }
  }

  lemma Behind1(bs: Bytes, tail: Bytes)
    requires |bs| > 0
    ensures bs == [1] + tail <==> bs[0] == 1 && bs[1..] == tail
  {
    if bs[0] == 1 && bs[1..] == tail {
      assert bs == [bs[0]] + bs[1..];
    }
    if bs == [1] + tail {
      assert bs[1..] == tail;
    }
  }
}
