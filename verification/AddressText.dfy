/** Which texts are hex text and which are addresses, and what bytes they stand for, letter by letter and without the
    reader's own functions. */
module AddressText {
  import opened Text
  import opened Base64Url
  import opened Wire

  /** What follows `0x`, or the whole text. */
  function Digits(text: string): string {
    if |text| >= 2 && text[0] == '0' && text[1] == 'x' then text[2..] else text
  }

  predicate IsHexDigit(c: char) {
    '0' <= c <= '9' || 'a' <= c <= 'f' || 'A' <= c <= 'F'
  }

  /** Two hex digits for each of n bytes, behind `0x` or not. */
  predicate IsHexText(text: string, n: nat) {
    |Digits(text)| == 2 * n && forall i | 0 <= i < 2 * n :: IsHexDigit(Digits(text)[i])
  }

  function DigitValue(c: char): (v: nat)
    requires IsHexDigit(c)
    ensures v < 16
  {
    if '0' <= c <= '9' then c as int - '0' as int
    else if 'a' <= c <= 'f' then c as int - 'a' as int + 10
    else c as int - 'A' as int + 10
  }

  /** The n bytes that the digits spell, two digits to a byte. */
  function Spelled(text: string, n: nat): (bytes: Bytes)
    requires IsHexText(text, n)
    ensures |bytes| == n
    ensures forall k | 0 <= k < n :: bytes[k] == DigitValue(Digits(text)[2 * k]) * 16 + DigitValue(Digits(text)[2 * k + 1])
  {
    seq(n, k requires 0 <= k < n => DigitValue(Digits(text)[2 * k]) * 16 + DigitValue(Digits(text)[2 * k + 1]))
  }

  predicate NoUpper(digits: string) {
    forall i | 0 <= i < |digits| :: !('A' <= digits[i] <= 'F')
  }

  predicate NoLower(digits: string) {
    forall i | 0 <= i < |digits| :: !('a' <= digits[i] <= 'f')
  }

  predicate LetterFollows(rules: AddressRules, bytes: Bytes, digits: string, i: nat)
    requires i < |digits|
  {
    '0' <= digits[i] <= '9' || ('A' <= digits[i] <= 'F' <==> rules.upper(bytes, i))
  }

  /** Each letter is in upper case exactly where the checksum of the bytes says so. */
  ghost predicate LettersFollow(rules: AddressRules, bytes: Bytes, digits: string) {
    forall i | 0 <= i < |digits| :: LetterFollows(rules, bytes, digits, i)
  }

  lemma StripIsDigits(text: string)
    ensures StripPrefix(text) == Digits(text)
    ensures "0x" <= text <==> |text| >= 2 && text[0] == '0' && text[1] == 'x'
  {
  }

  lemma HexCharsAreDigits(s: string)
    ensures AllHex(s) <==> forall i | 0 <= i < |s| :: IsHexDigit(s[i])
    ensures forall c | IsHexDigit(c) :: IsHexChar(c) && HexValue(c) == DigitValue(c)
  {
    forall c ensures IsHexChar(c) <==> IsHexDigit(c) { }
  }

  /** Reading hex text gives the bytes its digits spell, and fails exactly on texts that are no such text. */
  lemma DigitsSpellBytes(text: string, n: nat)
    ensures HexToBytes(text, n) == if IsHexText(text, n) then Some(Spelled(text, n)) else None
  {
    StripIsDigits(text);
    HexCharsAreDigits(Digits(text));
    if IsHexText(text, n) {
      forall k | 0 <= k < n ensures ByteAt(Digits(text), k) == Spelled(text, n)[k] { }
      assert HexToBytes(text, n).value == Spelled(text, n);
    }
  }

  lemma TwoNibbles(a: nat, b: nat)
    requires b < 16
    ensures (a * 16 + b) / 16 == a && (a * 16 + b) % 16 == b
  {
  }

  lemma NibbleOfDigit(text: string, i: nat)
    requires IsHexText(text, 20) && i < 40
    ensures Nibble(Spelled(text, 20), i) == DigitValue(Digits(text)[i])
  {
    var k := i / 2;
    TwoNibbles(DigitValue(Digits(text)[2 * k]), DigitValue(Digits(text)[2 * k + 1]));
    assert Spelled(text, 20)[k] == DigitValue(Digits(text)[2 * k]) * 16 + DigitValue(Digits(text)[2 * k + 1]);
    assert i == 2 * k || i == 2 * k + 1;
  }

  lemma HexCharIsDigit(c: char, upper: bool)
    requires IsHexDigit(c)
    ensures HexChar(DigitValue(c), upper) == c <==> '0' <= c <= '9' || ('A' <= c <= 'F' <==> upper)
  {
  }

  lemma LetterOfChecksum(rules: AddressRules, text: string, i: nat)
    requires IsHexText(text, 20) && i < 40
    ensures ChecksumAddress(rules, Spelled(text, 20))[2 + i] == Digits(text)[i] <==> LetterFollows(rules, Spelled(text, 20), Digits(text), i)
  {
    NibbleOfDigit(text, i);
    HexCharIsDigit(Digits(text)[i], rules.upper(Spelled(text, 20), i));
  }

  /** The checksummed text of some bytes is the one that follows the rule. */
  lemma ChecksumFollows(rules: AddressRules, text: string)
    requires IsHexText(text, 20)
    ensures "0x" + Digits(text) == ChecksumAddress(rules, Spelled(text, 20)) <==> LettersFollow(rules, Spelled(text, 20), Digits(text))
  {
    var s, t := ChecksumAddress(rules, Spelled(text, 20)), "0x" + Digits(text);
    assert s[..2] == t[..2] == "0x" && |s| == |t| == 42;
    forall i | 0 <= i < 40 ensures s[2 + i] == t[2 + i] <==> LetterFollows(rules, Spelled(text, 20), Digits(text), i) {
      LetterOfChecksum(rules, text, i);
    }
    if LettersFollow(rules, Spelled(text, 20), Digits(text)) {
      forall k | 0 <= k < 42 ensures s[k] == t[k] {
        if k < 2 {
          assert s[k] == s[..2][k] && t[k] == t[..2][k];
        } else {
          assert LetterFollows(rules, Spelled(text, 20), Digits(text), k - 2) && s[2 + (k - 2)] == t[2 + (k - 2)];
        }
      }
    }
  }

  lemma MixedIffBoth(text: string)
    requires IsHexText(text, 20)
    ensures MixedCase(text) <==> !NoUpper(Digits(text)) && !NoLower(Digits(text))
  {
    UpperIff(text);
    LowerIff(text);
  }

  lemma LettersAreDigits(text: string, i: nat)
    requires IsHexText(text, 20) && i < |text|
    ensures if i < |text| - 40 then text[i] == '0' || text[i] == 'x' else text[i] == Digits(text)[i - (|text| - 40)]
  {
  }

  lemma UpperIff(text: string)
    requires IsHexText(text, 20)
    ensures (exists i :: 0 <= i < |text| && 'A' <= text[i] <= 'F') <==> !NoUpper(Digits(text))
  {
    var d, n := Digits(text), |text| - 40;
    forall i: nat | i < |text| && 'A' <= text[i] <= 'F' ensures !NoUpper(d) {
      LettersAreDigits(text, i);
      assert 'A' <= d[i - n] <= 'F';
    }
    if !NoUpper(d) {
      var i :| 0 <= i < |d| && 'A' <= d[i] <= 'F';
      LettersAreDigits(text, n + i);
      assert 'A' <= text[n + i] <= 'F';
    }
  }

  lemma LowerIff(text: string)
    requires IsHexText(text, 20)
    ensures (exists i :: 0 <= i < |text| && 'a' <= text[i] <= 'f') <==> !NoLower(Digits(text))
  {
    var d, n := Digits(text), |text| - 40;
    forall i: nat | i < |text| && 'a' <= text[i] <= 'f' ensures !NoLower(d) {
      LettersAreDigits(text, i);
      assert 'a' <= d[i - n] <= 'f';
    }
    if !NoLower(d) {
      var i :| 0 <= i < |d| && 'a' <= d[i] <= 'f';
      LettersAreDigits(text, n + i);
      assert 'a' <= text[n + i] <= 'f';
    }
  }

  /** A text of forty hex digits is an address exactly if its letters are all of one case or follow the checksum; any
      other text is one exactly if ICAP knows it. */
  lemma IsAddressIff(rules: AddressRules, text: string)
    ensures IsHexText(text, 20) ==>
      (IsAddress(rules, text) <==> NoUpper(Digits(text)) || NoLower(Digits(text)) || LettersFollow(rules, Spelled(text, 20), Digits(text)))
    ensures !IsHexText(text, 20) ==> (IsAddress(rules, text) <==> rules.icap(text).Some?)
  {
    DigitsSpellBytes(text, 20);
    StripIsDigits(text);
    if IsHexText(text, 20) {
      MixedIffBoth(text);
      ChecksumFollows(rules, text);
    }
  }

  /** What an address stands for: the bytes its digits spell, or what ICAP says. */
  lemma DenotedIs(rules: AddressRules, text: string)
    ensures Denoted(rules, text) == if IsHexText(text, 20) then Some(Spelled(text, 20)) else rules.icap(text)
  {
    DigitsSpellBytes(text, 20);
  }

  /** The same letter in the other case. */
  predicate OtherCase(c: char, d: char) {
    ('a' <= c <= 'f' && d as int == c as int - 32) || ('A' <= c <= 'F' && d as int == c as int + 32)
  }

  predicate Mixed(digits: string) {
    !NoUpper(digits) && !NoLower(digits)
  }

  lemma OtherCaseSameBytes(text: string, i: nat, c: char)
    requires IsHexText(text, 20) && |text| - 40 <= i < |text| && OtherCase(text[i], c)
    ensures var t := text[i := c];
      IsHexText(t, 20) && Digits(t) == Digits(text)[i - (|text| - 40) := c] && Spelled(t, 20) == Spelled(text, 20)
  {
    var t, j := text[i := c], i - (|text| - 40);
    assert Digits(text)[j] == text[i];
    assert Digits(t) == Digits(text)[j := c];
    forall k | 0 <= k < 40 ensures IsHexDigit(Digits(t)[k]) && DigitValue(Digits(t)[k]) == DigitValue(Digits(text)[k]) { }
    assert Spelled(t, 20) == Spelled(text, 20);
  }

  lemma MixedIsAddressIff(rules: AddressRules, text: string)
    requires IsHexText(text, 20) && Mixed(Digits(text))
    ensures IsAddress(rules, text) <==> LettersFollow(rules, Spelled(text, 20), Digits(text))
  {
    IsAddressIff(rules, text);
  }

  lemma FollowsInOneCase(rules: AddressRules, bytes: Bytes, digits: string, j: nat, c: char)
    requires |digits| == 40 && j < 40 && OtherCase(digits[j], c) && LettersFollow(rules, bytes, digits)
    ensures !LettersFollow(rules, bytes, digits[j := c])
  {
    assert LetterFollows(rules, bytes, digits, j);
    assert !LetterFollows(rules, bytes, digits[j := c], j);
  }

  /** Changing the case of one letter of a mixed-case address, so that both cases still occur, makes it none. */
  lemma OneLetterBreaksChecksum(rules: AddressRules, text: string, i: nat, c: char)
    requires IsAddress(rules, text) && IsHexText(text, 20) && |text| - 40 <= i < |text| && OtherCase(text[i], c)
    requires Mixed(Digits(text)) && Mixed(Digits(text[i := c]))
    ensures !IsAddress(rules, text[i := c])
  {
    OtherCaseSameBytes(text, i, c);
    MixedIsAddressIff(rules, text);
    MixedIsAddressIff(rules, text[i := c]);
    FollowsInOneCase(rules, Spelled(text, 20), Digits(text), i - (|text| - 40), c);
  }
}
