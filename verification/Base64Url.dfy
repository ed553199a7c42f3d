/** Base64 with the URL-safe alphabet and without padding (RFC 4648, sections 4, 5 and 3.2). */
module Base64Url {
  import opened Text

  type byte = b: int | 0 <= b < 256

  type digit = d: int | 0 <= d < 64

  // ---------------------------------------------------------------------------------------
  // The standard alphabet, with padding
  // ---------------------------------------------------------------------------------------

  function Letter(d: digit): (c: char)
    ensures Value(c) == Some(d)
  {
    if d < 26 then (d + 'A' as int) as char
    else if d < 52 then (d - 26 + 'a' as int) as char
    else if d < 62 then (d - 52 + '0' as int) as char
    else if d == 62 then '+'
    else '/'
  }

  function Value(c: char): Option<digit> {
    if 'A' <= c <= 'Z' then Some(c as int - 'A' as int)
    else if 'a' <= c <= 'z' then Some(c as int - 'a' as int + 26)
    else if '0' <= c <= '9' then Some(c as int - '0' as int + 52)
    else if c == '+' then Some(62)
    else if c == '/' then Some(63)
    else None
  }

  function Letters(ds: seq<digit>): (s: string)
    ensures |s| == |ds| && forall i | 0 <= i < |ds| :: s[i] == Letter(ds[i])
  {
    seq(|ds|, i requires 0 <= i < |ds| => Letter(ds[i]))
  }

  function Digits3(x: byte, y: byte, z: byte): (ds: seq<digit>)
    ensures |ds| == 4
  {
    [x / 4, x % 4 * 16 + y / 16, y % 16 * 4 + z / 64, z % 64]
  }

  /** Each group of 24 bits, cut into four groups of six; a shorter last group is filled with zero bits and '='. */
  function EncodeBase64(bytes: seq<byte>): string {
    if |bytes| == 0 then ""
    else if |bytes| == 1 then
      [Letter(bytes[0] / 4), Letter(bytes[0] % 4 * 16), '=', '=']
    else if |bytes| == 2 then
      [Letter(bytes[0] / 4), Letter(bytes[0] % 4 * 16 + bytes[1] / 16), Letter(bytes[1] % 16 * 4), '=']
    else
      Letters(Digits3(bytes[0], bytes[1], bytes[2])) + EncodeBase64(bytes[3..])
  }

  /** `atob`: white space is skipped, up to two trailing '=' are dropped from a padded string, left-over bits are
      ignored. */
  function DecodeBase64(s: string): Option<seq<byte>> {
    DecodeUnpadded(StripPadding(DropSpaces(s)))
  }

  predicate IsSpace(c: char) {
    c == ' ' || c == '\t' || c == '\n' || c == '\r' || c as int == 12
  }

  function DropSpaces(s: string): string {
    if |s| == 0 then "" else DropSpaces(s[..|s| - 1]) + (if IsSpace(s[|s| - 1]) then "" else [s[|s| - 1]])
  }

  lemma {:induction false} NoSpacesToDrop(s: string)
    requires forall i | 0 <= i < |s| :: !IsSpace(s[i])
    ensures DropSpaces(s) == s
  {
    if |s| == 0 {
    } else {
      NoSpacesToDrop(s[..|s| - 1]);
    }
  }

  function StripPadding(s: string): string {
    if |s| % 4 == 0 && |s| > 0 && s[|s| - 1] == '=' then
      if s[|s| - 2] == '=' then s[..|s| - 2] else s[..|s| - 1]
    else s
  }

  // The three bytes of four digits.

  function First(a: digit, b: digit): byte {
    (a as int) * 4 + b / 16
  }

  function Second(b: digit, c: digit): byte {
    (b as int) % 16 * 16 + c / 4
  }

  function Third(c: digit, d: digit): byte {
    (c as int) % 4 * 64 + d
  }

  function DecodeUnpadded(s: string): Option<seq<byte>> {
    if |s| == 0 then Some([])
    else if |s| == 1 then None
    else
      match (Value(s[0]), Value(s[1]))
      case (Some(a), Some(b)) =>
        if |s| == 2 then Some([First(a, b)])
        else (
          match Value(s[2])
          case None => None
          case Some(c) =>
            if |s| == 3 then Some([First(a, b), Second(b, c)])
            else (
              match (Value(s[3]), DecodeUnpadded(s[4..]))
              case (Some(d), Some(rest)) => Some([First(a, b), Second(b, c), Third(c, d)] + rest)
              case _ => None))
      case _ => None
  }

  // ---------------------------------------------------------------------------------------
  // The URL-safe form
  // ---------------------------------------------------------------------------------------

  function ToUrlChar(c: char): char {
    if c == '+' then '-' else if c == '/' then '_' else c
  }

  function FromUrlChar(c: char): char {
    if c == '-' then '+' else if c == '_' then '/' else c
  }

  function Replace(f: char -> char, s: string): (r: string)
    ensures |r| == |s| && forall i | 0 <= i < |s| :: r[i] == f(s[i])
  {
    seq(|s|, i requires 0 <= i < |s| => f(s[i]))
  }

  /** `.replace(/=/g, '')` */
  function DropPadding(s: string): string {
    if |s| == 0 then "" else DropPadding(s[..|s| - 1]) + (if s[|s| - 1] == '=' then "" else [s[|s| - 1]])
  }

  function Equals(n: nat): (s: string)
    ensures |s| == n && forall i | 0 <= i < n :: s[i] == '='
  {
    seq(n, i => '=')
  }

  function Encode(bytes: seq<byte>): string {
    DropPadding(Replace(ToUrlChar, EncodeBase64(bytes)))
  }

  function Repad(base64: string): string {
    base64 + Equals((4 - |base64| % 4) % 4)
  }

  function Decode(token: string): Option<seq<byte>> {
    DecodeBase64(Repad(Replace(FromUrlChar, token)))
  }

  // ---------------------------------------------------------------------------------------
  // Round trip
  // ---------------------------------------------------------------------------------------

  predicate IsLetter(c: char) {
    Value(c).Some?
  }

  /** The encoding without its padding. */
  function Body(bytes: seq<byte>): (s: string)
    ensures forall i | 0 <= i < |s| :: IsLetter(s[i])
    ensures |s| == (4 * |bytes| + 2) / 3
  {
    if |bytes| == 0 then ""
    else if |bytes| == 1 then [Letter(bytes[0] / 4), Letter(bytes[0] % 4 * 16)]
    else if |bytes| == 2 then [Letter(bytes[0] / 4), Letter(bytes[0] % 4 * 16 + bytes[1] / 16), Letter(bytes[1] % 16 * 4)]
    else
      Letters(Digits3(bytes[0], bytes[1], bytes[2])) + Body(bytes[3..])
  }

  lemma BodySteps(bytes: seq<byte>)
    requires |bytes| >= 3
    ensures |Body(bytes)| == |Body(bytes[3..])| + 4
    ensures EncodeBase64(bytes) == Letters(Digits3(bytes[0], bytes[1], bytes[2])) + EncodeBase64(bytes[3..])
    ensures Body(bytes) == Letters(Digits3(bytes[0], bytes[1], bytes[2])) + Body(bytes[3..])
  {
  }

  lemma RepadBehind(group: string, body: string)
    requires |group| == 4
    ensures Repad(group + body) == group + Repad(body)
  {
  }

  /** The dropped padding is a function of the length of what is left. */
  lemma {:induction false} PaddingRecovered(bytes: seq<byte>)
    ensures EncodeBase64(bytes) == Repad(Body(bytes))
  {
    if |bytes| >= 3 {
      BodySteps(bytes);
      PaddingRecovered(bytes[3..]);
      RepadBehind(Letters(Digits3(bytes[0], bytes[1], bytes[2])), Body(bytes[3..]));
    } else if |bytes| == 0 {
      assert Equals(0) == "";
    } else if |bytes| == 1 {
      assert Equals(2) == ['=', '='];
    } else {
      assert Equals(1) == ['='];
    }
  }

  lemma TwoReadAs(s: string, a: digit, b: digit)
    requires |s| == 2 && Value(s[0]) == Some(a) && Value(s[1]) == Some(b)
    ensures DecodeUnpadded(s) == Some([First(a, b)])
  {
  }

  lemma ThreeReadAs(s: string, a: digit, b: digit, c: digit)
    requires |s| == 3 && Value(s[0]) == Some(a) && Value(s[1]) == Some(b) && Value(s[2]) == Some(c)
    ensures DecodeUnpadded(s) == Some([First(a, b), Second(b, c)])
  {
  }

  lemma GroupReadAs(s: string, a: digit, b: digit, c: digit, d: digit, rest: seq<byte>)
    requires |s| >= 4 && DecodeUnpadded(s[4..]) == Some(rest)
    requires Value(s[0]) == Some(a) && Value(s[1]) == Some(b) && Value(s[2]) == Some(c) && Value(s[3]) == Some(d)
    ensures DecodeUnpadded(s) == Some([First(a, b), Second(b, c), Third(c, d)] + rest)
  {
  }

  /** Cutting three bytes into digits and putting the digits together. */
  lemma Regroup(x: byte, y: byte, z: byte)
    ensures First(x / 4, x % 4 * 16 + y / 16) == x
    ensures Second(x % 4 * 16 + y / 16, y % 16 * 4 + z / 64) == y
    ensures Third(y % 16 * 4 + z / 64, z % 64) == z
  {
  }

  lemma DecodeGroup(x: byte, y: byte, z: byte, s: string)
    requires DecodeUnpadded(s).Some?
    ensures DecodeUnpadded(Letters(Digits3(x, y, z)) + s) == Some([x, y, z] + DecodeUnpadded(s).value)
  {
    Regroup(x, y, z);
    var t := Letters(Digits3(x, y, z)) + s;
    assert t[4..] == s;
    GroupReadAs(t, x / 4, x % 4 * 16 + y / 16, y % 16 * 4 + z / 64, z % 64, DecodeUnpadded(s).value);
  }

  lemma BodyOfOne(x: byte)
    ensures Body([x]) == [Letter(x / 4), Letter(x % 4 * 16)]
  {
  }

  lemma BodyOfTwo(x: byte, y: byte)
    ensures Body([x, y]) == [Letter(x / 4), Letter(x % 4 * 16 + y / 16), Letter(y % 16 * 4)]
  {
  }

  lemma DecodeOneByte(x: byte)
    ensures DecodeUnpadded(Body([x])) == Some([x])
  {
    var a: digit, b: digit := x / 4, x % 4 * 16;
    Regroup(x, 0, 0);
    BodyOfOne(x);
    TwoReadAs([Letter(a), Letter(b)], a, b);
  }

  lemma DecodeTwo(x: byte, y: byte)
    ensures DecodeUnpadded(Body([x, y])) == Some([x, y])
  {
    var a: digit, b: digit, c: digit := x / 4, x % 4 * 16 + y / 16, y % 16 * 4;
    Regroup(x, y, 0);
    BodyOfTwo(x, y);
    ThreeReadAs([Letter(a), Letter(b), Letter(c)], a, b, c);
  }

  lemma DecodeRemainder(bytes: seq<byte>)
    requires |bytes| < 3
    ensures DecodeUnpadded(Body(bytes)) == Some(bytes)
  {
    if |bytes| == 2 {
      DecodeTwo(bytes[0], bytes[1]);
      assert bytes == [bytes[0], bytes[1]];
    } else if |bytes| == 1 {
      DecodeOneByte(bytes[0]);
      assert bytes == [bytes[0]];
    }
  }

  lemma FirstThree(bytes: seq<byte>)
    requires |bytes| >= 3
    ensures [bytes[0], bytes[1], bytes[2]] + bytes[3..] == bytes
  {
  }

  lemma {:induction false} DecodeBody(bytes: seq<byte>)
    ensures DecodeUnpadded(Body(bytes)) == Some(bytes)
  {
    if |bytes| >= 3 {
      DecodeBody(bytes[3..]);
      DecodeGroup(bytes[0], bytes[1], bytes[2], Body(bytes[3..]));
      BodySteps(bytes);
      FirstThree(bytes);
    } else {
      DecodeRemainder(bytes);
    }
  }

  lemma {:induction false} DropsOnlyPadding(s: string, n: nat)
    requires forall i | 0 <= i < |s| :: s[i] != '='
    ensures DropPadding(s + Equals(n)) == s
  {
    if n > 0 {
      assert (s + Equals(n))[..|s| + n - 1] == s + Equals(n - 1);
      DropsOnlyPadding(s, n - 1);
    } else {
      assert s + Equals(0) == s;
      if |s| > 0 {
        DropsOnlyPadding(s[..|s| - 1], 0);
        assert s[..|s| - 1] + Equals(0) == s[..|s| - 1];
      }
    }
  }

  lemma EncodeIsBody(bytes: seq<byte>)
    ensures Encode(bytes) == Replace(ToUrlChar, Body(bytes))
  {
    PaddingRecovered(bytes);
    var n := (4 - |Body(bytes)| % 4) % 4;
    var swapped := Replace(ToUrlChar, Body(bytes));
    assert Replace(ToUrlChar, EncodeBase64(bytes)) == swapped + Equals(n);
    DropsOnlyPadding(swapped, n);
  }

  lemma StripsSome(body: string, n: nat)
    requires |body| > 0 && body[|body| - 1] != '=' && n <= 2 && (|body| + n) % 4 == 0
    ensures StripPadding(body + Equals(n)) == body
  {
    var s := body + Equals(n);
    assert s[..|body|] == body;
    if n == 0 {
      assert s == body;
    } else if n == 1 {
      assert s[|s| - 1] == '=' && s[|s| - 2] == body[|body| - 1];
    } else {
      assert s[|s| - 1] == '=' && s[|s| - 2] == '=';
    }
  }

  lemma StripsRecovered(body: string)
    requires |body| > 0 ==> body[|body| - 1] != '='
    requires |body| % 4 != 1
    ensures StripPadding(Repad(body)) == body
  {
    if |body| == 0 {
      assert Repad(body) == body;
    } else {
      StripsSome(body, (4 - |body| % 4) % 4);
    }
  }

  lemma SwapsBack(body: string)
    requires forall i | 0 <= i < |body| :: IsLetter(body[i])
    ensures Replace(FromUrlChar, Replace(ToUrlChar, body)) == body
  {
    forall i | 0 <= i < |body| ensures FromUrlChar(ToUrlChar(body[i])) == body[i] {
      assert IsLetter(body[i]);
    }
  }

  lemma BodyLength(bytes: seq<byte>)
    ensures |Body(bytes)| % 4 != 1 && (|Body(bytes)| > 0 ==> Body(bytes)[|Body(bytes)| - 1] != '=')
  {
    var n := |bytes|;
    assert |Body(bytes)| == (4 * n + 2) / 3;
    assert |Body(bytes)| > 0 ==> IsLetter(Body(bytes)[|Body(bytes)| - 1]);
    var q, r := n / 3, n % 3;
    assert n == 3 * q + r && (4 * n + 2) / 3 == 4 * q + (4 * r + 2) / 3;
  }

  lemma RepaddedHasNoSpaces(body: string)
    requires forall i | 0 <= i < |body| :: IsLetter(body[i])
    ensures DropSpaces(Repad(body)) == Repad(body)
  {
    forall i | 0 <= i < |Repad(body)| ensures !IsSpace(Repad(body)[i]) {
      assert i < |body| ==> IsLetter(body[i]);
    }
    NoSpacesToDrop(Repad(body));
  }

  /** Every byte string survives encoding and decoding. */
  lemma RoundTrip(bytes: seq<byte>)
    ensures Decode(Encode(bytes)) == Some(bytes)
  {
    EncodeIsBody(bytes);
    SwapsBack(Body(bytes));
    BodyLength(bytes);
    RepaddedHasNoSpaces(Body(bytes));
    StripsRecovered(Body(bytes));
    DecodeBody(bytes);
  }

  /** Only letters, digits, '-' and '_' occur, so ':', '.', '/', '+' and '=' never do. */
  lemma SafeAlphabet(bytes: seq<byte>, i: nat)
    requires i < |Encode(bytes)|
    ensures var c := Encode(bytes)[i];
      'A' <= c <= 'Z' || 'a' <= c <= 'z' || '0' <= c <= '9' || c == '-' || c == '_'
  {
    EncodeIsBody(bytes);
    assert IsLetter(Body(bytes)[i]);
  }

  lemma EncodeInjective(a: seq<byte>, b: seq<byte>)
    ensures Encode(a) == Encode(b) <==> a == b
  {
    RoundTrip(a);
    RoundTrip(b);
  }

  // ---------------------------------------------------------------------------------------
  // What the text says
  // ---------------------------------------------------------------------------------------

  /** The digit that a character of the URL-safe alphabet stands for. */
  function UrlDigit(c: char): digit {
    match Value(FromUrlChar(c))
    case Some(d) => d
    case None => 0
  }

  /** The bits of a text, six to a character, behind those of `n`, as one number. */
  function TextNumber(n: nat, text: string): nat
    decreases |text|
  {
    if |text| == 0 then n else TextNumber(n * 64 + UrlDigit(text[0]), text[1..])
  }

  /** The bits of the bytes, eight to a byte, behind those of `n`, as one number. */
  function ByteNumber(n: nat, bytes: seq<byte>): nat
    decreases |bytes|
  {
    if |bytes| == 0 then n else ByteNumber(n * 256 + bytes[0], bytes[1..])
  }

  /** Three bytes behind the bits of `n`. */
  function Behind(n: nat, x: byte, y: byte, z: byte): nat {
    ((n * 256 + x) * 256 + y) * 256 + z
  }

  /** The number v of n bytes, shifted by the zero bits that fill up the last digit. */
  function Filled(v: nat, n: nat): nat {
    if n == 0 then v else if n == 1 then v * 16 else if n == 2 then v * 4 else Filled(v, n - 3)
  }

  lemma DigitSurvives(d: digit)
    ensures UrlDigit(ToUrlChar(Letter(d))) == d
  {
    assert FromUrlChar(ToUrlChar(Letter(d))) == Letter(d);
  }

  lemma TextNumberFirst(n: nat, d: digit, rest: string)
    ensures TextNumber(n, Replace(ToUrlChar, [Letter(d)] + rest)) == TextNumber(n * 64 + d, Replace(ToUrlChar, rest))
  {
    var t := Replace(ToUrlChar, [Letter(d)] + rest);
    DigitSurvives(d);
    assert t[1..] == Replace(ToUrlChar, rest);
  }

  lemma TextNumberTwo(n: nat, d: digit, e: digit, rest: string)
    ensures TextNumber(n, Replace(ToUrlChar, [Letter(d)] + ([Letter(e)] + rest)))
         == TextNumber((n * 64 + d) * 64 + e, Replace(ToUrlChar, rest))
  {
    TextNumberFirst(n, d, [Letter(e)] + rest);
    TextNumberFirst(n * 64 + d, e, rest);
  }

  lemma TextNumberNone(n: nat)
    ensures TextNumber(n, Replace(ToUrlChar, "")) == n
  {
  }

  /** The four digits of a full group spell the 24-bit number of its three bytes. */
  lemma GroupNumber(n: nat, x: byte, y: byte, z: byte, rest: string)
    ensures TextNumber(n, Replace(ToUrlChar, Letters(Digits3(x, y, z)) + rest))
         == TextNumber(Behind(n, x, y, z), Replace(ToUrlChar, rest))
  {
    var a, b, c, d := x / 4, x % 4 * 16 + y / 16, y % 16 * 4 + z / 64, z % 64;
    assert Letters(Digits3(x, y, z)) + rest == [Letter(a)] + ([Letter(b)] + ([Letter(c)] + ([Letter(d)] + rest)));
    TextNumberTwo(n, a, b, [Letter(c)] + ([Letter(d)] + rest));
    TextNumberTwo((n * 64 + a) * 64 + b, c, d, rest);
    SixBitsEightBits(n, x, y, z);
  }

  lemma SixBitsEightBits(n: nat, x: byte, y: byte, z: byte)
    ensures (((n * 64 + x / 4) * 64 + (x % 4 * 16 + y / 16)) * 64 + (y % 16 * 4 + z / 64)) * 64 + z % 64 == Behind(n, x, y, z)
  {
  }

  lemma OneByteNumber(n: nat, x: byte)
    ensures TextNumber(n, Replace(ToUrlChar, Body([x]))) == (n * 256 + x) * 16
  {
    var a, b := x / 4, x % 4 * 16;
    assert Body([x]) == [Letter(a)] + ([Letter(b)] + "");
    TextNumberFirst(n, a, [Letter(b)] + "");
    TextNumberFirst(n * 64 + a, b, "");
    TextNumberNone((n * 64 + a) * 64 + b);
  }

  lemma ThreeDigitsTwoBytes(n: nat, x: byte, y: byte)
    ensures ((n * 64 + x / 4) * 64 + (x % 4 * 16 + y / 16)) * 64 + y % 16 * 4 == ((n * 256 + x) * 256 + y) * 4
  {
  }

  lemma TwoBytesNumber(n: nat, x: byte, y: byte)
    ensures TextNumber(n, Replace(ToUrlChar, Body([x, y]))) == ((n * 256 + x) * 256 + y) * 4
  {
    var a, b, c := x / 4, x % 4 * 16 + y / 16, y % 16 * 4;
    assert Body([x, y]) == [Letter(a)] + ([Letter(b)] + ([Letter(c)] + ""));
    TextNumberTwo(n, a, b, [Letter(c)] + "");
    TextNumberFirst((n * 64 + a) * 64 + b, c, "");
    TextNumberNone(((n * 64 + a) * 64 + b) * 64 + c);
    ThreeDigitsTwoBytes(n, x, y);
  }

  lemma ByteNumberOne(n: nat, x: byte)
    ensures ByteNumber(n, [x]) == n * 256 + x
  {
    assert [x][1..] == [];
  }

  lemma ByteNumberTwo(n: nat, x: byte, y: byte)
    ensures ByteNumber(n, [x, y]) == (n * 256 + x) * 256 + y
  {
    assert [x, y][1..] == [y];
    ByteNumberOne(n * 256 + x, y);
  }

  lemma ByteNumberThree(n: nat, bytes: seq<byte>)
    requires |bytes| >= 3
    ensures ByteNumber(n, bytes) == ByteNumber(Behind(n, bytes[0], bytes[1], bytes[2]), bytes[3..])
  {
    assert bytes[1..][1..] == bytes[2..] && bytes[2..][1..] == bytes[3..];
    assert ByteNumber(n * 256 + bytes[0], bytes[1..]) == ByteNumber((n * 256 + bytes[0]) * 256 + bytes[1], bytes[2..]);
  }

  lemma RemainderNumber(n: nat, bytes: seq<byte>)
    requires |bytes| < 3
    ensures TextNumber(n, Replace(ToUrlChar, Body(bytes))) == Filled(ByteNumber(n, bytes), |bytes|)
  {
    if |bytes| == 2 {
      assert bytes == [bytes[0], bytes[1]];
      TwoBytesNumber(n, bytes[0], bytes[1]);
      ByteNumberTwo(n, bytes[0], bytes[1]);
    } else if |bytes| == 1 {
      assert bytes == [bytes[0]];
      OneByteNumber(n, bytes[0]);
      ByteNumberOne(n, bytes[0]);
    } else {
      TextNumberNone(n);
    }
  }

  lemma FirstGroupNumber(n: nat, bytes: seq<byte>)
    requires |bytes| >= 3
    ensures TextNumber(n, Replace(ToUrlChar, Body(bytes)))
         == TextNumber(Behind(n, bytes[0], bytes[1], bytes[2]), Replace(ToUrlChar, Body(bytes[3..])))
  {
    BodySteps(bytes);
    GroupNumber(n, bytes[0], bytes[1], bytes[2], Body(bytes[3..]));
  }

  lemma {:induction false} BodyNumber(n: nat, bytes: seq<byte>)
    ensures TextNumber(n, Replace(ToUrlChar, Body(bytes))) == Filled(ByteNumber(n, bytes), |bytes|)
    decreases |bytes|
  {
    if |bytes| >= 3 {
      FirstGroupNumber(n, bytes);
      ByteNumberThree(n, bytes);
      BodyNumber(Behind(n, bytes[0], bytes[1], bytes[2]), bytes[3..]);
    } else {
      RemainderNumber(n, bytes);
    }
  }

  /** A text spells the bits of its bytes, six to a character, filled up with zero bits to the next whole character. */
  lemma EncodeSpellsBytes(bytes: seq<byte>)
    ensures TextNumber(0, Encode(bytes)) == Filled(ByteNumber(0, bytes), |bytes|)
    ensures |Encode(bytes)| == (8 * |bytes| + 5) / 6
  {
    EncodeIsBody(bytes);
    BodyNumber(0, bytes);
  }

  /** The first test vectors of RFC 4648, section 10, and the digits 62 and 63 of section 5. */
  lemma TestVectors()
    ensures Encode([]) == "" && Encode([102]) == "Zg" && Encode([102, 111]) == "Zm8" && Encode([102, 111, 111]) == "Zm9v"
    ensures Encode([251, 255]) == "-_8"
  {
    EncodeIsBody([]);
    EncodeIsBody([102]);
    assert Body([102]) == "Zg";
    EncodeIsBody([102, 111]);
    assert Body([102, 111]) == "Zm8";
    FullVector();
    EncodeIsBody([251, 255]);
    assert Body([251, 255]) == "+/8";
  }

  lemma FullVector()
    ensures Encode([102, 111, 111]) == "Zm9v"
  {
    var bytes: seq<byte> := [102, 111, 111];
    EncodeIsBody(bytes);
    BodySteps(bytes);
    assert Digits3(102, 111, 111) == [25, 38, 61, 47] && Body(bytes[3..]) == "";
    assert Letters([25, 38, 61, 47]) == "Zm9v";
  }
}
