/** Which texts the decoder accepts, and what it reads from them (RFC 4648, section 4, as `atob` applies it). */
module Base64Texts {
  import opened Text
  import opened Collections
  import opened Base64Url

  // ---------------------------------------------------------------------------------------
  // Characters
  // ---------------------------------------------------------------------------------------

  predicate InAlphabet(c: char) {
    'A' <= c <= 'Z' || 'a' <= c <= 'z' || '0' <= c <= '9' || c == '+' || c == '/'
  }

  /** The value of a character is the digit whose letter it is; other characters have none. */
  lemma ValueIs(c: char)
    ensures Value(c).Some? <==> InAlphabet(c)
    ensures InAlphabet(c) ==> Letter(Value(c).value) == c
  {
  }

  /** Tab, line feed, form feed, carriage return and space. */
  predicate IsWhite(c: char) {
    c as int == 9 || c as int == 10 || c as int == 12 || c as int == 13 || c as int == 32
  }

  /** White space is skipped wherever it stands, and nothing else. */
  lemma {:induction false} SpacesAreDropped(s: string)
    ensures DropSpaces(s) == Filter((c: char) => !IsWhite(c), s)
  {
    if |s| == 0 {
    } else {
      SpacesAreDropped(s[..|s| - 1]);
    }
  }

  /** A text of a length that four divides loses one or two '=' at its end, any other text nothing. */
  lemma PaddingIsStripped(s: string)
    ensures var r := StripPadding(s);
      if |s| % 4 != 0 || s == "" || s[|s| - 1] != '=' then r == s
      else if s[|s| - 2] == '=' then s == r + "==" else s == r + "="
  {
  }

  // ---------------------------------------------------------------------------------------
  // Digits
  // ---------------------------------------------------------------------------------------

  predicate AllInAlphabet(s: string) {
    forall i | 0 <= i < |s| :: InAlphabet(s[i])
  }

  lemma AlphabetSplits(s: string)
    requires |s| >= 4
    ensures AllInAlphabet(s) <==> InAlphabet(s[0]) && InAlphabet(s[1]) && InAlphabet(s[2]) && InAlphabet(s[3]) && AllInAlphabet(s[4..])
  {
    forall i | 4 <= i < |s| ensures s[i] == s[4..][i - 4] { }
    if AllInAlphabet(s[4..]) {
      forall i | 4 <= i < |s| ensures InAlphabet(s[i]) {
        assert InAlphabet(s[4..][i - 4]);
      }
    }
  }

  lemma GroupIsRead(s: string)
    requires |s| >= 4
    ensures DecodeUnpadded(s).Some? <==>
      Value(s[0]).Some? && Value(s[1]).Some? && Value(s[2]).Some? && Value(s[3]).Some? && DecodeUnpadded(s[4..]).Some?
  {
  }

  /** Groups of four characters with a value each, and at the end none, two or three. */
  predicate Readable(s: string)
    decreases |s|
  {
    if |s| == 0 then true
    else if |s| == 1 then false
    else
      Value(s[0]).Some? && Value(s[1]).Some?
      && (|s| > 2 ==> Value(s[2]).Some?) && (|s| > 3 ==> Value(s[3]).Some? && Readable(s[4..]))
  }

  lemma {:induction false} ReadIffReadable(s: string)
    ensures DecodeUnpadded(s).Some? <==> Readable(s)
    decreases |s|
  {
    if |s| >= 4 {
      GroupIsRead(s);
      ReadIffReadable(s[4..]);
    }
  }

  lemma {:induction false} ReadableIff(s: string)
    ensures Readable(s) <==> |s| % 4 != 1 && AllInAlphabet(s)
    decreases |s|
  {
    if |s| < 4 {
      forall i | 0 <= i < |s| ensures Value(s[i]).Some? <==> InAlphabet(s[i]) {
        ValueIs(s[i]);
      }
    } else {
      ReadableIff(s[4..]);
      FourMoreAreInAlphabet(s);
      FourMoreLeave(|s[4..]|);
    }
  }

  /** What is left is read exactly if it consists of letters of the alphabet and does not end in a lone one. */
  lemma ReadIff(s: string)
    ensures DecodeUnpadded(s).Some? <==> |s| % 4 != 1 && AllInAlphabet(s)
  {
    ReadIffReadable(s);
    ReadableIff(s);
  }

  lemma FourMoreAreInAlphabet(s: string)
    requires |s| >= 4
    ensures AllInAlphabet(s) <==>
      Value(s[0]).Some? && Value(s[1]).Some? && Value(s[2]).Some? && Value(s[3]).Some? && AllInAlphabet(s[4..])
  {
    AlphabetSplits(s);
    ValueIs(s[0]);
    ValueIs(s[1]);
    ValueIs(s[2]);
    ValueIs(s[3]);
  }

  lemma FourMoreLeave(n: nat)
    ensures (n + 4) % 4 == n % 4
  {
  }

  lemma TailInAlphabet(s: string)
    requires AllInAlphabet(s) && |s| > 0
    ensures InAlphabet(s[0]) && Value(s[0]).Some? && UrlDigit(s[0]) == Value(s[0]).value && AllInAlphabet(s[1..])
  {
    ValueIs(s[0]);
    assert FromUrlChar(s[0]) == s[0];
    forall i | 0 <= i < |s| - 1 ensures InAlphabet(s[1..][i]) {
      assert InAlphabet(s[i + 1]);
    }
  }

  /** Six more bits. */
  function With(n: nat, d: digit): nat {
    n * 64 + d
  }

  /** Bits that do not fill a byte are left out. */
  function WholeBytes(v: nat, digits: nat): nat {
    if digits % 4 == 2 then v / 16 else if digits % 4 == 3 then v / 4 else v
  }

  lemma WholeBytesFour(v: nat, digits: nat)
    requires digits >= 4
    ensures WholeBytes(v, digits - 4) == WholeBytes(v, digits)
  {
    FourMoreLeave(digits - 4);
  }

  lemma TwoDigits(n: nat, s: string)
    requires |s| >= 2 && AllInAlphabet(s)
    ensures AllInAlphabet(s[2..]) && Value(s[0]).Some? && Value(s[1]).Some?
    ensures TextNumber(n, s) == TextNumber(With(With(n, Value(s[0]).value), Value(s[1]).value), s[2..])
  {
    TailInAlphabet(s);
    TailInAlphabet(s[1..]);
    assert s[1..][1..] == s[2..];
  }

  lemma ReadGroup(n: nat, a: digit, b: digit, c: digit, d: digit)
    ensures With(With(With(With(n, a), b), c), d) == Behind(n, First(a, b), Second(b, c), Third(c, d))
  {
  }

  lemma ReadTwo(n: nat, a: digit, b: digit)
    ensures With(With(n, a), b) / 16 == ByteNumber(n, [First(a, b)])
  {
    ByteNumberOne(n, First(a, b));
  }

  lemma ReadThree(n: nat, a: digit, b: digit, c: digit)
    ensures With(With(With(n, a), b), c) / 4 == ByteNumber(n, [First(a, b), Second(b, c)])
  {
    ByteNumberTwo(n, First(a, b), Second(b, c));
  }

  lemma ReadShort(n: nat, s: string)
    requires |s| < 4 && |s| != 1 && AllInAlphabet(s) && DecodeUnpadded(s).Some?
    ensures ByteNumber(n, DecodeUnpadded(s).value) == WholeBytes(TextNumber(n, s), |s|)
  {
    if |s| == 0 {
    } else {
      TwoDigits(n, s);
      var a, b := Value(s[0]).value, Value(s[1]).value;
      if |s| == 2 {
        TwoReadAs(s, a, b);
        ReadTwo(n, a, b);
      } else {
        TailInAlphabet(s[2..]);
        var c := Value(s[2]).value;
        assert s[2..][1..] == "";
        ThreeReadAs(s, a, b, c);
        ReadThree(n, a, b, c);
      }
    }
  }

  lemma ReadsGroup(s: string)
    requires |s| >= 4 && DecodeUnpadded(s).Some?
    ensures Value(s[0]).Some? && Value(s[1]).Some? && Value(s[2]).Some? && Value(s[3]).Some? && DecodeUnpadded(s[4..]).Some?
    ensures var a, b, c, d := Value(s[0]).value, Value(s[1]).value, Value(s[2]).value, Value(s[3]).value;
      DecodeUnpadded(s).value == [First(a, b), Second(b, c), Third(c, d)] + DecodeUnpadded(s[4..]).value
  {
    GroupIsRead(s);
    GroupReadAs(s, Value(s[0]).value, Value(s[1]).value, Value(s[2]).value, Value(s[3]).value, DecodeUnpadded(s[4..]).value);
  }

  lemma FourDigits(n: nat, s: string)
    requires |s| >= 4 && AllInAlphabet(s) && AllInAlphabet(s[4..])
    requires Value(s[0]).Some? && Value(s[1]).Some? && Value(s[2]).Some? && Value(s[3]).Some?
    ensures var a, b, c, d := Value(s[0]).value, Value(s[1]).value, Value(s[2]).value, Value(s[3]).value;
      TextNumber(n, s) == TextNumber(Behind(n, First(a, b), Second(b, c), Third(c, d)), s[4..])
  {
    TwoDigits(n, s);
    TwoDigits(With(With(n, Value(s[0]).value), Value(s[1]).value), s[2..]);
    assert s[2..][2..] == s[4..] && s[2..][0] == s[2] && s[2..][1] == s[3];
    ReadGroup(n, Value(s[0]).value, Value(s[1]).value, Value(s[2]).value, Value(s[3]).value);
  }

  lemma {:induction false} ReadLength(s: string)
    requires DecodeUnpadded(s).Some?
    ensures |DecodeUnpadded(s).value| == |s| * 6 / 8
    decreases |s|
  {
    if |s| < 4 {
    } else {
      ReadsGroup(s);
      ReadLength(s[4..]);
    }
  }

  /** The bytes read are the whole bytes of the bits that the digits spell. */
  lemma {:induction false} ReadSpells(n: nat, s: string)
    requires DecodeUnpadded(s).Some?
    ensures AllInAlphabet(s) && ByteNumber(n, DecodeUnpadded(s).value) == WholeBytes(TextNumber(n, s), |s|)
    decreases |s|
  {
    ReadIff(s);
    if |s| < 4 {
      ReadShort(n, s);
    } else {
      ReadsGroup(s);
      AlphabetSplits(s);
      FourDigits(n, s);
      ReadsOn(n, s);
    }
  }

  lemma {:induction false} ReadsOn(n: nat, s: string)
    requires |s| >= 4 && DecodeUnpadded(s).Some? && DecodeUnpadded(s[4..]).Some? && AllInAlphabet(s) && AllInAlphabet(s[4..])
    requires Value(s[0]).Some? && Value(s[1]).Some? && Value(s[2]).Some? && Value(s[3]).Some?
    ensures var a, b, c, d := Value(s[0]).value, Value(s[1]).value, Value(s[2]).value, Value(s[3]).value;
      ByteNumber(n, DecodeUnpadded(s).value) ==
      WholeBytes(TextNumber(Behind(n, First(a, b), Second(b, c), Third(c, d)), s[4..]), |s|)
    decreases |s|, 0
  {
    var a, b, c, d := Value(s[0]).value, Value(s[1]).value, Value(s[2]).value, Value(s[3]).value;
    var rest := DecodeUnpadded(s[4..]).value;
    ReadsGroup(s);
    FirstThreeRead(n, First(a, b), Second(b, c), Third(c, d), rest);
    ReadSpells(Behind(n, First(a, b), Second(b, c), Third(c, d)), s[4..]);
    WholeBytesFour(TextNumber(Behind(n, First(a, b), Second(b, c), Third(c, d)), s[4..]), |s|);
  }

  lemma FirstThreeRead(n: nat, x: byte, y: byte, z: byte, rest: seq<byte>)
    ensures ByteNumber(n, [x, y, z] + rest) == ByteNumber(Behind(n, x, y, z), rest)
  {
    var bytes := [x, y, z] + rest;
    ByteNumberThree(n, bytes);
    assert bytes[3..] == rest;
  }

  // ---------------------------------------------------------------------------------------
  // Tokens
  // ---------------------------------------------------------------------------------------

  predicate InEitherAlphabet(c: char) {
    InAlphabet(c) || c == '-' || c == '_'
  }

  /** The two signs of the URL-safe alphabet are read like those of the standard one, which are read too. */
  lemma UrlCharIs(c: char)
    ensures InAlphabet(FromUrlChar(c)) <==> InEitherAlphabet(c)
    ensures FromUrlChar(c) == if c == '-' then '+' else if c == '_' then '/' else c
  {
  }

  lemma RepadStrips(s: string)
    requires (forall i | 0 <= i < |s| :: s[i] != '=' && !IsWhite(s[i])) && |s| % 4 != 1
    ensures StripPadding(DropSpaces(Repad(s))) == s
  {
    forall i | 0 <= i < |Repad(s)| ensures !IsSpace(Repad(s)[i]) {
      assert i < |s| ==> !IsWhite(s[i]);
    }
    NoSpacesToDrop(Repad(s));
    StripsRecovered(s);
  }

  lemma StripLone(s: string)
    requires |s| % 4 == 1
    ensures StripPadding(s + Equals(3)) == s + "="
  {
    var r := s + Equals(3);
    assert r[..|r| - 2] == s + "=";
  }

  lemma RepadLone(s: string)
    requires (forall i | 0 <= i < |s| :: s[i] != '=' && !IsWhite(s[i])) && |s| % 4 == 1
    ensures StripPadding(DropSpaces(Repad(s))) == s + "="
  {
    var r := Repad(s);
    assert r == s + Equals(3);
    forall i | 0 <= i < |r| ensures !IsSpace(r[i]) {
      assert i < |s| ==> !IsWhite(s[i]);
    }
    NoSpacesToDrop(r);
    StripLone(s);
  }

  predicate Plain(token: string) {
    forall i | 0 <= i < |token| :: token[i] != '=' && !IsWhite(token[i])
  }

  lemma DecodesAsRead(token: string)
    requires Plain(token) && |token| % 4 != 1
    ensures Decode(token) == DecodeUnpadded(Replace(FromUrlChar, token))
  {
    RepadStrips(Replace(FromUrlChar, token));
  }

  lemma SameLetters(token: string)
    ensures AllInAlphabet(Replace(FromUrlChar, token)) <==> forall i | 0 <= i < |token| :: InEitherAlphabet(token[i])
  {
    var s := Replace(FromUrlChar, token);
    forall i | 0 <= i < |s| ensures InAlphabet(s[i]) <==> InEitherAlphabet(token[i]) {
      UrlCharIs(token[i]);
    }
    if AllInAlphabet(s) {
      forall i | 0 <= i < |token| ensures InEitherAlphabet(token[i]) {
        assert InAlphabet(s[i]);
      }
    }
  }

  /** A lone last digit spells no byte: of the three signs that fill it up one is left, and that is no digit. */
  lemma LoneDigitRefused(token: string)
    requires Plain(token) && |token| % 4 == 1
    ensures Decode(token) == None
  {
    var s := Replace(FromUrlChar, token);
    forall i | 0 <= i < |s| ensures s[i] != '=' && !IsWhite(s[i]) {
      assert s[i] == FromUrlChar(token[i]);
    }
    RepadLone(s);
    var left := s + "=";
    assert !InAlphabet(left[|s|]);
    ReadIff(left);
  }

  /** A text without '=' and white space is decoded exactly if its letters are of either alphabet and none stands alone. */
  lemma TokenDecodesIff(token: string)
    requires Plain(token)
    ensures Decode(token).Some? <==> |token| % 4 != 1 && forall i | 0 <= i < |token| :: InEitherAlphabet(token[i])
  {
    if |token| % 4 == 1 {
      LoneDigitRefused(token);
    } else {
      DecodesAsRead(token);
      ReadIff(Replace(FromUrlChar, token));
      SameLetters(token);
    }
  }

  lemma {:induction false} SameNumber(n: nat, token: string)
    ensures TextNumber(n, Replace(FromUrlChar, token)) == TextNumber(n, token)
    decreases |token|
  {
    if |token| == 0 {
    } else {
      assert Replace(FromUrlChar, token)[1..] == Replace(FromUrlChar, token[1..]);
      SameNumber(n * 64 + UrlDigit(token[0]), token[1..]);
    }
  }

  /** What is decoded is as many whole bytes as the digits fill, and those bytes are the ones that the digits spell. */
  lemma TokenSpells(token: string)
    requires Plain(token) && Decode(token).Some?
    ensures |Decode(token).value| == |token| * 6 / 8
    ensures ByteNumber(0, Decode(token).value) == WholeBytes(TextNumber(0, token), |token|)
  {
    TokenDecodesIff(token);
    DecodesAsRead(token);
    ReadSpells(0, Replace(FromUrlChar, token));
    ReadLength(Replace(FromUrlChar, token));
    SameNumber(0, token);
  }
}
