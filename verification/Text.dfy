/** What several components share: options and results, decimal numbers, ASCII lower case, and keys of the
    form `<prefix>:<number>`, which the nonce cache and the event table both use. */
module Text {
  datatype Option<+T> = None | Some(value: T)

  datatype Result<+T, +E> = Ok(value: T) | Err(error: E) {
    predicate IsFailure() { Err? }
    function PropagateFailure<U>(): Result<U, E>
      requires Err?
    {
      Err(error)
    }
    function Extract(): T
      requires Ok?
    {
      value
    }
  }

  /** `option ?? default` */
  function Or<T>(o: Option<T>, default: T): T {
    match o
    case Some(v) => v
    case None => default
  }

  function Min(x: int, y: int): int {
    if x <= y then x else y
  }

  function Max(x: int, y: int): int {
    if x >= y then x else y
  }

  predicate IsDigit(c: char) {
    '0' <= c <= '9'
  }

  /** The JavaScript rendering of a non-negative integer below 10^21. */
  function Decimal(n: nat): (s: string)
    ensures |s| > 0
    ensures forall i :: 0 <= i < |s| ==> IsDigit(s[i])
  {
    if n < 10 then [('0' as int + n) as char]
    else Decimal(n / 10) + [('0' as int + n % 10) as char]
  }

  lemma {:induction false} DecimalInjective(m: nat, n: nat)
    ensures Decimal(m) == Decimal(n) <==> m == n
  {
    if Decimal(m) == Decimal(n) {
      assert Decimal(m)[|Decimal(m)| - 1] == Decimal(n)[|Decimal(n)| - 1];
      if m >= 10 && n >= 10 {
        assert Decimal(m)[..|Decimal(m)| - 1] == Decimal(m / 10);
        assert Decimal(n)[..|Decimal(n)| - 1] == Decimal(n / 10);
        DecimalInjective(m / 10, n / 10);
      }
    }
  }

  function LowerChar(c: char): char {
    if 'A' <= c <= 'Z' then (c as int + 32) as char else c
  }

  function Lower(s: string): (r: string)
    ensures |r| == |s|
    ensures forall i :: 0 <= i < |s| ==> r[i] == LowerChar(s[i])
  {
    seq(|s|, i requires 0 <= i < |s| => LowerChar(s[i]))
  }

  predicate SameLetter(c: char, d: char) {
    c == d || ('A' <= c <= 'Z' && d as int == c as int + 32) || ('A' <= d <= 'Z' && c as int == d as int + 32)
  }

  /** Two texts have the same lower case exactly if they differ in nothing but the case of letters. */
  lemma LowerIsCaseOnly(s: string, t: string)
    ensures Lower(s) == Lower(t) <==> |s| == |t| && forall i :: 0 <= i < |s| ==> SameLetter(s[i], t[i])
  {
    if Lower(s) == Lower(t) {
      forall i | 0 <= i < |s| ensures SameLetter(s[i], t[i]) {
        assert Lower(s)[i] == Lower(t)[i];
      }
    }
    if |s| == |t| && forall i :: 0 <= i < |s| ==> SameLetter(s[i], t[i]) {
      forall i | 0 <= i < |s| ensures Lower(s)[i] == Lower(t)[i] {
        assert SameLetter(s[i], t[i]);
      }
    }
  }

  /** `${prefix}:${n}` */
  function Keyed(prefix: string, n: nat): string {
    prefix + ":" + Decimal(n)
  }

  lemma OnlySeparator(a: string, m: nat)
    ensures forall i :: |a| < i < |Keyed(a, m)| ==> Keyed(a, m)[i] != ':'
  {
    forall i | |a| < i < |Keyed(a, m)| ensures Keyed(a, m)[i] != ':' {
      assert Keyed(a, m)[i] == Decimal(m)[i - |a| - 1];
    }
  }

  /** The separator is the last ':' of the key, whatever the prefix contains, so a key determines both parts. */
  lemma KeyedInjective(a: string, m: nat, b: string, n: nat)
    ensures Keyed(a, m) == Keyed(b, n) <==> a == b && m == n
  {
    if Keyed(a, m) == Keyed(b, n) {
      var k := Keyed(a, m);
      assert k[|a|] == ':' && k[|b|] == ':';
      assert |a| == |b| by { OnlySeparator(a, m); OnlySeparator(b, n); }
      assert k[..|a|] == a && k[..|a|] == b;
      assert k[|a| + 1..] == Decimal(m) && k[|a| + 1..] == Decimal(n);
      DecimalInjective(m, n);
    }
  }
}
