/** The `%d` verb for non-negative numbers, and the two places the program builds a string with it:
    the salt of a colliding URL and the Redis key of a rate-limit bucket. */
module Decimal {
  function DigitChar(d: nat): char
    requires d < 10
  {
    ('0' as int + d) as char
  }

  function Digits(n: nat): string {
    if n < 10 then [DigitChar(n)] else Digits(n / 10) + [DigitChar(n % 10)]
  }

  predicate AllDigits(s: string) {
    forall i | 0 <= i < |s| :: '0' <= s[i] <= '9'
  }

  function Value(s: string): int {
    if s == "" then 0 else 10 * Value(s[..|s| - 1]) + (s[|s| - 1] as int - '0' as int)
  }

  lemma {:induction false} DigitsAreDigits(n: nat)
    ensures AllDigits(Digits(n))
  {
    if n < 10 {
    } else {
      DigitsAreDigits(n / 10);
    }
  }

  lemma {:induction false} ValueOfDigits(n: nat)
    ensures Value(Digits(n)) == n
  {
    if n >= 10 {
      ValueOfDigits(n / 10);
      assert Digits(n)[..|Digits(n)| - 1] == Digits(n / 10);
    } else {
      assert Digits(n)[..0] == "";
    }
  }

  /** A number is printed in decimal digits, without leading zeros, and read back as itself. */
  predicate Prints(s: string, n: nat) {
    s != "" && AllDigits(s) && Value(s) == n && (|s| > 1 ==> s[0] != '0')
  }

  lemma {:induction false} NoLeadingZero(n: nat)
    ensures n > 0 ==> Digits(n)[0] != '0'
  {
    if n < 10 {
    } else {
      NoLeadingZero(n / 10);
    }
  }

  lemma DigitsPrint(n: nat)
    ensures Prints(Digits(n), n)
  {
    DigitsAreDigits(n);
    ValueOfDigits(n);
    NoLeadingZero(n);
  }

  /** Two numbers print alike only if they are equal. */
  lemma DigitsInjective(m: nat, n: nat)
    requires Digits(m) == Digits(n)
    ensures m == n
  {
    ValueOfDigits(m);
    ValueOfDigits(n);
  }

  lemma LastColon(prefix: string, digits: string)
    requires AllDigits(digits)
    ensures var s := prefix + ":" + digits;
      s[|prefix|] == ':' && forall i | |prefix| < i < |s| :: s[i] != ':'
  {
    var s := prefix + ":" + digits;
    assert forall i | |prefix| < i < |s| :: s[i] == digits[i - |prefix| - 1];
  }

  /** The last colon of `prefix:digits` is where the digits start, however many colons the prefix has. */
  lemma SuffixInjective(a: string, m: nat, b: string, n: nat)
    requires a + ":" + Digits(m) == b + ":" + Digits(n)
    ensures a == b && m == n
  {
    DigitsAreDigits(m);
    DigitsAreDigits(n);
    LastColon(a, Digits(m));
    LastColon(b, Digits(n));
    var s := a + ":" + Digits(m);
    assert |a| == |b|;
    assert a == s[..|a|] == b;
    assert Digits(m) == s[|a| + 1..] == Digits(n);
    DigitsInjective(m, n);
  }
}
