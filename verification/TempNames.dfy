/** Names of compiler temporaries: a fixed prefix and a decimal number. */
module TempNames {
  import opened Wrappers

  const DIGITS: string := "0123456789"
  const PREFIX: string := "__temp_"

  function Decimal(n: nat): string {
    if n < 10 then [DIGITS[n]] else Decimal(n / 10) + [DIGITS[n % 10]]
  }

  function TempName(n: nat): string {
    PREFIX + Decimal(n)
  }

  function DigitValue(c: char): nat {
    if '0' <= c <= '9' then c as int - '0' as int else 0
  }

  function NumberOf(s: string): nat {
    if s == "" then 0 else 10 * NumberOf(s[..|s| - 1]) + DigitValue(s[|s| - 1])
  }

  /** The number a temporary's name ends in. */
  function IndexOf(name: string): nat {
    if |name| >= |PREFIX| then NumberOf(name[|PREFIX|..]) else 0
  }

  lemma DigitRoundTrip(d: nat)
    requires d < 10
    ensures DigitValue(DIGITS[d]) == d
  {
  }

  lemma {:induction false} DecimalRoundTrip(n: nat)
    ensures NumberOf(Decimal(n)) == n && |Decimal(n)| >= 1
  {
    if n < 10 {
      DigitRoundTrip(n);
      assert Decimal(n)[..0] == "";
    } else {
      DecimalRoundTrip(n / 10);
      DigitRoundTrip(n % 10);
      assert Decimal(n)[..|Decimal(n)| - 1] == Decimal(n / 10);
    }
  }

  /** Different numbers give different names. */
  lemma TempNameRoundTrip(n: nat)
    ensures IndexOf(TempName(n)) == n
  {
    DecimalRoundTrip(n);
    assert TempName(n)[|PREFIX|..] == Decimal(n);
  }
}
