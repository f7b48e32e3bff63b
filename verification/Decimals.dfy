/** Decimal numerals: what Python's `str(n)` and `f"{n:010d}"` print, and how a reader reads them. */
module Decimals {

  function Digit(d: nat): char
    requires d < 10
  {
    '0' + d as char
  }

  predicate IsDigit(c: char) {
    '0' <= c <= '9'
  }

  function Decimal(n: nat): string {
    if n < 10 then [Digit(n)] else Decimal(n / 10) + [Digit(n % 10)]
  }

  function Zeros(k: nat): string {
    seq(k, _ => '0')
  }

  /** `f"{n:010d}"`: padded with zeros to at least ten digits. */
  function Padded(n: nat): string {
    var s := Decimal(n);
    if |s| < 10 then Zeros(10 - |s|) + s else s
  }

  predicate AllDigits(s: string) {
    forall i :: 0 <= i < |s| ==> IsDigit(s[i])
  }

  function Parse(s: string): nat
    requires AllDigits(s)
  {
    if s == "" then 0 else 10 * Parse(s[..|s| - 1]) + (s[|s| - 1] - '0') as nat
  }

  function LeadingDigits(s: string): (k: nat)
    ensures k <= |s| && AllDigits(s[..k]) && (k < |s| ==> !IsDigit(s[k]))
  {
    if s == "" || !IsDigit(s[0]) then 0 else
      var k := LeadingDigits(s[1..]);
      assert forall i :: 1 <= i < k + 1 ==> s[i] == s[1..][..k][i - 1];
      k + 1
  }

  lemma {:induction false} ParseDecimal(n: nat)
    ensures AllDigits(Decimal(n)) && Decimal(n) != "" && Parse(Decimal(n)) == n
  {
    if n >= 10 {
      ParseDecimal(n / 10);
      assert Decimal(n)[..|Decimal(n)| - 1] == Decimal(n / 10);
    } else {
      assert Decimal(n)[..0] == "";
    }
  }

  lemma {:induction false} ParsePadding(k: nat, s: string)
    requires AllDigits(s)
    ensures AllDigits(Zeros(k) + s) && Parse(Zeros(k) + s) == Parse(s)
    decreases |s| + k
  {
    var all := Zeros(k) + s;
    if s != "" {
      ParsePadding(k, s[..|s| - 1]);
      assert all[..|all| - 1] == Zeros(k) + s[..|s| - 1];
    } else if k > 0 {
      ParsePadding(k - 1, s);
      assert all[..k - 1] == Zeros(k - 1) + s;
    }
  }

  function Power10(k: nat): nat {
    if k == 0 then 1 else 10 * Power10(k - 1)
  }

  lemma {:induction false} DecimalLength(n: nat, k: nat)
    requires k >= 1 && n < Power10(k)
    ensures |Decimal(n)| <= k
  {
    if n >= 10 {
      DecimalLength(n / 10, k - 1);
    }
  }

  /** A padded number below 10^10 fills exactly ten digits and reads back. */
  lemma PaddedReadsBack(n: nat)
    ensures AllDigits(Padded(n)) && Parse(Padded(n)) == n
    ensures n < 10000000000 ==> |Padded(n)| == 10
  {
    ParseDecimal(n);
    ParsePadding(if |Decimal(n)| < 10 then 10 - |Decimal(n)| else 0, Decimal(n));
    assert Zeros(0) + Decimal(n) == Decimal(n);
    if n < 10000000000 {
      assert Power10(10) == 10000000000 by {
        assert Power10(5) == 100000;
      }
      DecimalLength(n, 10);
    }
  }

  lemma {:induction false} LeadingOf(s: string, rest: string)
    requires AllDigits(s) && (rest == "" || !IsDigit(rest[0]))
    ensures LeadingDigits(s + rest) == |s| && (s + rest)[..|s|] == s
  {
    if s != "" {
      assert (s + rest)[1..] == s[1..] + rest;
      LeadingOf(s[1..], rest);
    } else {
      assert s + rest == rest;
    }
  }
}
