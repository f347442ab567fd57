/** Numbers as digits, in the bases the code reads and writes. */
module Numbers {
  import opened Text

  function DigitValue(c: char): nat {
    if IsAsciiDigit(c) then c as int - '0' as int
    else if 'a' <= c <= 'f' then c as int - 'a' as int + 10
    else if 'A' <= c <= 'F' then c as int - 'A' as int + 10
    else 99
  }

  function NumberOf(s: string, radix: nat): nat {
    if s == "" then 0 else NumberOf(s[..|s| - 1], radix) * radix + DigitValue(s[|s| - 1])
  }

  predicate AllDigits(s: string, radix: nat) { forall c :: c in s ==> DigitValue(c) < radix }

  function DigitChar(d: nat): char
    requires d < 16
  {
    if d < 10 then ('0' as int + d) as char else ('A' as int + d - 10) as char
  }

  function Digits(n: nat, radix: nat): string
    requires radix == 10 || radix == 16
  {
    if n < radix then [DigitChar(n)] else Digits(n / radix, radix) + [DigitChar(n % radix)]
  }

  lemma DigitRoundTrip(d: nat)
    requires d < 16
    ensures DigitValue(DigitChar(d)) == d && IsAsciiAlnum(DigitChar(d)) && DigitChar(d) !in {'x', 'X'}
  {
  }

  lemma {:induction false} DigitsRoundTrip(n: nat, radix: nat)
    requires radix == 10 || radix == 16
    ensures Digits(n, radix) != "" && NumberOf(Digits(n, radix), radix) == n
    ensures forall c :: c in Digits(n, radix) ==> DigitValue(c) < radix && IsAsciiAlnum(c) && c !in {'x', 'X'}
    decreases n
  {
    if n < radix {
      DigitRoundTrip(n);
      assert [DigitChar(n)][..0] == "";
    } else {
      var front := Digits(n / radix, radix);
      var last := DigitChar(n % radix);
      DigitRoundTrip(n % radix);
      DigitsRoundTrip(n / radix, radix);
      assert (front + [last])[..|front|] == front;
    }
  }

  function Power(radix: nat, k: nat): nat { if k == 0 then 1 else radix * Power(radix, k - 1) }

  lemma {:induction false} DigitsFit(n: nat, radix: nat, k: nat)
    requires (radix == 10 || radix == 16) && k > 0 && n < Power(radix, k)
    ensures |Digits(n, radix)| <= k
    decreases k
  {
    if n >= radix {
      assert k > 1;
      DigitsFit(n / radix, radix, k - 1);
    }
  }

  /** A number as the source's formatting writes it. */
  function Decimal(n: nat): string { Digits(n, 10) }
}
