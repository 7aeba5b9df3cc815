// Natural numbers printed in decimal, and read back.
module Decimal {

  function Digit(d: nat): char
    requires d < 10
  {
    '0' + d as char
  }

  predicate IsDigit(c: char) {
    '0' <= c <= '9'
  }

  function Print(n: nat): (text: string)
    ensures text != [] && forall i | 0 <= i < |text| :: IsDigit(text[i])
  {
    if n < 10 then [Digit(n)] else Print(n / 10) + [Digit(n % 10)]
  }

  /** Printed with leading zeros up to a width; wider numbers keep all their digits. */
  function PrintPadded(n: nat, width: nat): (text: string)
    ensures |text| >= width && forall i | 0 <= i < |text| :: IsDigit(text[i])
    ensures |Print(n)| <= width ==> |text| == width
  {
    var text := Print(n);
    if |text| < width then seq(width - |text|, _ => '0') + text else text
  }

  function Read(text: string): nat
    requires forall i | 0 <= i < |text| :: IsDigit(text[i])
  {
    if text == [] then 0
    else
      var last := |text| - 1;
      assert IsDigit(text[last]);
      10 * Read(text[..last]) + (text[last] as nat - '0' as nat)
  }

  lemma {:induction false} ReadPrinted(n: nat)
    ensures Read(Print(n)) == n
  {
    if n >= 10 {
      ReadPrinted(n / 10);
      assert Print(n)[..|Print(n)| - 1] == Print(n / 10);
    }
  }

  lemma {:induction false} LeadingZeros(zeros: nat, text: string)
    requires forall i | 0 <= i < |text| :: IsDigit(text[i])
    ensures Read(seq(zeros, _ => '0') + text) == Read(text)
  {
    var padded := seq(zeros, _ => '0') + text;
    if text != [] {
      LeadingZeros(zeros, text[..|text| - 1]);
      assert padded[..|padded| - 1] == seq(zeros, _ => '0') + text[..|text| - 1];
    } else if zeros > 0 {
      LeadingZeros(zeros - 1, []);
      assert padded[..|padded| - 1] == seq(zeros - 1, _ => '0') + [];
    }
  }

  /** Reading undoes printing, with or without padding. */
  lemma ReadPadded(n: nat, width: nat)
    ensures Read(PrintPadded(n, width)) == n
  {
    ReadPrinted(n);
    if |Print(n)| < width {
      LeadingZeros(width - |Print(n)|, Print(n));
    }
  }

  function Power10(k: nat): nat {
    if k == 0 then 1 else 10 * Power10(k - 1)
  }

  /** A number below 10^k needs at most k digits. */
  lemma {:induction false} PrintedLength(n: nat, k: nat)
    requires k > 0 && n < Power10(k)
    ensures |Print(n)| <= k
  {
    if n >= 10 {
      assert k > 1;
      PrintedLength(n / 10, k - 1);
    }
  }

  lemma PrintInjective(m: nat, n: nat)
    requires Print(m) == Print(n)
    ensures m == n
  {
    ReadPrinted(m);
    ReadPrinted(n);
  }
}
