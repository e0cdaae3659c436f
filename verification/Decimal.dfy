/** The canonical decimal numerals that name commits and frontiers. */
module Decimal {
  import opened Prelude

  /** `is_decimal`: "0", or digits that do not start with a zero. */
  predicate IsDecimal(s: string) {
    s == "0" || (s != "" && IsDigit(s[0]) && s[0] != '0' && forall i | 1 <= i < |s| :: IsDigit(s[i]))
  }

  function DigitOf(n: nat): (c: char)
    requires n < 10
    ensures IsDigit(c) && ValueOf(c) == n
  {
    '0' + n as char
  }

  function ValueOf(c: char): (n: nat)
    requires IsDigit(c)
    ensures n < 10
  {
    c as int - '0' as int
  }

  /** The number as it is printed. */
  function Show(n: nat): (s: string)
    ensures s != "" && forall i | 0 <= i < |s| :: IsDigit(s[i])
  {
    if n < 10 then [DigitOf(n)] else Show(n / 10) + [DigitOf(n % 10)]
  }

  function Parse(s: string): nat
    requires forall i | 0 <= i < |s| :: IsDigit(s[i])
  {
    if s == "" then 0 else Parse(s[..|s| - 1]) * 10 + ValueOf(s[|s| - 1])
  }

  lemma {:induction false} ParseShow(n: nat)
    ensures Parse(Show(n)) == n
  {
    if n >= 10 {
      ParseShow(n / 10);
      assert Show(n)[..|Show(n)| - 1] == Show(n / 10);
    } else {
      assert Show(n)[..0] == "";
    }
  }

  lemma {:induction false} ShowIsDecimal(n: nat)
    ensures IsDecimal(Show(n))
    ensures n > 0 ==> Show(n)[0] != '0'
  {
    if n >= 10 {
      ShowIsDecimal(n / 10);
    } else if n > 0 {
      assert ValueOf(Show(n)[0]) == n;
    }
  }

  lemma {:induction false} ParsePositive(s: string)
    requires s != "" && s[0] != '0' && forall i | 0 <= i < |s| :: IsDigit(s[i])
    ensures Parse(s) > 0
  {
    if |s| > 1 { ParsePositive(s[..|s| - 1]); } else { assert s[..0] == ""; }
  }

  lemma {:induction false} ShowParse(s: string)
    requires IsDecimal(s)
    ensures Show(Parse(s)) == s
  {
    if |s| == 1 {
      assert s[..0] == "";
    } else {
      var front := s[..|s| - 1];
      ParsePositive(front);
      ShowParse(front);
      assert Parse(s) / 10 == Parse(front) && Parse(s) % 10 == ValueOf(s[|s| - 1]);
      assert DigitOf(ValueOf(s[|s| - 1])) == s[|s| - 1];
    }
  }

  /** The accepted strings are the printed naturals, one string for each number. */
  lemma DecimalsAreNumerals(s: string, t: string)
    ensures IsDecimal(s) <==> exists n: nat :: Show(n) == s
    ensures IsDecimal(s) && IsDecimal(t) ==> (s == t <==> Parse(s) == Parse(t))
  {
    if IsDecimal(s) { ShowParse(s); }
    if IsDecimal(t) { ShowParse(t); }
    if n: nat :| Show(n) == s { ShowIsDecimal(n); }
  }
}
