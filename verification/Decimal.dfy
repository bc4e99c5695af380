/** The texts of numbers are their decimal texts, told without the functions that print
    and read them. */
module Decimal {
  import opened Text

  const DIGITS := "0123456789"

  function Power(k: nat): nat { if k == 0 then 1 else 10 * Power(k - 1) }

  /** The digits of a text, most significant first. */
  predicate Spells(s: string, digits: seq<nat>) {
    |s| == |digits| && forall i :: 0 <= i < |s| ==> digits[i] < 10 && s[i] == DIGITS[digits[i]]
  }

  /** The value of digits: each times the power of ten of its position. */
  function Weighted(digits: seq<nat>): nat {
    if digits == [] then 0 else digits[0] * Power(|digits| - 1) + Weighted(digits[1..])
  }

  /** The decimal text of n: digits of that value, and no leading zero. */
  ghost predicate IsDecimal(s: string, n: nat) {
    && s != "" && (|s| > 1 ==> s[0] != '0')
    && exists digits :: Spells(s, digits) && Weighted(digits) == n
  }

  lemma {:induction false} WeightedSnoc(digits: seq<nat>, d: nat)
    ensures Weighted(digits + [d]) == 10 * Weighted(digits) + d
  {
    var more := digits + [d];
    if digits == [] {
      assert more[1..] == [];
    } else {
      assert more[1..] == digits[1..] + [d];
      WeightedSnoc(digits[1..], d);
      assert Power(|digits|) == 10 * Power(|digits| - 1);
      assert digits[0] * (10 * Power(|digits| - 1)) == 10 * (digits[0] * Power(|digits| - 1));
    }
  }

  lemma {:induction false} PowerPositive(k: nat)
    ensures Power(k) >= 1
  {
    if k > 0 {
      PowerPositive(k - 1);
    }
  }

  lemma LeadingDigit(digits: seq<nat>)
    requires digits != [] && digits[0] > 0
    ensures Weighted(digits) >= 1
  {
    PowerPositive(|digits| - 1);
    assert digits[0] * Power(|digits| - 1) >= 1;
  }

  lemma {:induction false} PrintedDigits(n: nat) returns (digits: seq<nat>)
    ensures Spells(PrintNat(n), digits) && Weighted(digits) == n
    ensures |PrintNat(n)| > 1 ==> PrintNat(n)[0] != '0'
    ensures n > 0 ==> PrintNat(n)[0] != '0'
  {
    if n < 10 {
      digits := [n];
      assert digits[1..] == [];
    } else {
      var init := PrintedDigits(n / 10);
      digits := init + [n % 10];
      WeightedSnoc(init, n % 10);
    }
  }

  lemma ZeroDigit(d: nat)
    requires d < 10
    ensures DIGITS[d] == '0' <==> d == 0
  {
  }

  lemma PrintSnoc(m: nat, d: nat)
    requires d < 10
    ensures PrintNat(10 * m + d) == if m == 0 then [DIGITS[d]] else PrintNat(m) + [DIGITS[d]]
  {
    assert (10 * m + d) / 10 == m && (10 * m + d) % 10 == d;
  }

  lemma NoDigits(digits: seq<nat>)
    requires |digits| == 0
    ensures Weighted(digits) == 0
  {
  }

  /** No other text is the decimal text of n. */
  lemma {:induction false} DecimalIsPrinted(s: string, digits: seq<nat>)
    requires s != "" && (|s| > 1 ==> s[0] != '0') && Spells(s, digits)
    ensures s == PrintNat(Weighted(digits))
    decreases |s|
  {
    hide PrintNat, Weighted;
    var k := |s| - 1;
    var init, d := digits[..k], digits[k];
    assert digits == init + [d] && s == s[..k] + [s[k]];
    WeightedSnoc(init, d);
    PrintSnoc(Weighted(init), d);
    if k == 0 {
      NoDigits(init);
    } else {
      ZeroDigit(digits[0]);
      LeadingDigit(init);
      DecimalIsPrinted(s[..k], init);
    }
  }

  /** Naturals print as their decimal text, and as nothing else. */
  lemma NaturalsPrintInDecimal(n: nat, s: string)
    ensures s == PrintNat(n) <==> IsDecimal(s, n)
  {
    var printed := PrintedDigits(n);
    if IsDecimal(s, n) {
      var digits :| Spells(s, digits) && Weighted(digits) == n;
      DecimalIsPrinted(s, digits);
    }
  }

  /** So do integers, the negative ones behind a minus sign; a bool is a 1 or a 0. */
  lemma IntegersPrintInDecimal(n: int, s: string)
    ensures s == PrintInt(n) <==>
              if n >= 0 then IsDecimal(s, n) else s != "" && s[0] == '-' && IsDecimal(s[1..], -n)
    ensures PrintBool(true) == "1" && PrintBool(false) == "0"
  {
    if n >= 0 {
      NaturalsPrintInDecimal(n, s);
    } else if s != "" {
      NaturalsPrintInDecimal(-n, s[1..]);
      if s[0] == '-' && s[1..] == PrintNat(-n) {
        assert s == "-" + s[1..];
      }
      if s == PrintInt(n) {
        assert s[1..] == PrintNat(-n);
      }
    }
  }
}
