/** Decimal text of non-negative integers, as Python's `str.isdigit`, `int(...)`
    and `str(...)` treat it, restricted to the ASCII digits '0'..'9'. */
module Decimal {

  predicate IsDigit(c: char) { '0' <= c <= '9' }

  /** Every character is a digit (true of the empty string). */
  predicate AllDigits(s: string) { forall i :: 0 <= i < |s| ==> IsDigit(s[i]) }

  /** `s.isdigit()`: false on the empty string, otherwise every character is a digit. */
  predicate IsDigitString(s: string) { |s| > 0 && AllDigits(s) }

  function DigitValue(c: char): (d: int)
    requires IsDigit(c)
    ensures 0 <= d <= 9
  {
    c as int - '0' as int
  }

  function DigitChar(d: int): (c: char)
    requires 0 <= d <= 9
    ensures IsDigit(c) && DigitValue(c) == d
  {
    ('0' as int + d) as char
  }

  /** `int(s)` for a string of digits. The result type is `int`, as in Python;
      its contract says it is never negative. */
  function ParseDigits(s: string): (v: int)
    requires AllDigits(s)
    ensures v >= 0
  {
    if s == [] then 0 else 10 * ParseDigits(s[..|s| - 1]) + DigitValue(s[|s| - 1])
  }

  /** `str(n)` for a non-negative integer n: its shortest decimal text. */
  function ShowNat(n: nat): (s: string)
    ensures IsDigitString(s)
    ensures s[0] == '0' ==> n == 0
  {
    if n < 10 then [DigitChar(n)] else ShowNat(n / 10) + [DigitChar(n % 10)]
  }

  /** A digit string with no superfluous leading zero: what `str` produces. */
  predicate Canonical(s: string) { IsDigitString(s) && (s[0] == '0' ==> s == "0") }

  function Zeros(k: nat): (z: string)
    ensures |z| == k && AllDigits(z)
    ensures forall i :: 0 <= i < k ==> z[i] == '0'
  {
    if k == 0 then [] else Zeros(k - 1) + "0"
  }

  /** The digit string with its superfluous leading zeros removed. */
  function StripZeros(s: string): (t: string)
    requires IsDigitString(s)
    ensures Canonical(t) && |t| <= |s|
    ensures s == Zeros(|s| - |t|) + t
  {
    if |s| > 1 && s[0] == '0' then
      var t := StripZeros(s[1..]);
      ZerosCons(|s[1..]| - |t|);
      t
    else
      s
  }

  lemma ZerosCons(k: nat)
    ensures "0" + Zeros(k) == Zeros(k + 1)
  {
    assert ("0" + Zeros(k))[..] == Zeros(k + 1);
  }

  /** `int(str(n)) == n`. */
  lemma {:induction false} ParseShowNat(n: nat)
    ensures ParseDigits(ShowNat(n)) == n
  {
    var s := ShowNat(n);
    if n >= 10 {
      ParseShowNat(n / 10);
      assert s[..|s| - 1] == ShowNat(n / 10);
    } else {
      assert s[..|s| - 1] == [];
    }
  }

  /** A canonical digit string that is not "0" has a value of at least one. */
  lemma {:induction false} CanonicalPositive(s: string)
    requires IsDigitString(s) && s[0] != '0'
    ensures ParseDigits(s) >= 1
  {
    if |s| > 1 {
      CanonicalPositive(s[..|s| - 1]);
    } else {
      assert s[..|s| - 1] == [];
    }
  }

  /** `str(int(s)) == s` for every canonical digit string. */
  lemma {:induction false} ShowParseCanonical(s: string)
    requires Canonical(s)
    ensures ShowNat(ParseDigits(s)) == s
  {
    var n := |s|;
    if n == 1 {
      assert s[..0] == [];
      assert ShowNat(ParseDigits(s)) == [DigitChar(DigitValue(s[0]))];
    } else {
      var t := s[..n - 1];
      assert t[0] == s[0];
      CanonicalPositive(t);
      ShowParseCanonical(t);
      var v := ParseDigits(s);
      assert v == 10 * ParseDigits(t) + DigitValue(s[n - 1]);
      assert v / 10 == ParseDigits(t) && v % 10 == DigitValue(s[n - 1]);
      assert s == t + [s[n - 1]];
    }
  }

  /** A leading zero does not change the value: `int("0" + s) == int(s)`. */
  lemma {:induction false} ParseLeadingZero(s: string)
    requires AllDigits(s)
    ensures ParseDigits("0" + s) == ParseDigits(s)
  {
    var z := "0" + s;
    if s == [] {
      assert z[..0] == [];
    } else {
      ParseLeadingZero(s[..|s| - 1]);
      assert z[..|z| - 1] == "0" + s[..|s| - 1];
    }
  }

  lemma {:induction false} ParseZerosPrefix(k: nat, s: string)
    requires AllDigits(s)
    ensures AllDigits(Zeros(k) + s)
    ensures ParseDigits(Zeros(k) + s) == ParseDigits(s)
  {
    if k > 0 {
      ParseZerosPrefix(k - 1, s);
      ZerosCons(k - 1);
      assert Zeros(k) + s == "0" + (Zeros(k - 1) + s);
      ParseLeadingZero(Zeros(k - 1) + s);
    } else {
      assert Zeros(k) + s == s;
    }
  }

  /** Every digit string is a run of zeros followed by the decimal text of its
      value, and every such string has that value: `s.isdigit()` strings are
      exactly the strings `"0"*k + str(n)`. */
  lemma DigitStringShape(s: string)
    requires IsDigitString(s)
    ensures |ShowNat(ParseDigits(s))| <= |s|
    ensures s == Zeros(|s| - |ShowNat(ParseDigits(s))|) + ShowNat(ParseDigits(s))
  {
    var t := StripZeros(s);
    ParseZerosPrefix(|s| - |t|, t);
    ShowParseCanonical(t);
  }

  lemma ParseZerosThenShow(k: nat, n: nat)
    ensures IsDigitString(Zeros(k) + ShowNat(n))
    ensures ParseDigits(Zeros(k) + ShowNat(n)) == n
  {
    ParseZerosPrefix(k, ShowNat(n));
    ParseShowNat(n);
  }

  function Pow10(k: nat): (p: nat)
    ensures p >= 1
  {
    if k == 0 then 1 else 10 * Pow10(k - 1)
  }

  /** A number below 10^k has at most k digits. */
  lemma {:induction false} ShowNatShort(n: nat, k: nat)
    requires 1 <= k && n < Pow10(k)
    ensures |ShowNat(n)| <= k
  {
    if n >= 10 {
      assert n / 10 < Pow10(k - 1);
      ShowNatShort(n / 10, k - 1);
    }
  }

  /** Distinct numbers have distinct decimal texts. */
  lemma ShowNatInjective(m: nat, n: nat)
    requires ShowNat(m) == ShowNat(n)
    ensures m == n
  {
    ParseShowNat(m);
    ParseShowNat(n);
  }
}
