/**
 Decimal numerals as the standard library of the source language reads and writes them: `Format`
 prints any integer, `Parse` accepts an optional sign and digits within the 64-bit signed range.
 */
module Numeral {

  datatype Option<T> = None | Some(value: T)

  const INT64_MIN: int := -0x8000_0000_0000_0000
  const INT64_MAX: int := 0x7fff_ffff_ffff_ffff

  predicate InInt64(n: int) {
    INT64_MIN <= n <= INT64_MAX
  }

  /** Two's complement wrap-around of 64-bit arithmetic. */
  function Wrap64(n: int): (r: int)
    ensures InInt64(r) && (InInt64(n) ==> r == n)
  {
    (n - INT64_MIN) % 0x1_0000_0000_0000_0000 + INT64_MIN
  }

  predicate IsDigit(c: char) {
    '0' <= c <= '9'
  }

  predicate AllDigits(s: string) {
    forall i :: 0 <= i < |s| ==> IsDigit(s[i])
  }

  function FormatNat(n: nat): (s: string)
    ensures s != [] && AllDigits(s)
  {
    var d := [(n % 10 + 48) as char];
    if n < 10 then d else FormatNat(n / 10) + d
  }

  function Format(n: int): (s: string)
    ensures s != [] && forall i :: 0 <= i < |s| ==> s[i] == '-' || IsDigit(s[i])
  {
    if n < 0 then "-" + FormatNat(-n) else FormatNat(n)
  }

  function DigitsValue(s: string): (n: int)
    requires AllDigits(s)
    ensures n >= 0
  {
    if s == [] then 0 else DigitsValue(s[..|s| - 1]) * 10 + (s[|s| - 1] as int - 48)
  }

  function Parse(s: string): (r: Option<int>)
    ensures r.Some? ==> InInt64(r.value)
  {
    if s == [] then None
    else
      var digits := if s[0] == '+' || s[0] == '-' then s[1..] else s;
      if digits == [] || !AllDigits(digits) then None
      else
        var n := if s[0] == '-' then -DigitsValue(digits) else DigitsValue(digits);
        if InInt64(n) then Some(n) else None
  }

  lemma {:induction false} DigitsValueFormat(n: nat)
    ensures DigitsValue(FormatNat(n)) == n
  {
    if n < 10 {
      assert FormatNat(n)[..0] == [];
    } else {
      var s := FormatNat(n);
      DigitsValueFormat(n / 10);
      assert s[..|s| - 1] == FormatNat(n / 10);
    }
  }

  /** Every 64-bit integer is read back from its numeral. */
  lemma ParseFormat(n: int)
    requires InInt64(n)
    ensures Parse(Format(n)) == Some(n)
  {
    if n < 0 {
      DigitsValueFormat(-n);
      assert Format(n)[1..] == FormatNat(-n);
    } else {
      DigitsValueFormat(n);
      assert IsDigit(Format(n)[0]);
    }
  }

  /** No plus sign and no leading zero. */
  predicate IsCanonical(s: string) {
    var digits := if s != [] && s[0] == '-' then s[1..] else s;
    digits != [] && AllDigits(digits) && (digits[0] == '0' ==> s == "0")
  }

  lemma {:induction false} FormatLeads(n: nat)
    ensures FormatNat(n)[0] == '0' ==> n == 0 && FormatNat(n) == "0"
  {
    if n >= 10 {
      FormatLeads(n / 10);
    }
  }

  lemma {:induction false} FormatDigits(s: string)
    requires s != [] && AllDigits(s) && (s[0] == '0' ==> |s| == 1)
    ensures FormatNat(DigitsValue(s)) == s
    ensures s[0] != '0' ==> DigitsValue(s) > 0
  {
    var init, last := s[..|s| - 1], s[|s| - 1];
    if init == [] {
      assert DigitsValue(s) == last as int - 48;
    } else {
      FormatDigits(init);
      var v, d := DigitsValue(init), last as int - 48;
      assert (v * 10 + d) / 10 == v && (v * 10 + d) % 10 == d;
      assert init + [last] == s;
    }
  }

  /** An integer's text survives being stored as a number exactly if it is canonical. */
  lemma CanonicalText(s: string)
    requires Parse(s).Some?
    ensures Format(Parse(s).value) == s <==> IsCanonical(s)
  {
    hide FormatNat, DigitsValue;
    var n := Parse(s).value;
    var digits := if s[0] == '+' || s[0] == '-' then s[1..] else s;
    if IsCanonical(s) {
      FormatDigits(digits);
    } else if n < 0 {
      FormatLeads(-n);
      assert ("-" + FormatNat(-n))[1..] == FormatNat(-n);
    } else {
      FormatLeads(n);
    }
  }
}
