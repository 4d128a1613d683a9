/** Decimal text for `usize` values: the `Display` form used in response
    lines and the `str::parse::<usize>` used for offsets, on a 64-bit
    target. */
module Decimal {
  import opened Outcomes

  const USIZE_MAX: nat := 0xFFFF_FFFF_FFFF_FFFF

  predicate IsDigit(c: char) { '0' <= c <= '9' }

  predicate AllDigits(s: string) {
    forall i :: 0 <= i < |s| ==> IsDigit(s[i])
  }

  function DigitChar(d: nat): (c: char)
    requires d < 10
    ensures IsDigit(c) && c as int - '0' as int == d
  {
    ('0' as int + d) as char
  }

  /** The number a string of decimal digits denotes (most significant first). */
  function DigitsValue(s: string): nat
    requires AllDigits(s)
  {
    if s == [] then 0 else 10 * DigitsValue(s[..|s| - 1]) + (s[|s| - 1] as int - '0' as int)
  }

  /** `n.to_string()`: the shortest decimal spelling of `n`. */
  function ShowNat(n: nat): (s: string)
    ensures |s| >= 1 && AllDigits(s)
    ensures s[0] == '0' <==> n == 0
    ensures n == 0 ==> s == "0"
    ensures |s| > 1 ==> s[0] != '0'
    ensures DigitsValue(s) == n
  {
    if n < 10 then [DigitChar(n)]
    else
      var p := ShowNat(n / 10);
      var s := p + [DigitChar(n % 10)];
      assert s[..|s| - 1] == p;
      s
  }

  /** `s.parse::<usize>()`: an optional `+`, then at least one decimal
      digit, with a value that fits in 64 bits. */
  function ParseUsize(s: string): (r: Option<nat>)
    ensures r.Some? ==> r.value <= USIZE_MAX
    ensures r.Some? ==> |s| >= 1
    ensures r.Some? && IsDigit(s[0]) ==> AllDigits(s) && r.value == DigitsValue(s)
    ensures var d := if |s| > 0 && s[0] == '+' then s[1..] else s;
              r.Some? <==> |d| > 0 && AllDigits(d) && DigitsValue(d) <= USIZE_MAX
    ensures var d := if |s| > 0 && s[0] == '+' then s[1..] else s;
              r.Some? ==> r.value == DigitsValue(d)
  {
    if s == [] then None
    else if s[0] == '+' then
      if |s| == 1 then None else ParseDigits(s[1..])
    else ParseDigits(s)
  }

  function ParseDigits(d: string): Option<nat> {
    if AllDigits(d) && DigitsValue(d) <= USIZE_MAX then Some(DigitsValue(d)) else None
  }

  /** Parsing the printed form of a number gives the number back exactly
      when it fits in a `usize`. */
  lemma ParseShow(n: nat)
    ensures ParseUsize(ShowNat(n)) == if n <= USIZE_MAX then Some(n) else None
  {
  }

  /** The empty string and a lone sign are rejected rather than read as 0. */
  lemma ParseRejectsEmpty()
    ensures ParseUsize("") == None
    ensures ParseUsize("+") == None
    ensures ParseUsize("-0") == None
  {
    assert !IsDigit('-');
  }
}
