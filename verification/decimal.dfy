/** Decimal numerals over Unicode scalar values: the ASCII-digit test,
    the value of a digit string, and the shortest decimal rendering that
    Rust's `Display` for unsigned integers produces. */
module Decimal {

  import opened Basics

  /** Rust's `char::is_ascii_digit`. */
  predicate IsDigit(c: char) {
    '0' <= c <= '9'
  }

  predicate AllDigits(s: string) {
    forall i :: 0 <= i < |s| ==> IsDigit(s[i])
  }

  function DigitValue(c: char): (d: nat)
    requires IsDigit(c)
    ensures d < 10
  {
    (c as int) - ('0' as int)
  }

  function DigitChar(d: nat): (c: char)
    requires d < 10
    ensures IsDigit(c) && DigitValue(c) == d
  {
    (('0' as int) + d) as char
  }

  /** The value of a digit string read most significant digit first;
      leading zeros contribute nothing. */
  function Value(s: string): nat
    requires AllDigits(s)
  {
    if s == [] then 0 else 10 * Value(s[..|s| - 1]) + DigitValue(s[|s| - 1])
  }

  /** `n.to_string()` for an unsigned integer: no sign, no leading zero. */
  function Format(n: nat): (s: string)
    ensures |s| > 0 && AllDigits(s)
    ensures s[0] != '0' || s == "0"
  {
    if n < 10 then [DigitChar(n)] else Format(n / 10) + [DigitChar(n % 10)]
  }

  /** Reading back a rendered number gives the number. */
  lemma {:induction false} ValueOfFormat(n: nat)
    ensures Value(Format(n)) == n
  {
    if n >= 10 {
      var s := Format(n);
      assert s[..|s| - 1] == Format(n / 10);
      ValueOfFormat(n / 10);
    }
  }

  /** Rust's `u16::from_str`: an optional `+`, then one or more ASCII
      digits whose value fits in 16 bits. */
  function ParseU16(s: string): (r: Option<int>)
    ensures r.Some? ==> 0 <= r.value <= 0xFFFF
    ensures r.Some? ==> s != [] && s != "+"
    ensures s != [] && IsDigit(s[0]) ==>
              (r.Some? <==> AllDigits(s) && Value(s) <= 0xFFFF)
    ensures s != [] && IsDigit(s[0]) && r.Some? ==> r.value == Value(s)
    ensures s != [] && s[0] == '+' ==>
              (r.Some? <==> |s| > 1 && AllDigits(s[1..]) && Value(s[1..]) <= 0xFFFF)
    ensures s != [] && s[0] == '+' && r.Some? ==> r.value == Value(s[1..])
    ensures s == [] || (s[0] != '+' && !IsDigit(s[0])) ==> r.None?
  {
    var digits := if s != [] && s[0] == '+' then s[1..] else s;
    if digits != [] && AllDigits(digits) && Value(digits) <= 0xFFFF
    then Some(Value(digits))
    else None
  }

  /** Every `u16` survives rendering and parsing. */
  lemma ParseU16OfFormat(n: nat)
    requires n <= 0xFFFF
    ensures ParseU16(Format(n)) == Some(n)
  {
    ValueOfFormat(n);
  }
}
