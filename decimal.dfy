/** Decimal digit strings: how the front end prints line and column numbers
    (`format!("{}")` of a `usize`) and how it reads an integer literal
    (`str::parse::<i64>`). */
module Decimal {
  import opened Wrappers

  predicate IsDigit(c: char) {
    '0' <= c <= '9'
  }

  predicate AllDigits(s: string) {
    forall i :: 0 <= i < |s| ==> IsDigit(s[i])
  }

  function DigitChar(d: nat): (c: char)
    requires d < 10
    ensures IsDigit(c) && c as int - '0' as int == d
  {
    ['0', '1', '2', '3', '4', '5', '6', '7', '8', '9'][d]
  }

  /** The value of a string of decimal digits, most significant first. */
  function Value(s: string): nat
    requires AllDigits(s)
  {
    if s == [] then 0 else Value(s[..|s| - 1]) * 10 + (s[|s| - 1] as int - '0' as int)
  }

  /** `n.to_string()`: the shortest decimal spelling of `n`. */
  function Show(n: nat): (s: string)
    ensures |s| >= 1 && AllDigits(s)
    ensures |s| > 1 ==> s[0] != '0'
  {
    if n < 10 then [DigitChar(n)] else Show(n / 10) + [DigitChar(n % 10)]
  }

  /** Reading back what `Show` printed gives the number again. */
  lemma {:induction false} ValueShow(n: nat)
    ensures Value(Show(n)) == n
  {
    if n >= 10 {
      var s := Show(n);
      assert s[..|s| - 1] == Show(n / 10);
      ValueShow(n / 10);
    }
  }

  /** Different numbers are printed differently. */
  lemma ShowInjective(a: nat, b: nat)
    ensures Show(a) == Show(b) ==> a == b
  {
    ValueShow(a);
    ValueShow(b);
  }

  /** A digit string followed by a non-digit can be split in one way only:
      this is why a number printed inside a message can be read back. */
  lemma DigitsThenNonDigit(p1: string, x: string, p2: string, y: string)
    requires AllDigits(p1) && AllDigits(p2)
    requires |x| > 0 && !IsDigit(x[0]) && |y| > 0 && !IsDigit(y[0])
    requires p1 + x == p2 + y
    ensures p1 == p2 && x == y
  {
    assert p1 == (p1 + x)[..|p1|];
    assert p2 == (p2 + y)[..|p2|];
    assert x == (p1 + x)[|p1|..];
    assert y == (p2 + y)[|p2|..];
  }

  const I64Min: int := -0x8000_0000_0000_0000
  const I64Max: int := 0x7FFF_FFFF_FFFF_FFFF

  /** `s.parse::<i64>()`: an optional `+` or `-`, then at least one ASCII
      digit, with the value in the range of `i64`; `None` stands for `Err`. */
  function ParseI64(s: string): (r: Option<int>)
    ensures r.Some? ==> I64Min <= r.value <= I64Max
  {
    var neg := |s| > 0 && s[0] == '-';
    var digits := if |s| > 0 && (s[0] == '-' || s[0] == '+') then s[1..] else s;
    if digits == [] || !AllDigits(digits) then None
    else
      var v: int := if neg then -(Value(digits) as int) else Value(digits);
      if I64Min <= v <= I64Max then Some(v) else None
  }

  /** An unsigned digit string parses to its value exactly when that value
      fits in an `i64`. */
  lemma ParseDigits(s: string)
    requires |s| > 0 && AllDigits(s)
    ensures ParseI64(s) == if Value(s) <= I64Max then Some(Value(s)) else None
  {
  }

  /** Printing and parsing are inverse on the non-negative `i64` range. */
  lemma ParseShow(n: nat)
    requires n <= I64Max
    ensures ParseI64(Show(n)) == Some(n)
  {
    ValueShow(n);
  }
}
