/** ASCII decimal digit strings: their value, zero-padded printing (`strftime`'s `%Y`, `%m`, ...)
    and the one- or two-digit fields that `strptime` reads. */
module Decimal {
  import opened Wrappers

  predicate IsDigit(c: char) { '0' <= c <= '9' }

  predicate AllDigits(s: string) {
    forall i :: 0 <= i < |s| ==> IsDigit(s[i])
  }

  function DigitValue(c: char): (d: nat)
    requires IsDigit(c)
    ensures d < 10
  {
    c as int - '0' as int
  }

  function Digit(d: nat): (c: char)
    requires d < 10
    ensures IsDigit(c) && DigitValue(c) == d
  {
    ('0' as int + d) as char
  }

  function Pow10(n: nat): (p: nat)
    ensures p >= 1
  {
    if n == 0 then 1 else 10 * Pow10(n - 1)
  }

  /** The number a string of digits denotes, most significant digit first. */
  function Value(s: string): nat
    requires AllDigits(s)
  {
    if |s| == 0 then 0 else Value(s[..|s| - 1]) * 10 + DigitValue(s[|s| - 1])
  }

  /** `n` printed in exactly `width` digits with leading zeros. */
  function Pad(n: nat, width: nat): (s: string)
    requires n < Pow10(width)
    ensures |s| == width && AllDigits(s) && Value(s) == n
  {
    if width == 0 then ""
    else
      var s := Pad(n / 10, width - 1) + [Digit(n % 10)];
      assert s[..|s| - 1] == Pad(n / 10, width - 1);
      s
  }

  /** `n` printed without leading zeros, for a number below 100. */
  function Short(n: nat): (s: string)
    requires n < 100
    ensures 1 <= |s| <= 2 && AllDigits(s) && Value(s) == n
    ensures |s| == 2 ==> s[0] != '0'
  {
    if n < 10 then Pad(n, 1) else Pad(n, 2)
  }

  /** A parsed value and the text that follows it. */
  datatype Parsed<+T> = Parsed(value: T, rest: string)

  /** A field of one or two digits, as `strptime` reads `%d`, `%H`, `%M` and `%S`:
      two digits when two are there, otherwise one. */
  function Digits12(s: string): (r: Option<Parsed<nat>>)
    ensures r.Some? ==> r.value.value < 100 && |r.value.rest| < |s|
  {
    if |s| >= 2 && IsDigit(s[0]) && IsDigit(s[1]) then
      Some(Parsed(DigitValue(s[0]) * 10 + DigitValue(s[1]), s[2..]))
    else if |s| >= 1 && IsDigit(s[0]) then
      Some(Parsed(DigitValue(s[0]), s[1..]))
    else
      None
  }

  /** Exactly four digits, as `strptime` reads `%Y`. */
  function Digits4(s: string): (r: Option<Parsed<nat>>)
    ensures r.Some? ==> |s| >= 4 && r.value.value < 10000 && r.value.rest == s[4..]
  {
    if |s| >= 4 && AllDigits(s[..4]) then
      ValueBelow(s[..4]);
      Some(Parsed(Value(s[..4]), s[4..]))
    else None
  }

  lemma {:induction false} ValueBelow(s: string)
    requires AllDigits(s)
    ensures Value(s) < Pow10(|s|)
  {
    if |s| > 0 {
      ValueBelow(s[..|s| - 1]);
    }
  }

  predicate StartsWithNonDigit(s: string) {
    |s| == 0 || !IsDigit(s[0])
  }

  lemma {:induction false} ValueOfTwo(s: string)
    requires |s| == 2 && AllDigits(s)
    ensures Value(s) == DigitValue(s[0]) * 10 + DigitValue(s[1])
  {
    assert s[..1][..0] == [];
    assert Value(s[..1]) == DigitValue(s[0]);
  }

  /** Reading back a number printed by `Short` or by `Pad(_, 2)`. */
  lemma {:induction false} Digits12Reads(t: string, n: nat, rest: string)
    requires 1 <= |t| <= 2 && AllDigits(t) && Value(t) == n
    requires StartsWithNonDigit(rest)
    ensures Digits12(t + rest) == Some(Parsed(n, rest))
  {
    var s := t + rest;
    if |t| == 2 {
      ValueOfTwo(t);
      assert s[2..] == rest;
    } else {
      assert t[..0] == [];
      assert s[1..] == rest;
    }
  }

  lemma {:induction false} Digits4Reads(t: string, rest: string)
    requires |t| == 4 && AllDigits(t)
    ensures Digits4(t + rest) == Some(Parsed(Value(t), rest))
  {
    var s := t + rest;
    assert s[..4] == t;
    assert s[4..] == rest;
  }

  /** Two-digit printing, digit by digit. */
  lemma PadTwo(n: nat)
    requires n < 100
    ensures Pad(n, 2) == [Digit(n / 10), Digit(n % 10)]
  {
    assert Pad(n / 10, 1) == Pad(n / 10 / 10, 0) + [Digit(n / 10 % 10)];
  }
}
