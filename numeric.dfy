/**
 * Unsigned integer parsing and formatting as Rust's standard library does it.
 *
 * The program parses network keys with `str::parse::<u64>` (decimal) and
 * balances with `u128::from_str_radix(_, 16)`. Both are `from_str_radix`: one
 * optional leading `+`, then one or more digits of the radix (letters of either
 * case stand for 10 and up), accumulated left to right with checked
 * multiplication and addition so that a value that does not fit the integer
 * type is an error rather than a wrap-around.
 */
module Numeric {
  import opened Wrappers

  /** One past the largest `u32`. */
  const U32_LIMIT: int := 0x1_0000_0000
  /** One past the largest `u64`. */
  const U64_LIMIT: int := 0x1_0000_0000_0000_0000
  /** One past the largest `u128`. */
  const U128_LIMIT: int := 0x1_0000_0000_0000_0000_0000_0000_0000_0000

  type U32 = x: int | 0 <= x < U32_LIMIT
  type U64 = x: int | 0 <= x < U64_LIMIT
  type U128 = x: int | 0 <= x < U128_LIMIT

  /** The radixes `from_str_radix` accepts (it panics on any other). */
  type Radix = r: int | 2 <= r <= 36 witness 10

  /** `char::to_digit(radix)`: `0`-`9` are 0-9, a letter of either case is 10
      for `a` onwards; a character whose value is not below the radix is no digit. */
  function DigitValue(c: char, radix: Radix): (d: Option<nat>)
    ensures d.Some? ==> d.value < radix
  {
    var v :=
      if '0' <= c <= '9' then c as int - '0' as int
      else if 'a' <= c <= 'z' then c as int - 'a' as int + 10
      else if 'A' <= c <= 'Z' then c as int - 'A' as int + 10
      else 36;
    if v < radix then Some(v) else None
  }

  predicate AllDigits(s: string, radix: Radix) {
    forall i :: 0 <= i < |s| ==> DigitValue(s[i], radix).Some?
  }

  /** The positional reading of `s` in `radix`, most significant digit first. */
  function DigitsValue(s: string, radix: Radix): nat
    requires AllDigits(s, radix)
  {
    if s == [] then 0
    else DigitsValue(s[..|s| - 1], radix) * radix + DigitValue(s[|s| - 1], radix).value
  }

  /** Horner's rule without bounds: `acc` followed by the digits of `s`. */
  function Horner(acc: nat, s: string, radix: Radix): nat
    requires AllDigits(s, radix)
    decreases |s|
  {
    if s == [] then acc
    else Horner(acc * radix + DigitValue(s[0], radix).value, s[1..], radix)
  }

  /**
   * The digit loop of `from_str_radix`: each step multiplies the running value
   * by the radix and adds the next digit, and gives up on a non-digit or as
   * soon as the running value would reach `limit` (the checked `mul`/`add`).
   */
  function CheckedHorner(acc: nat, s: string, radix: Radix, limit: nat): (r: Option<nat>)
    requires acc < limit
    ensures r.Some? ==> acc <= r.value < limit
    decreases |s|
  {
    if s == [] then Some(acc)
    else
      match DigitValue(s[0], radix)
      case None => None
      case Some(d) =>
        var next := acc * radix + d;
        GrowsWithRadix(acc, radix);
        if next < limit then CheckedHorner(next, s[1..], radix, limit) else None
  }

  /** What remains after `from_str_radix` strips one leading `+`. */
  function Unsigned(src: string): string {
    if |src| > 0 && src[0] == '+' then src[1..] else src
  }

  /** The texts `from_str_radix` reads as a number: an optional `+` and at least one digit. */
  predicate WellFormed(src: string, radix: Radix) {
    Unsigned(src) != [] && AllDigits(Unsigned(src), radix)
  }

  /**
   * `from_str_radix(src, radix)` for an unsigned type whose values are below
   * `limit`: empty text, a lone sign, a non-digit (including a `-`, which
   * unsigned types do not accept) or an overflow is an error (`None`).
   */
  function FromStrRadix(src: string, radix: Radix, limit: nat): (r: Option<nat>)
    requires limit > 0
    ensures r.Some? ==> r.value < limit
  {
    if src == [] then None
    else if |src| == 1 && (src[0] == '+' || src[0] == '-') then None
    else CheckedHorner(0, Unsigned(src), radix, limit)
  }

  /** `str::parse::<u64>()`. */
  function ParseU64(src: string): (r: Option<U64>)
    ensures r.Some? <==> WellFormed(src, 10) && DigitsValue(Unsigned(src), 10) < U64_LIMIT
    ensures r.Some? ==> r.value == DigitsValue(Unsigned(src), 10)
  {
    FromStrRadixMeaning(src, 10, U64_LIMIT);
    match FromStrRadix(src, 10, U64_LIMIT)
    case None => None
    case Some(v) => Some(v)
  }

  /** `u128::from_str_radix(src, 16)`. */
  function ParseHexU128(src: string): (r: Option<U128>)
    ensures r.Some? <==> WellFormed(src, 16) && DigitsValue(Unsigned(src), 16) < U128_LIMIT
    ensures r.Some? ==> r.value == DigitsValue(Unsigned(src), 16)
  {
    FromStrRadixMeaning(src, 16, U128_LIMIT);
    match FromStrRadix(src, 16, U128_LIMIT)
    case None => None
    case Some(v) => Some(v)
  }

  /** The lower-case digit character for `v` (as `Display` and `LowerHex` write it). */
  function DigitChar(v: nat): char
    requires v < 36
  {
    if v < 10 then ('0' as int + v) as char else ('a' as int + v - 10) as char
  }

  /** `n` written in `radix` without leading zeros, letters in lower case. */
  function Format(n: nat, radix: Radix): (s: string)
    ensures s != [] && AllDigits(s, radix)
    ensures s[0] == '0' ==> n == 0
    decreases n
  {
    if n < radix then [DigitChar(n)]
    else
      DivModRadix(n, radix);
      var prefix := Format(n / radix, radix);
      DigitCharValue(n % radix, radix);
      prefix + [DigitChar(n % radix)]
  }

  // ---------------------------------------------------------------------------
  // Lemmas

  lemma DivModRadix(n: nat, radix: Radix)
    requires n >= radix
    ensures n == n / radix * radix + n % radix && 0 <= n % radix < radix
    ensures 1 <= n / radix < n
  {
    var q, r := n / radix, n % radix;
    assert n == q * radix + r;
    assert q * radix >= q * 2;
  }

  lemma GrowsWithRadix(acc: nat, radix: Radix)
    ensures acc <= acc * radix
  {
    assert acc * radix == acc + acc * (radix - 1);
  }

  lemma DigitCharValue(v: nat, radix: Radix)
    requires v < radix
    ensures DigitValue(DigitChar(v), radix) == Some(v)
  {
  }

  lemma {:induction false} HornerAtLeast(acc: nat, s: string, radix: Radix)
    requires AllDigits(s, radix)
    ensures acc <= Horner(acc, s, radix)
    decreases |s|
  {
    if s != [] {
      var next := acc * radix + DigitValue(s[0], radix).value;
      GrowsWithRadix(acc, radix);
      HornerAtLeast(next, s[1..], radix);
    }
  }

  lemma {:induction false} HornerSnoc(acc: nat, s: string, c: char, radix: Radix)
    requires AllDigits(s, radix) && DigitValue(c, radix).Some?
    ensures AllDigits(s + [c], radix)
    ensures Horner(acc, s + [c], radix) == Horner(acc, s, radix) * radix + DigitValue(c, radix).value
    decreases |s|
  {
    if s == [] {
      assert [c][1..] == [];
    } else {
      assert (s + [c])[1..] == s[1..] + [c];
      HornerSnoc(acc * radix + DigitValue(s[0], radix).value, s[1..], c, radix);
    }
  }

  /** Horner's rule computes the positional reading. */
  lemma {:induction false} HornerIsDigitsValue(s: string, radix: Radix)
    requires AllDigits(s, radix)
    ensures Horner(0, s, radix) == DigitsValue(s, radix)
    decreases |s|
  {
    if s != [] {
      var prefix, last := s[..|s| - 1], s[|s| - 1];
      assert prefix + [last] == s;
      HornerIsDigitsValue(prefix, radix);
      HornerSnoc(0, prefix, last, radix);
    }
  }

  /** The checked loop succeeds exactly when every character is a digit and the
      unbounded value stays below the limit, and then yields that value. */
  lemma {:induction false} CheckedHornerMeaning(acc: nat, s: string, radix: Radix, limit: nat)
    requires acc < limit
    ensures CheckedHorner(acc, s, radix, limit) ==
      if AllDigits(s, radix) && Horner(acc, s, radix) < limit then Some(Horner(acc, s, radix)) else None
    decreases |s|
  {
    if s != [] {
      match DigitValue(s[0], radix)
      case None =>
        assert !AllDigits(s, radix);
      case Some(d) =>
        var next := acc * radix + d;
        assert AllDigits(s, radix) <==> AllDigits(s[1..], radix) by {
          if AllDigits(s[1..], radix) {
            forall i | 0 <= i < |s| ensures DigitValue(s[i], radix).Some? {
              if i > 0 { assert s[i] == s[1..][i - 1]; }
            }
          }
        }
        if next < limit {
          CheckedHornerMeaning(next, s[1..], radix, limit);
        } else if AllDigits(s[1..], radix) {
          HornerAtLeast(next, s[1..], radix);
        }
    }
  }

  /** `from_str_radix` accepts exactly the well-formed texts whose value fits,
      and returns the positional reading of their digits. */
  lemma FromStrRadixMeaning(src: string, radix: Radix, limit: nat)
    requires limit > 0
    ensures FromStrRadix(src, radix, limit) ==
      if WellFormed(src, radix) && DigitsValue(Unsigned(src), radix) < limit
      then Some(DigitsValue(Unsigned(src), radix))
      else None
  {
    if src != [] && !(|src| == 1 && (src[0] == '+' || src[0] == '-')) {
      CheckedHornerMeaning(0, Unsigned(src), radix, limit);
      if AllDigits(Unsigned(src), radix) {
        HornerIsDigitsValue(Unsigned(src), radix);
      }
    } else if src != [] && src[0] == '-' {
      assert DigitValue(Unsigned(src)[0], radix).None?;
    }
  }

  /** Reading back what `Format` writes gives the number again. */
  lemma {:induction false} FormatValue(n: nat, radix: Radix)
    ensures DigitsValue(Format(n, radix), radix) == n
    decreases n
  {
    if n >= radix {
      DivModRadix(n, radix);
      var s := Format(n, radix);
      var prefix := Format(n / radix, radix);
      DigitCharValue(n % radix, radix);
      assert s[..|s| - 1] == prefix;
      FormatValue(n / radix, radix);
    } else {
      DigitCharValue(n, radix);
    }
  }

  /** Formatting any value of the integer type and parsing it back is the identity. */
  lemma FormatRoundTrip(n: nat, radix: Radix, limit: nat)
    requires n < limit
    ensures FromStrRadix(Format(n, radix), radix, limit) == Some(n)
  {
    var s := Format(n, radix);
    FromStrRadixMeaning(s, radix, limit);
    FormatValue(n, radix);
    assert DigitValue(s[0], radix).Some?;
    assert Unsigned(s) == s;
  }

  /** `str::parse::<u64>` maps several texts to one number: leading zeros and
      a `+` sign are accepted, a `-` sign and overflow are not. */
  lemma ParseU64Examples()
    ensures ParseU64("1") == ParseU64("01") == ParseU64("+1") == Some(1)
    ensures ParseU64("") == ParseU64("+") == ParseU64("-1") == ParseU64("1_0") == None
  {
  }
}
