/**
 * Integer text conversions the terminal relies on from Rust's standard library:
 * `from_str_radix` / `from_str` for unsigned integers, and the `{}` / `{:x}`
 * formatting of unsigned integers (no padding, lower-case hex digits).
 */
module Radix {
  import opened Wrappers

  /** Rust's `u8`. */
  type u8 = n: int | 0 <= n < 256

  /** The digit value of an ASCII alphanumeric, before any radix check (`char::to_digit`). */
  function CharValue(c: char): Option<nat> {
    if '0' <= c <= '9' then Some(c as int - '0' as int)
    else if 'a' <= c <= 'z' then Some(c as int - 'a' as int + 10)
    else if 'A' <= c <= 'Z' then Some(c as int - 'A' as int + 10)
    else None
  }

  predicate IsDigit(c: char, radix: nat) {
    CharValue(c).Some? && CharValue(c).value < radix
  }

  predicate AllDigits(s: string, radix: nat) {
    forall i :: 0 <= i < |s| ==> IsDigit(s[i], radix)
  }

  /** The value of a digit string, most significant digit first. */
  function DigitsValue(s: string, radix: nat): nat
    requires AllDigits(s, radix)
  {
    if s == [] then 0 else DigitsValue(s[..|s| - 1], radix) * radix + CharValue(s[|s| - 1]).value
  }

  lemma OneDigit(s: string, radix: nat)
    requires |s| == 1 && AllDigits(s, radix)
    ensures DigitsValue(s, radix) == CharValue(s[0]).value
  {
    assert s[..0] == [];
  }

  lemma TwoDigits(s: string, radix: nat)
    requires |s| == 2 && AllDigits(s, radix)
    ensures DigitsValue(s, radix) == CharValue(s[0]).value * radix + CharValue(s[1]).value
  {
    var h := s[..1];
    assert AllDigits(h, radix);
    assert s == h + [s[1]];
    DigitsValueSnoc(h, s[1], radix);
    OneDigit(h, radix);
  }

  /** A non-empty digit string within range parses to its value. */
  lemma FromStrRadixDigits(s: string, radix: nat, max: nat)
    requires 2 <= radix <= 36
    requires s != [] && AllDigits(s, radix) && DigitsValue(s, radix) <= max
    ensures FromStrRadix(s, radix, max) == Some(DigitsValue(s, radix))
  {
    assert IsDigit(s[0], radix);
  }

  function Pow(b: nat, e: nat): nat {
    if e == 0 then 1 else b * Pow(b, e - 1)
  }

  /**
   * `from_str_radix` for an unsigned type whose largest value is `max`: an
   * optional leading '+', then at least one digit; a value above `max` is an
   * overflow error.
   */
  function FromStrRadix(s: string, radix: nat, max: nat): (r: Option<nat>)
    requires 2 <= radix <= 36
    ensures r.Some? ==> r.value <= max
    ensures r.Some? ==> s != [] && s != "+"
    ensures r.Some? ==> forall i :: 0 <= i < |s| ==> IsDigit(s[i], radix) || (i == 0 && s[i] == '+')
  {
    if s == [] then None
    else
      var digits := if s[0] == '+' then s[1..] else s;
      if digits == [] || !AllDigits(digits, radix) then None
      else if DigitsValue(digits, radix) <= max then Some(DigitsValue(digits, radix))
      else None
  }

  /** The text after an optional leading '+'. */
  function Unsigned(s: string): (t: string)
    ensures |t| <= |s| && t == s[|s| - |t|..]
  {
    if s != [] && s[0] == '+' then s[1..] else s
  }

  /**
   * What `from_str_radix` accepts and what it returns: the text is accepted
   * exactly when the part after an optional '+' is a non-empty digit string
   * whose value fits, and the result is that value.
   */
  lemma FromStrRadixSpec(s: string, radix: nat, max: nat)
    requires 2 <= radix <= 36
    ensures FromStrRadix(s, radix, max).Some? <==>
      Unsigned(s) != [] && AllDigits(Unsigned(s), radix) && DigitsValue(Unsigned(s), radix) <= max
    ensures FromStrRadix(s, radix, max).Some? ==> FromStrRadix(s, radix, max).value == DigitsValue(Unsigned(s), radix)
  {
  }

  /** A well-formed number too large for the type is an overflow error, not a value. */
  lemma FromStrRadixOverflow(s: string, radix: nat, max: nat)
    requires 2 <= radix <= 36
    requires s != [] && AllDigits(s, radix) && DigitsValue(s, radix) > max
    ensures FromStrRadix(s, radix, max) == None
    ensures FromStrRadix("+" + s, radix, max) == None
  {
    assert IsDigit(s[0], radix);
    var t := "+" + s;
    assert t[0] == '+' && t[1..] == s;
  }

  /** The lower-case digit character for `d`. */
  function DigitChar(d: nat): (c: char)
    requires d < 36
    ensures CharValue(c) == Some(d)
    ensures '0' <= c <= '9' || 'a' <= c <= 'z'
  {
    if d < 10 then ('0' as int + d) as char else ('a' as int + d - 10) as char
  }

  /** Unpadded formatting of `n` in `radix`: `{}` for radix 10, `{:x}` for radix 16. */
  function ToStrRadix(n: nat, radix: nat): (s: string)
    requires 2 <= radix <= 36
    ensures s != [] && AllDigits(s, radix)
    ensures DigitsValue(s, radix) == n
    ensures |s| > 1 ==> s[0] != '0'
    ensures forall i :: 0 <= i < |s| ==> '0' <= s[i] <= '9' || 'a' <= s[i] <= 'z'
    decreases n
  {
    if n < radix then [DigitChar(n)]
    else
      DivLess(n, radix);
      var t := ToStrRadix(n / radix, radix);
      AppendDigit(n, radix, t);
      t + [DigitChar(n % radix)]
  }

  lemma DivLess(n: nat, radix: nat)
    requires 2 <= radix <= n
    ensures 1 <= n / radix < n
  {
  }

  /** The step of `ToStrRadix`: the digits of `n / radix` followed by the digit `n % radix` spell `n`. */
  lemma AppendDigit(n: nat, radix: nat, t: string)
    requires 2 <= radix <= 36 && radix <= n
    requires t != [] && AllDigits(t, radix) && DigitsValue(t, radix) == n / radix
    requires |t| > 1 ==> t[0] != '0'
    requires forall i :: 0 <= i < |t| ==> '0' <= t[i] <= '9' || 'a' <= t[i] <= 'z'
    ensures var s := t + [DigitChar(n % radix)];
      AllDigits(s, radix) && DigitsValue(s, radix) == n && s[0] != '0' &&
      forall i :: 0 <= i < |s| ==> '0' <= s[i] <= '9' || 'a' <= s[i] <= 'z'
  {
    var c := DigitChar(n % radix);
    DigitsValueSnoc(t, c, radix);
    DivMod(n, radix);
    DivLess(n, radix);
    if |t| == 1 {
      OneDigit(t, radix);
    }
    assert (t + [c])[0] == t[0];
  }

  /** Appending one digit multiplies the value by the radix and adds the digit. */
  lemma DigitsValueSnoc(t: string, c: char, radix: nat)
    requires AllDigits(t, radix) && IsDigit(c, radix)
    ensures AllDigits(t + [c], radix)
    ensures DigitsValue(t + [c], radix) == DigitsValue(t, radix) * radix + CharValue(c).value
  {
    var s := t + [c];
    assert s[..|s| - 1] == t;
  }

  lemma DivMod(n: nat, d: nat)
    requires d > 0
    ensures n / d * d + n % d == n
  {
  }

  function Decimal(n: nat): (s: string)
    ensures s != []
  {
    ToStrRadix(n, 10)
  }

  /** Formatting then parsing gives the number back, whatever its width. */
  lemma RoundTrip(n: nat, radix: nat, max: nat)
    requires 2 <= radix <= 36 && n <= max
    ensures FromStrRadix(ToStrRadix(n, radix), radix, max) == Some(n)
  {
    var s := ToStrRadix(n, radix);
    assert IsDigit(s[0], radix);
  }

  /** Unpadded hex of a byte has one digit below 0x10 and two from 0x10 on. */
  lemma HexByteLength(n: nat)
    requires n < 256
    ensures |ToStrRadix(n, 16)| == if n < 16 then 1 else 2
  {
    if n >= 16 {
      assert n / 16 < 16;
    }
  }

  lemma AllDigitsAppend(a: string, b: string, radix: nat)
    requires AllDigits(a, radix) && AllDigits(b, radix)
    ensures AllDigits(a + b, radix)
  {
    forall i | 0 <= i < |a + b| ensures IsDigit((a + b)[i], radix) {
      if i < |a| { assert (a + b)[i] == a[i]; } else { assert (a + b)[i] == b[i - |a|]; }
    }
  }

  lemma ShiftDigit(va: nat, p: nat, vb: nat, radix: nat, d: nat)
    ensures (va * p + vb) * radix + d == va * (radix * p) + (vb * radix + d)
  {
  }

  /** The arithmetic of one step of `DigitsValueAppend`, on the values alone. */
  lemma AppendStep(va: nat, vb': nat, d: nat, p: nat, radix: nat, vab': nat, vab: nat, vb: nat)
    requires vab' == va * p + vb'
    requires vab == vab' * radix + d && vb == vb' * radix + d
    ensures vab == va * (radix * p) + vb
  {
    ShiftDigit(va, p, vb', radix, d);
  }

  /** The value of two concatenated digit strings. */
  lemma {:induction false} DigitsValueAppend(a: string, b: string, radix: nat)
    requires AllDigits(a, radix) && AllDigits(b, radix)
    ensures AllDigits(a + b, radix)
    ensures DigitsValue(a + b, radix) == DigitsValue(a, radix) * Pow(radix, |b|) + DigitsValue(b, radix)
    decreases |b|
  {
    AllDigitsAppend(a, b, radix);
    if b == [] {
      assert a + b == a;
    } else {
      var b', c := b[..|b| - 1], b[|b| - 1];
      assert b == b' + [c];
      assert AllDigits(b', radix) by {
        forall i | 0 <= i < |b'| ensures IsDigit(b'[i], radix) { assert b'[i] == b[i]; }
      }
      DigitsValueAppend(a, b', radix);
      assert a + b == (a + b') + [c];
      DigitsValueSnoc(a + b', c, radix);
      DigitsValueSnoc(b', c, radix);
      var p := Pow(radix, |b'|);
      assert Pow(radix, |b|) == radix * p;
      AppendStep(DigitsValue(a, radix), DigitsValue(b', radix), CharValue(c).value, p, radix,
        DigitsValue(a + b', radix), DigitsValue(a + b, radix), DigitsValue(b, radix));
    }
  }
}
