/**
 * Terminal colours (src/ansi/color.rs): a palette index, a 24-bit RGB value or
 * one of the three special colours, with the named constants, the `FromStr`
 * parsers (colour names, xterm `rgb:rr/gg/bb`, `#rrggbb`, `#gg`, `0x..`, a
 * decimal palette index) and the `Display` printers.
 */
module Colors {
  import opened Wrappers
  import opened Radix

  datatype SpecialColor = Foreground | Background | Cursor

  datatype RgbColor = RgbColor(r: u8, g: u8, b: u8)

  datatype Color = Indexed(idx: u8) | Rgb(rgb: RgbColor) | Special(special: SpecialColor)

  const Black: Color := Indexed(0)
  const Red: Color := Indexed(1)
  const Green: Color := Indexed(2)
  const Yellow: Color := Indexed(3)
  const Blue: Color := Indexed(4)
  const Magenta: Color := Indexed(5)
  const Cyan: Color := Indexed(6)
  const White: Color := Indexed(7)
  const BrightBlack: Color := Indexed(8)
  const BrightRed: Color := Indexed(9)
  const BrightGreen: Color := Indexed(10)
  const BrightYellow: Color := Indexed(11)
  const BrightBlue: Color := Indexed(12)
  const BrightMagenta: Color := Indexed(13)
  const BrightCyan: Color := Indexed(14)
  const BrightWhite: Color := Indexed(15)
  const ForegroundColor: Color := Special(Foreground)
  const BackgroundColor: Color := Special(Background)
  const CursorColor: Color := Special(Cursor)

  /** The named constants are exactly the first sixteen palette entries and the three special colours. */
  predicate IsNamed(c: Color) {
    c.Special? || (c.Indexed? && c.idx < 16)
  }

  /** The colour a (lower-case, dash-separated) name stands for: the name arms of `Color::from_str`. */
  function NamedColor(t: string): (r: Option<Color>)
    ensures r.Some? ==> IsNamed(r.value)
    ensures r.Some? ==> |t| > 0 && 'a' <= t[0] <= 'z'
  {
    match t
    case "black" => Some(Black)
    case "red" => Some(Red)
    case "green" => Some(Green)
    case "yellow" => Some(Yellow)
    case "blue" => Some(Blue)
    case "magenta" => Some(Magenta)
    case "cyan" => Some(Cyan)
    case "white" => Some(White)
    case "bright-black" => Some(BrightBlack)
    case "bright-red" => Some(BrightRed)
    case "bright-green" => Some(BrightGreen)
    case "bright-yellow" => Some(BrightYellow)
    case "bright-blue" => Some(BrightBlue)
    case "bright-magenta" => Some(BrightMagenta)
    case "bright-cyan" => Some(BrightCyan)
    case "bright-white" => Some(BrightWhite)
    case "foreground" => Some(ForegroundColor)
    case "background" => Some(BackgroundColor)
    case "cursor" => Some(CursorColor)
    case _ => None
  }

  /** The name `Display` writes for a named colour: the named arms of `Color::fmt`. */
  function ColorName(c: Color): (r: Option<string>)
    ensures r.Some? <==> IsNamed(c)
  {
    match c
    case Indexed(0) => Some("black")
    case Indexed(1) => Some("red")
    case Indexed(2) => Some("green")
    case Indexed(3) => Some("yellow")
    case Indexed(4) => Some("blue")
    case Indexed(5) => Some("magenta")
    case Indexed(6) => Some("cyan")
    case Indexed(7) => Some("white")
    case Indexed(8) => Some("bright-black")
    case Indexed(9) => Some("bright-red")
    case Indexed(10) => Some("bright-green")
    case Indexed(11) => Some("bright-yellow")
    case Indexed(12) => Some("bright-blue")
    case Indexed(13) => Some("bright-magenta")
    case Indexed(14) => Some("bright-cyan")
    case Indexed(15) => Some("bright-white")
    case Special(Foreground) => Some("foreground")
    case Special(Background) => Some("background")
    case Special(Cursor) => Some("cursor")
    case _ => None
  }

  /** The two name tables agree: every printed name parses back to its colour, and every parsed name prints as itself. */
  lemma NameTablesAgree(c: Color, t: string)
    ensures ColorName(c).Some? ==> NamedColor(ColorName(c).value) == Some(c)
    ensures NamedColor(t).Some? ==> ColorName(NamedColor(t).value) == Some(t)
  {
  }

  /** ASCII case folding with '_' read as '-', as `from_str` applies before matching. */
  function FoldChar(c: char): char {
    if 'A' <= c <= 'Z' then (c as int - 'A' as int + 'a' as int) as char
    else if c == '_' then '-'
    else c
  }

  function Normalize(s: string): (t: string)
    ensures |t| == |s|
    ensures forall i :: 0 <= i < |s| ==> t[i] == FoldChar(s[i])
  {
    seq(|s|, i requires 0 <= i < |s| => FoldChar(s[i]))
  }

  /** Text with no upper-case letter and no '_', which normalising leaves alone. */
  predicate Folded(s: string) {
    forall i :: 0 <= i < |s| ==> FoldChar(s[i]) == s[i]
  }

  lemma NormalizeFixed(s: string)
    requires Folded(s)
    ensures Normalize(s) == s
  {
  }

  lemma FoldedAppend(a: string, b: string)
    requires Folded(a) && Folded(b)
    ensures Folded(a + b)
  {
    forall i | 0 <= i < |a + b| ensures FoldChar((a + b)[i]) == (a + b)[i] {
      if i < |a| { assert (a + b)[i] == a[i]; } else { assert (a + b)[i] == b[i - |a|]; }
    }
  }

  /** Formatted numbers are lower-case already. */
  lemma DigitsFolded(n: nat, radix: nat)
    requires 2 <= radix <= 36
    ensures Folded(ToStrRadix(n, radix))
  {
  }

  /** `str::split(sep)`: the pieces between separators, always at least one. */
  function Split(s: string, sep: char): (parts: seq<string>)
    ensures |parts| >= 1
    ensures forall i :: 0 <= i < |parts| ==> sep !in parts[i]
    ensures Join(parts, sep) == s
  {
    if s == [] then [[]]
    else
      var rest := Split(s[1..], sep);
      if s[0] == sep then
        assert [s[0]] + Join(rest, sep) == s;
        [[]] + rest
      else
        var parts := [[s[0]] + rest[0]] + rest[1..];
        assert Join(parts, sep) == [s[0]] + Join(rest, sep) by {
          if |rest| > 1 {
            assert parts[1..] == rest[1..];
          }
        }
        parts
  }

  function Join(parts: seq<string>, sep: char): string
    requires |parts| >= 1
  {
    if |parts| == 1 then parts[0] else parts[0] + [sep] + Join(parts[1..], sep)
  }

  /** Text without the separator is a single piece. */
  lemma {:induction false} SplitNoSep(a: string, sep: char)
    requires sep !in a
    ensures Split(a, sep) == [a]
    decreases |a|
  {
    if a != [] {
      assert a[1..] == a[1..];
      SplitNoSep(a[1..], sep);
      assert [a[0]] + a[1..] == a;
    }
  }

  /** The first separator ends the first piece; the rest is split on its own. */
  lemma {:induction false} SplitAt(a: string, b: string, sep: char)
    requires sep !in a
    ensures Split(a + [sep] + b, sep) == [a] + Split(b, sep)
    decreases |a|
  {
    var s := a + [sep] + b;
    if a == [] {
      assert s[1..] == b;
    } else {
      assert s[1..] == a[1..] + [sep] + b;
      SplitAt(a[1..], b, sep);
      assert [a[0]] + a[1..] == a;
    }
  }

  /** The `#`/`0x` bodies: two hex digits give a grey, six give red, green, blue. */
  function HexRgb(t: string): (r: Result<RgbColor>)
    ensures r.Ok? ==> |t| == 2 || |t| == 6
    ensures r.Ok? && |t| == 2 ==> r.value.r == r.value.g == r.value.b
  {
    if |t| == 2 then
      match FromStrRadix(t, 16, 0xff)
      case Some(n) => Ok(RgbColor(n, n, n))
      case None => Err
    else if |t| == 6 then
      match FromStrRadix(t, 16, 0xffff_ffff)
      case Some(n) => Ok(RgbColor((n / 0x1_0000) % 0x100, (n / 0x100) % 0x100, n % 0x100))
      case None => Err
    else Err
  }

  /** `RgbColor::from_str`. */
  function RgbFromStr(s: string): (r: Result<RgbColor>)
    ensures r.Ok? ==> (|s| > 4 && s[..4] == "rgb:") || (|s| > 0 && s[0] == '#') || (|s| > 1 && s[..2] == "0x")
    ensures r.Ok? ==> s[0] == 'r' || s[0] == '#' || s[0] == '0'
  {
    if |s| >= 4 && s[..4] == "rgb:" then
      var chunks := Split(s[4..], '/');
      if |chunks| == 3 then
        match (FromStrRadix(chunks[0], 16, 0xff), FromStrRadix(chunks[1], 16, 0xff), FromStrRadix(chunks[2], 16, 0xff))
        case (Some(r), Some(g), Some(b)) => Ok(RgbColor(r, g, b))
        case _ => Err
      else Err
    else if |s| >= 1 && s[0] == '#' then HexRgb(s[1..])
    else if |s| >= 2 && s[..2] == "0x" then HexRgb(s[2..])
    else Err
  }

  /** `Color::from_str`: a name first, then an RGB spec, then a decimal palette index. */
  function FromStr(s: string): (r: Result<Color>)
    ensures r.Ok? && r.value.Rgb? ==> RgbFromStr(Normalize(s)) == Ok(r.value.rgb)
    ensures r.Ok? && !IsNamed(r.value) && r.value.Indexed? ==> FromStrRadix(Normalize(s), 10, 0xff) == Some(r.value.idx)
    // A name wins over every other reading.
    ensures NamedColor(Normalize(s)).Some? ==> r == Ok(NamedColor(Normalize(s)).value)
    // An error exactly when the text is no name, no RGB spec and no decimal `u8`.
    ensures r.Err? <==>
      NamedColor(Normalize(s)).None? && RgbFromStr(Normalize(s)).Err? && FromStrRadix(Normalize(s), 10, 0xff).None?
  {
    var t := Normalize(s);
    match NamedColor(t)
    case Some(c) => Ok(c)
    case None =>
      match RgbFromStr(t)
      case Ok(rgb) => Ok(Rgb(rgb))
      case Err =>
        match FromStrRadix(t, 10, 0xff)
        case Some(n) => Ok(Indexed(n))
        case None => Err
  }

  /**
   * Which reading `Color::from_str` takes: a special colour only from its
   * name, an RGB spec when the text is no name, and a decimal `u8` as a
   * palette index when it is neither.
   */
  lemma FromStrReadings(s: string)
    ensures FromStr(s).Ok? && FromStr(s).value.Special? ==> NamedColor(Normalize(s)).Some?
    ensures NamedColor(Normalize(s)).None? && RgbFromStr(Normalize(s)).Ok? ==>
      FromStr(s) == Ok(Rgb(RgbFromStr(Normalize(s)).value))
    ensures NamedColor(Normalize(s)).None? && RgbFromStr(Normalize(s)).Err? && FromStrRadix(Normalize(s), 10, 0xff).Some? ==>
      FromStr(s) == Ok(Indexed(FromStrRadix(Normalize(s), 10, 0xff).value))
  {
  }

  /** Two hex digits `n` give the grey (n, n, n), and two digits are accepted exactly when they are hex. */
  lemma HexRgbGrey(t: string)
    requires |t| == 2
    ensures HexRgb(t).Ok? <==> FromStrRadix(t, 16, 0xff).Some?
    ensures HexRgb(t).Ok? ==> var v := FromStrRadix(t, 16, 0xff).value; HexRgb(t).value == RgbColor(v, v, v)
  {
  }

  /** Text starting with `0x` is read by `RgbColor::from_str` as the hex spec after it. */
  lemma RgbFromStrZeroX(s: string)
    requires |s| >= 2 && s[..2] == "0x"
    ensures RgbFromStr(s) == HexRgb(s[2..])
  {
    assert s[0] == '0';
    if |s| >= 4 {
      assert s[..4][0] == '0';
    }
  }

  /** `RgbColor::fmt`: `#{:x}{:x}{:x}`, each component in unpadded lower-case hex. */
  function RgbToStr(c: RgbColor): (s: string)
    ensures 4 <= |s| <= 7 && s[0] == '#'
  {
    HexByteLength(c.r);
    HexByteLength(c.g);
    HexByteLength(c.b);
    "#" + (ToStrRadix(c.r, 16) + ToStrRadix(c.g, 16) + ToStrRadix(c.b, 16))
  }

  /** `Color::fmt`: the name of a named colour, the RGB spec, or the palette index in decimal. */
  function ToStr(c: Color): (s: string)
    ensures s != []
  {
    match ColorName(c)
    case Some(name) => name
    case None =>
      match c
      case Rgb(rgb) => RgbToStr(rgb)
      case Indexed(n) => Decimal(n)
      case Special(_) => assert false; ""
  }

  predicate HasSmallComponent(c: RgbColor) {
    c.r < 0x10 || c.g < 0x10 || c.b < 0x10
  }

  /** Text starting with '#' is read by `RgbColor::from_str` as the hex spec after it. */
  lemma RgbFromStrHash(s: string)
    requires |s| > 0 && s[0] == '#'
    ensures RgbFromStr(s) == HexRgb(s[1..])
  {
    if |s| >= 4 {
      assert s[..4][0] == '#';
    }
  }

  /** Lower-case text starting with '#' is read by `Color::from_str` as an RGB hex spec and nothing else. */
  lemma FromStrHash(s: string)
    requires |s| > 0 && s[0] == '#' && Folded(s)
    ensures FromStr(s) == match HexRgb(s[1..]) case Ok(rgb) => Ok(Rgb(rgb)) case Err => Err
  {
    NormalizeFixed(s);
    RgbFromStrHash(s);
    assert NamedColor(s) == None;
    assert FromStrRadix(s, 10, 0xff) == None by {
      assert !IsDigit(s[0], 10);
    }
  }

  /**
   * Printing a colour and parsing the text gives the colour back exactly when
   * it is not an RGB colour with a component below 0x10: the unpadded `{:x}`
   * leaves such a spec with three to five hex digits, which no form accepts.
   */
  lemma ToStrFromStr(c: Color)
    ensures FromStr(ToStr(c)) == Ok(c) <==> !(c.Rgb? && HasSmallComponent(c.rgb))
  {
    if IsNamed(c) {
      NamedRoundTrip(c);
    } else if c.Indexed? {
      DecimalRoundTrip(c.idx);
    } else {
      RgbRoundTrip(c.rgb);
    }
  }

  lemma NamedRoundTrip(c: Color)
    requires IsNamed(c)
    ensures FromStr(ToStr(c)) == Ok(c)
  {
    var name := ColorName(c).value;
    NameTablesAgree(c, name);
    NamesAreLowerCase(c);
    NormalizeFixed(name);
  }

  lemma NamesAreLowerCase(c: Color)
    requires IsNamed(c)
    ensures Folded(ColorName(c).value)
  {
    if c.Special? {
      SpecialNamesLowerCase(c);
    } else if c.idx < 8 {
      NormalNamesLowerCase(c.idx);
    } else {
      BrightNamesLowerCase(c.idx);
    }
  }

  lemma SpecialNamesLowerCase(c: Color)
    requires c.Special?
    ensures Folded(ColorName(c).value)
  {
  }

  lemma NormalNamesLowerCase(n: u8)
    requires n < 8
    ensures Folded(ColorName(Indexed(n)).value)
  {
  }

  lemma BrightNamesLowerCase(n: u8)
    requires 8 <= n < 16
    ensures Folded(ColorName(Indexed(n)).value)
  {
  }

  /** A palette index from 16 on prints in decimal and parses back through the integer arm. */
  lemma DecimalRoundTrip(n: u8)
    requires n >= 16
    ensures FromStr(ToStr(Indexed(n))) == Ok(Indexed(n))
  {
    var s := Decimal(n);
    assert ToStr(Indexed(n)) == s;
    DigitsFolded(n, 10);
    NormalizeFixed(s);
    assert IsDigit(s[0], 10);
    assert s[0] != '0';
    assert NamedColor(s) == None;
    assert RgbFromStr(s) == Err;
    RoundTrip(n, 10, 0xff);
  }

  /** An RGB colour round-trips iff every component has two hex digits. */
  lemma RgbRoundTrip(c: RgbColor)
    ensures FromStr(ToStr(Rgb(c))) == Ok(Rgb(c)) <==> !HasSmallComponent(c)
  {
    var s := RgbToStr(c);
    assert ToStr(Rgb(c)) == s;
    RgbToStrRead(c);
    if HasSmallComponent(c) {
      HexByteLength(c.r);
      HexByteLength(c.g);
      HexByteLength(c.b);
      assert 3 <= |s[1..]| <= 5;
    } else {
      HexByteLength(c.r);
      HexByteLength(c.g);
      HexByteLength(c.b);
      HexSpecValue(ToStrRadix(c.r, 16), ToStrRadix(c.g, 16), ToStrRadix(c.b, 16), c);
    }
  }

  /** `Color::from_str` reads the text `RgbColor::fmt` writes as the hex spec after its '#'. */
  lemma RgbToStrRead(c: RgbColor)
    ensures var hr, hg, hb := ToStrRadix(c.r, 16), ToStrRadix(c.g, 16), ToStrRadix(c.b, 16);
      RgbToStr(c)[1..] == hr + hg + hb &&
      FromStr(RgbToStr(c)) == match HexRgb(hr + hg + hb) case Ok(rgb) => Ok(Rgb(rgb)) case Err => Err
  {
    RgbToStrFolded(c);
    FromStrHash(RgbToStr(c));
  }

  /** The text `RgbColor::fmt` writes is '#' and the three hex fields, all lower-case. */
  lemma RgbToStrFolded(c: RgbColor)
    ensures RgbToStr(c)[1..] == ToStrRadix(c.r, 16) + ToStrRadix(c.g, 16) + ToStrRadix(c.b, 16)
    ensures Folded(RgbToStr(c))
  {
    var hr, hg, hb := ToStrRadix(c.r, 16), ToStrRadix(c.g, 16), ToStrRadix(c.b, 16);
    RgbToStrShape(c);
    FieldsFolded(hr, hg, hb, c);
    FoldedAppend("#", hr + hg + hb);
  }

  lemma RgbToStrShape(c: RgbColor)
    ensures RgbToStr(c)[1..] == ToStrRadix(c.r, 16) + ToStrRadix(c.g, 16) + ToStrRadix(c.b, 16)
  {
    var x := ToStrRadix(c.r, 16) + ToStrRadix(c.g, 16) + ToStrRadix(c.b, 16);
    assert ("#" + x)[1..] == x;
  }

  lemma FieldsFolded(hr: string, hg: string, hb: string, c: RgbColor)
    requires hr == ToStrRadix(c.r, 16) && hg == ToStrRadix(c.g, 16) && hb == ToStrRadix(c.b, 16)
    ensures Folded(hr + hg + hb)
  {
    DigitsFolded(c.r, 16);
    DigitsFolded(c.g, 16);
    DigitsFolded(c.b, 16);
    FoldedAppend(hr, hg);
    FoldedAppend(hr + hg, hb);
  }

  /** Two hex digits spelling `v`. */
  predicate HexField(h: string, v: nat) {
    |h| == 2 && AllDigits(h, 16) && DigitsValue(h, 16) == v
  }

  /** Three two-digit hex fields laid end to end are read back as the colour they spell. */
  lemma HexSpecValue(hr: string, hg: string, hb: string, c: RgbColor)
    requires HexField(hr, c.r) && HexField(hg, c.g) && HexField(hb, c.b)
    ensures HexRgb(hr + hg + hb) == Ok(c)
  {
    HexSixValue(hr, hg, hb, c);
    HexRgbSix(hr + hg + hb, c.r, c.g, c.b);
  }

  lemma HexSixValue(hr: string, hg: string, hb: string, c: RgbColor)
    requires HexField(hr, c.r) && HexField(hg, c.g) && HexField(hb, c.b)
    ensures |hr + hg + hb| == 6
    ensures FromStrRadix(hr + hg + hb, 16, 0xffff_ffff) == Some(c.r * 0x1_0000 + c.g * 0x100 + c.b)
  {
    SixHexDigits(hr, hg, hb);
    RgbValueBound(c.r, c.g, c.b);
    FromStrRadixDigits(hr + hg + hb, 16, 0xffff_ffff);
  }

  /** Six hex digits are split into bytes from the most significant end. */
  lemma HexRgbSix(t: string, r: u8, g: u8, b: u8)
    requires |t| == 6 && FromStrRadix(t, 16, 0xffff_ffff) == Some(r * 0x1_0000 + g * 0x100 + b)
    ensures HexRgb(t) == Ok(RgbColor(r, g, b))
  {
    UnpackRgb(r, g, b);
  }

  /** The value of a hex field followed by two two-digit hex fields. */
  lemma SixHexDigits(hr: string, hg: string, hb: string)
    requires AllDigits(hr, 16) && AllDigits(hg, 16) && AllDigits(hb, 16)
    requires |hg| == 2 && |hb| == 2
    ensures AllDigits(hr + hg + hb, 16)
    ensures DigitsValue(hr + hg + hb, 16) == DigitsValue(hr, 16) * 0x1_0000 + DigitsValue(hg, 16) * 0x100 + DigitsValue(hb, 16)
  {
    assert Pow(16, 2) == 0x100 by {
      assert Pow(16, 1) == 16 * Pow(16, 0);
    }
    DigitsValueAppend(hr, hg, 16);
    DigitsValueAppend(hr + hg, hb, 16);
    ShiftByte(DigitsValue(hr, 16), DigitsValue(hg, 16), DigitsValue(hb, 16));
  }

  lemma RgbValueBound(r: u8, g: u8, b: u8)
    ensures r * 0x1_0000 + g * 0x100 + b <= 0xff_ffff
  {
    assert r * 0x1_0000 <= 0xff * 0x1_0000;
    assert g * 0x100 <= 0xff * 0x100;
  }

  lemma ShiftByte(a: nat, b: nat, c: nat)
    ensures (a * 0x100 + b) * 0x100 + c == a * 0x1_0000 + b * 0x100 + c
  {
  }

  lemma UnpackRgb(r: u8, g: u8, b: u8)
    ensures ((r * 0x1_0000 + g * 0x100 + b) / 0x1_0000) % 0x100 == r
    ensures ((r * 0x1_0000 + g * 0x100 + b) / 0x100) % 0x100 == g
    ensures (r * 0x1_0000 + g * 0x100 + b) % 0x100 == b
  {
    var n := r * 0x1_0000 + g * 0x100 + b;
    assert n / 0x1_0000 == r;
    assert n / 0x100 == r * 0x100 + g;
  }

  /** Two-digit hex of a byte, zero-padded (`{:02x}`). */
  function Hex2(n: u8): (s: string)
    ensures |s| == 2 && AllDigits(s, 16) && DigitsValue(s, 16) == n
    ensures Folded(s)
  {
    HexByteLength(n);
    DigitsFolded(n, 16);
    if n < 0x10 then
      DigitsValueAppend("0", ToStrRadix(n, 16), 16);
      FoldedAppend("0", ToStrRadix(n, 16));
      "0" + ToStrRadix(n, 16)
    else ToStrRadix(n, 16)
  }

  /** `#{:02x}{:02x}{:02x}`: the zero-padded RGB spec. */
  function RgbToStrPadded(c: RgbColor): (s: string)
    ensures |s| == 7 && s[0] == '#'
  {
    "#" + Hex2(c.r) + Hex2(c.g) + Hex2(c.b)
  }

  /** With zero padding every RGB colour round-trips, through `RgbColor::from_str` and through `Color::from_str`. */
  lemma RgbPaddedRoundTrip(c: RgbColor)
    ensures RgbFromStr(RgbToStrPadded(c)) == Ok(c)
    ensures FromStr(RgbToStrPadded(c)) == Ok(Rgb(c))
  {
    var hr, hg, hb := Hex2(c.r), Hex2(c.g), Hex2(c.b);
    var s := RgbToStrPadded(c);
    assert s == "#" + (hr + hg + hb);
    assert s[1..] == hr + hg + hb;
    FoldedAppend(hr, hg);
    FoldedAppend(hr + hg, hb);
    FoldedAppend("#", hr + hg + hb);
    RgbFromStrHash(s);
    FromStrHash(s);
    HexSpecValue(hr, hg, hb, c);
  }

  /** A colour name is matched whatever its case and with '_' for '-'. */
  lemma ExampleName()
    ensures FromStr("bright-yellow") == Ok(BrightYellow)
    ensures FromStr("Bright_Yellow") == Ok(BrightYellow)
  {
    NameExample("bright-yellow");
    MixedCaseName("Bright_Yellow", "bright-yellow");
    SameNormalForm("Bright_Yellow", "bright-yellow");
  }

  lemma NameExample(t: string)
    requires t == "bright-yellow"
    ensures Normalize(t) == t && FromStr(t) == Ok(BrightYellow)
  {
    assert Folded(t);
    NormalizeFixed(t);
    assert NamedColor(t) == Some(BrightYellow);
  }

  lemma MixedCaseName(s: string, t: string)
    requires s == "Bright_Yellow" && t == "bright-yellow"
    ensures Normalize(s) == t
  {
  }

  lemma ExampleGrey()
    ensures FromStr("#F0") == Ok(Rgb(RgbColor(0xF0, 0xF0, 0xF0)))
  {
    GreyExample("#f0");
    MixedCaseGrey("#F0", "#f0");
    SameNormalForm("#F0", "#f0");
  }

  lemma GreyExample(t: string)
    requires t == "#f0"
    ensures Normalize(t) == t && FromStr(t) == Ok(Rgb(RgbColor(0xF0, 0xF0, 0xF0)))
  {
    assert Folded(t);
    NormalizeFixed(t);
    FromStrHash(t);
    assert t[1..] == "f0";
    HexFields();
  }

  lemma MixedCaseGrey(s: string, t: string)
    requires s == "#F0" && t == "#f0"
    ensures Normalize(s) == t
  {
  }

  lemma ExampleHex()
    ensures FromStr("#F0F1F2") == Ok(Rgb(RgbColor(0xF0, 0xF1, 0xF2)))
  {
    HexExample("#F0F1F2");
  }

  lemma HexExample(s: string)
    requires s == "#F0F1F2"
    ensures FromStr(s) == Ok(Rgb(RgbColor(0xF0, 0xF1, 0xF2)))
  {
    var t := "#f0f1f2";
    assert Normalize(s) == t;
    LowerHexExample(t);
    NormalizeFixed(t);
    SameNormalForm(s, t);
  }

  lemma LowerHexExample(t: string)
    requires t == "#f0f1f2"
    ensures Folded(t)
    ensures FromStr(t) == Ok(Rgb(RgbColor(0xF0, 0xF1, 0xF2)))
  {
    assert Folded(t);
    FromStrHash(t);
    var r, g, b := "f0", "f1", "f2";
    assert t[1..] == r + g + b;
    HexFields();
    HexSpecValue(r, g, b, RgbColor(0xF0, 0xF1, 0xF2));
  }

  /** `Color::from_str` only sees the normalised text. */
  lemma SameNormalForm(s: string, t: string)
    requires Normalize(s) == Normalize(t)
    ensures FromStr(s) == FromStr(t)
  {
  }

  lemma HexFields()
    ensures HexField("f0", 0xF0) && HexField("f1", 0xF1) && HexField("f2", 0xF2)
  {
    TwoDigits("f0", 16);
    TwoDigits("f1", 16);
    TwoDigits("f2", 16);
  }

  lemma ExampleXterm()
    ensures FromStr("rgb:00/88/ff") == Ok(Rgb(RgbColor(0x00, 0x88, 0xFF)))
  {
    XtermExample("rgb:00/88/ff");
  }

  lemma XtermExample(s: string)
    requires s == "rgb:00/88/ff"
    ensures FromStr(s) == Ok(Rgb(RgbColor(0x00, 0x88, 0xFF)))
  {
    XtermValue(s);
    XtermText(s);
    FromStrRgb(s);
  }

  lemma XtermValue(s: string)
    requires s == "rgb:00/88/ff"
    ensures RgbFromStr(s) == Ok(RgbColor(0x00, 0x88, 0xFF))
  {
    var a, b, c := "00", "88", "ff";
    assert s == "rgb:" + (a + ['/'] + (b + ['/'] + c));
    XtermFields();
    XtermOk(a, b, c, RgbColor(0x00, 0x88, 0xFF));
  }

  lemma XtermText(s: string)
    requires s == "rgb:00/88/ff"
    ensures Folded(s) && NamedColor(s) == None
  {
    var a, b, c := "00", "88", "ff";
    assert s == "rgb:" + (a + ['/'] + (b + ['/'] + c));
    XtermFolded(a, b, c);
    XtermNotAName(s);
  }

  lemma XtermFields()
    ensures FromStrRadix("00", 16, 0xff) == Some(0x00)
    ensures FromStrRadix("88", 16, 0xff) == Some(0x88)
    ensures FromStrRadix("ff", 16, 0xff) == Some(0xFF)
  {
    XtermComponent("00", 0x00);
    XtermComponent("88", 0x88);
    XtermComponent("ff", 0xFF);
  }

  lemma XtermFolded(a: string, b: string, c: string)
    requires Folded(a) && Folded(b) && Folded(c)
    ensures Folded("rgb:" + (a + ['/'] + (b + ['/'] + c)))
  {
    FoldedAppend(b + ['/'], c);
    FoldedAppend(b, ['/']);
    FoldedAppend(a + ['/'], b + ['/'] + c);
    FoldedAppend(a, ['/']);
    FoldedAppend("rgb:", a + ['/'] + (b + ['/'] + c));
  }

  /** No colour name starts with `rgb:`. */
  lemma XtermNotAName(s: string)
    requires |s| >= 4 && s[..4] == "rgb:"
    ensures NamedColor(s) == None
  {
    assert s[3] == ':';
  }

  /** Lower-case text that is no colour name is read by `Color::from_str` as `RgbColor::from_str` reads it, when that succeeds. */
  lemma FromStrRgb(s: string)
    requires Folded(s) && NamedColor(s) == None && RgbFromStr(s).Ok?
    ensures FromStr(s) == Ok(Rgb(RgbFromStr(s).value))
  {
    NormalizeFixed(s);
  }

  /** An `rgb:` spec is three '/'-separated fields, each a hex value of at most 0xff (an optional '+' and leading zeros allowed). */
  lemma RgbFromStrXterm(a: string, b: string, c: string)
    requires '/' !in a && '/' !in b && '/' !in c
    ensures RgbFromStr("rgb:" + (a + ['/'] + (b + ['/'] + c))) ==
      match (FromStrRadix(a, 16, 0xff), FromStrRadix(b, 16, 0xff), FromStrRadix(c, 16, 0xff))
      case (Some(r), Some(g), Some(b)) => Ok(RgbColor(r, g, b))
      case _ => Err
  {
    var s := "rgb:" + (a + ['/'] + (b + ['/'] + c));
    assert s[..4] == "rgb:" && s[4..] == a + ['/'] + (b + ['/'] + c);
    SplitNoSep(c, '/');
    SplitAt(b, c, '/');
    SplitAt(a, b + ['/'] + c, '/');
  }

  lemma XtermComponent(h: string, v: u8)
    requires |h| == 2 && AllDigits(h, 16) && CharValue(h[0]).value * 16 + CharValue(h[1]).value == v
    ensures FromStrRadix(h, 16, 0xff) == Some(v)
  {
    TwoDigits(h, 16);
    FromStrRadixDigits(h, 16, 0xff);
  }

  lemma XtermOk(a: string, b: string, c: string, rgb: RgbColor)
    requires '/' !in a && '/' !in b && '/' !in c
    requires FromStrRadix(a, 16, 0xff) == Some(rgb.r)
    requires FromStrRadix(b, 16, 0xff) == Some(rgb.g)
    requires FromStrRadix(c, 16, 0xff) == Some(rgb.b)
    ensures RgbFromStr("rgb:" + (a + ['/'] + (b + ['/'] + c))) == Ok(rgb)
  {
    RgbFromStrXterm(a, b, c);
  }

  /**
   * A decimal index below 16 is not a name, yet it parses to a named colour:
   * "5" is `Indexed(5)`, which is magenta.
   */
  lemma IndexBelowSixteen(s: string)
    requires s == "5"
    ensures NamedColor(Normalize(s)) == None
    ensures FromStr(s) == Ok(Indexed(5)) && IsNamed(Indexed(5))
  {
    assert Normalize(s) == s;
    assert AllDigits(s, 10) && DigitsValue(s, 10) == 5 by { OneDigit(s, 10); }
  }

  /** An `rgb:` field over 0xff overflows `u8`, so the spec is rejected. */
  lemma XtermFieldOverflow()
    ensures FromStrRadix("100", 16, 0xff) == None
    ensures RgbFromStr("rgb:100/0/0") == Err
  {
    var h := "100";
    assert AllDigits(h, 16);
    var t := "10";
    assert AllDigits(t, 16);
    TwoDigits(t, 16);
    assert h == t + ['0'];
    DigitsValueSnoc(t, '0', 16);
    FromStrRadixOverflow(h, 16, 0xff);
    RgbFromStrXterm(h, "0", "0");
    assert "rgb:100/0/0" == "rgb:" + (h + ['/'] + ("0" + ['/'] + "0"));
  }

  lemma ExampleIndex()
    ensures FromStr("23") == Ok(Indexed(23))
  {
    var s := "23";
    assert Normalize(s) == s;
    assert NamedColor(s) == None;
    assert RgbFromStr(s) == Err;
    TwoDigits(s, 10);
  }
}
