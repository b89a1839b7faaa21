/**
 * Select Graphic Rendition (section 8.3.117 of ECMA-48) parameter decoding,
 * src/ansi/sgr.rs. The parameters are read through one shared iterator:
 * here a sequence and the index of the next unread parameter, threaded
 * through every step.
 */
module Sgr {
  import opened Wrappers
  import opened Radix
  import Colors

  datatype Attribute =
    | Reset
    | Bold
    | Dim
    | Italic
    | Underline
    | BlinkSlow
    | BlinkFast
    | Reverse
    | Hidden
    | Strike
    | CancelBold
    | CancelBoldDim
    | CancelItalic
    | CancelUnderline
    | CancelBlink
    | CancelReverse
    | CancelHidden
    | CancelStrike
    | Foreground(color: Colors.Color)
    | Background(color: Colors.Color)

  function Min(a: nat, b: nat): nat {
    if a < b then a else b
  }

  predicate InByte(n: int) {
    0 <= n < 256
  }

  /** `Iterator::next` on a slice iterator: once exhausted it stays exhausted and consumes nothing. */
  function NextParam(params: seq<int>, pos: nat): (r: (Option<int>, nat))
    requires pos <= |params|
    ensures r.1 <= |params|
    ensures r.0.Some? <==> pos < |params|
    ensures r.0.Some? ==> r.0.value == params[pos] && r.1 == pos + 1
    ensures r.0.None? ==> r.1 == pos
  {
    if pos < |params| then (Some(params[pos]), pos + 1) else (None, pos)
  }

  /** How many parameters after the mode a colour takes, when `left` remain: three for mode 2, one for mode 5. */
  function Consumed(mode: int, left: nat): nat {
    if mode == 2 then Min(3, left) else if mode == 5 then Min(1, left) else 0
  }

  /** Mode 2 followed by three components in 0..256. */
  predicate RgbOk(params: seq<int>, pos: nat)
    requires pos < |params|
  {
    params[pos] == 2 && pos + 3 < |params| && InByte(params[pos + 1]) && InByte(params[pos + 2]) && InByte(params[pos + 3])
  }

  /** Mode 5 followed by an index in 0..256. */
  predicate IndexedOk(params: seq<int>, pos: nat)
    requires pos < |params|
  {
    params[pos] == 5 && pos + 1 < |params| && InByte(params[pos + 1])
  }

  /**
   * `parse_color`, called after a 38 or 48: mode 2 takes red, green and blue,
   * mode 5 a palette index; every component must lie in 0..256. The
   * parameters are consumed whether or not a colour results.
   */
  function ParseColor(params: seq<int>, pos: nat): (r: (Option<Colors.Color>, nat))
    requires pos <= |params|
    ensures pos <= r.1 <= |params|
    ensures r.1 == pos <==> pos == |params|
    ensures pos < |params| ==> r.1 == pos + 1 + Consumed(params[pos], |params| - pos - 1)
    ensures r.0.Some? <==> pos < |params| && (RgbOk(params, pos) || IndexedOk(params, pos))
    ensures r.0.Some? && params[pos] == 2 ==> r.0.value == Colors.Rgb(Colors.RgbColor(params[pos + 1], params[pos + 2], params[pos + 3]))
    ensures r.0.Some? && params[pos] == 5 ==> r.0.value == Colors.Indexed(params[pos + 1])
  {
    var (mode, p0) := NextParam(params, pos);
    if mode == Some(2) then
      var (r, p1) := NextParam(params, p0);
      var (g, p2) := NextParam(params, p1);
      var (b, p3) := NextParam(params, p2);
      if r.Some? && g.Some? && b.Some? then
        if !InByte(r.value) || !InByte(g.value) || !InByte(b.value) then (None, p3)
        else (Some(Colors.Rgb(Colors.RgbColor(r.value, g.value, b.value))), p3)
      else (None, p3)
    else if mode == Some(5) then
      var (idx, p1) := NextParam(params, p0);
      match idx
      case Some(n) => if !InByte(n) then (None, p1) else (Some(Colors.Indexed(n)), p1)
      case None => (None, p1)
    else (None, p0)
  }

  /** The codes with a fixed meaning: everything but 38 and 48 in the `parse_attributes` table. */
  function CodeAttribute(code: int): (r: Option<Attribute>)
    ensures r.Some? <==> code in ListedCodes
    ensures code == 0 ==> r == Some(Reset)
    ensures 30 <= code <= 37 ==> r == Some(Foreground(Colors.Indexed(code - 30)))
    ensures 40 <= code <= 47 ==> r == Some(Background(Colors.Indexed(code - 40)))
    ensures 90 <= code <= 97 ==> r == Some(Foreground(Colors.Indexed(code - 90 + 8)))
    ensures 100 <= code <= 107 ==> r == Some(Background(Colors.Indexed(code - 100 + 8)))
    ensures code == 39 ==> r == Some(Foreground(Colors.ForegroundColor))
    ensures code == 49 ==> r == Some(Background(Colors.BackgroundColor))
  {
    match code
    case 0 => Some(Reset)
    case 1 => Some(Bold)
    case 2 => Some(Dim)
    case 3 => Some(Italic)
    case 4 => Some(Underline)
    case 5 => Some(BlinkSlow)
    case 6 => Some(BlinkFast)
    case 7 => Some(Reverse)
    case 8 => Some(Hidden)
    case 9 => Some(Strike)
    case 21 => Some(CancelBold)
    case 22 => Some(CancelBoldDim)
    case 23 => Some(CancelItalic)
    case 24 => Some(CancelUnderline)
    case 25 => Some(CancelBlink)
    case 27 => Some(CancelReverse)
    case 28 => Some(CancelHidden)
    case 29 => Some(CancelStrike)
    case 30 => Some(Foreground(Colors.Black))
    case 31 => Some(Foreground(Colors.Red))
    case 32 => Some(Foreground(Colors.Green))
    case 33 => Some(Foreground(Colors.Yellow))
    case 34 => Some(Foreground(Colors.Blue))
    case 35 => Some(Foreground(Colors.Magenta))
    case 36 => Some(Foreground(Colors.Cyan))
    case 37 => Some(Foreground(Colors.White))
    case 39 => Some(Foreground(Colors.ForegroundColor))
    case 40 => Some(Background(Colors.Black))
    case 41 => Some(Background(Colors.Red))
    case 42 => Some(Background(Colors.Green))
    case 43 => Some(Background(Colors.Yellow))
    case 44 => Some(Background(Colors.Blue))
    case 45 => Some(Background(Colors.Magenta))
    case 46 => Some(Background(Colors.Cyan))
    case 47 => Some(Background(Colors.White))
    case 49 => Some(Background(Colors.BackgroundColor))
    case 90 => Some(Foreground(Colors.BrightBlack))
    case 91 => Some(Foreground(Colors.BrightRed))
    case 92 => Some(Foreground(Colors.BrightGreen))
    case 93 => Some(Foreground(Colors.BrightYellow))
    case 94 => Some(Foreground(Colors.BrightBlue))
    case 95 => Some(Foreground(Colors.BrightMagenta))
    case 96 => Some(Foreground(Colors.BrightCyan))
    case 97 => Some(Foreground(Colors.BrightWhite))
    case 100 => Some(Background(Colors.BrightBlack))
    case 101 => Some(Background(Colors.BrightRed))
    case 102 => Some(Background(Colors.BrightGreen))
    case 103 => Some(Background(Colors.BrightYellow))
    case 104 => Some(Background(Colors.BrightBlue))
    case 105 => Some(Background(Colors.BrightMagenta))
    case 106 => Some(Background(Colors.BrightCyan))
    case 107 => Some(Background(Colors.BrightWhite))
    case _ => None
  }

  /** The listed codes: 0-9, 21-25, 27-29, 30-37, 39, 40-47, 49, 90-97 and 100-107. */
  const ListedCodes: set<int> :=
    set n | 0 <= n <= 107 && (n <= 9 || 21 <= n <= 25 || 27 <= n <= 29 || 30 <= n <= 37 || n == 39
      || 40 <= n <= 47 || n == 49 || 90 <= n <= 97 || 100 <= n)

  /** One turn of the `parse_attributes` loop: the code at `pos`, then a colour after 38 or 48. */
  function Step(params: seq<int>, pos: nat): (r: (Option<Attribute>, nat))
    requires pos < |params|
    ensures pos < r.1 <= |params|
    ensures params[pos] != 38 && params[pos] != 48 ==> r == (CodeAttribute(params[pos]), pos + 1)
    // After 38 or 48 the colour that follows sets the foreground or background, and the turn ends where it does.
    ensures params[pos] == 38 ==>
      r.1 == ParseColor(params, pos + 1).1 &&
      r.0 == if ParseColor(params, pos + 1).0.Some? then Some(Foreground(ParseColor(params, pos + 1).0.value)) else None
    ensures params[pos] == 48 ==>
      r.1 == ParseColor(params, pos + 1).1 &&
      r.0 == if ParseColor(params, pos + 1).0.Some? then Some(Background(ParseColor(params, pos + 1).0.value)) else None
  {
    var code := params[pos];
    if code == 38 then
      var (c, next) := ParseColor(params, pos + 1);
      (if c.Some? then Some(Foreground(c.value)) else None, next)
    else if code == 48 then
      var (c, next) := ParseColor(params, pos + 1);
      (if c.Some? then Some(Background(c.value)) else None, next)
    else (CodeAttribute(code), pos + 1)
  }

  /** The attributes decoded from `params[pos..]`, in order. */
  function AttributesFrom(params: seq<int>, pos: nat): (attrs: seq<Attribute>)
    requires pos <= |params|
    ensures |attrs| <= |params| - pos
    decreases |params| - pos
  {
    if pos == |params| then []
    else
      var (attr, next) := Step(params, pos);
      (if attr.Some? then [attr.value] else []) + AttributesFrom(params, next)
  }

  /** `parse_attributes`: reads codes until the parameters run out, pushing each attribute decoded. */
  method ParseAttributes(params: seq<int>) returns (attrs: seq<Attribute>)
    ensures attrs == AttributesFrom(params, 0)
    ensures |attrs| <= |params|
  {
    attrs := [];
    var pos := 0;
    while pos < |params|
      invariant pos <= |params|
      invariant attrs + AttributesFrom(params, pos) == AttributesFrom(params, 0)
      decreases |params| - pos
    {
      var attr, next := ReadAttribute(params, pos);
      var emitted := if attr.Some? then [attr.value] else [];
      assert AttributesFrom(params, pos) == emitted + AttributesFrom(params, next);
      attrs := attrs + emitted;
      pos := next;
    }
  }

  /** The body of the `parse_attributes` loop: the code at `pos`, and the colour after a 38 or 48. */
  method ReadAttribute(params: seq<int>, pos: nat) returns (attr: Option<Attribute>, next: nat)
    requires pos < |params|
    ensures (attr, next) == Step(params, pos)
  {
    var param := params[pos];
    if param == 38 {
      var (c, n) := ParseColor(params, pos + 1);
      attr, next := if c.Some? then Some(Foreground(c.value)) else None, n;
    } else if param == 48 {
      var (c, n) := ParseColor(params, pos + 1);
      attr, next := if c.Some? then Some(Background(c.value)) else None, n;
    } else {
      attr, next := CodeAttribute(param), pos + 1;
    }
  }

  /** Decoding code by code, without the two colour introducers. */
  function DecodeSimple(params: seq<int>): seq<Attribute> {
    if params == [] then []
    else
      var attr := CodeAttribute(params[0]);
      (if attr.Some? then [attr.value] else []) + DecodeSimple(params[1..])
  }

  /**
   * Without 38 and 48 every parameter is one code: each listed code yields
   * its attribute, in input order, and an unlisted code yields nothing.
   */
  lemma {:induction false} AttributesOfSimpleCodes(params: seq<int>, pos: nat)
    requires pos <= |params|
    requires forall i :: pos <= i < |params| ==> params[i] != 38 && params[i] != 48
    ensures AttributesFrom(params, pos) == DecodeSimple(params[pos..])
    decreases |params| - pos
  {
    if pos < |params| {
      AttributesOfSimpleCodes(params, pos + 1);
      assert params[pos..][1..] == params[pos + 1..];
    }
  }

  /** Decoding a concatenation of complete code groups decodes each group. */
  lemma {:induction false} AttributesAppend(a: seq<int>, b: seq<int>, pos: nat)
    requires pos <= |a|
    requires Boundary(a, pos)
    ensures AttributesFrom(a + b, pos) == AttributesFrom(a, pos) + AttributesFrom(b, 0)
    decreases |a| - pos
  {
    if pos == |a| {
      SuffixShift(a, b, 0);
    } else {
      var (attr, next) := Step(a, pos);
      StepPrefix(a, b, pos);
      AttributesAppend(a, b, next);
    }
  }

  /** Decoding from `pos` never reads past the end of `a`: every step, including its colour, ends within `a`. */
  predicate Boundary(a: seq<int>, pos: nat)
    requires pos <= |a|
    decreases |a| - pos
  {
    pos == |a| || (StepWithin(a, pos) && Boundary(a, Step(a, pos).1))
  }

  /** The step at `pos` is complete within `a`: a colour it introduces has all its components. */
  predicate StepWithin(a: seq<int>, pos: nat)
    requires pos < |a|
  {
    (a[pos] == 38 || a[pos] == 48) ==>
      pos + 1 < |a| && (a[pos + 1] == 2 ==> pos + 4 < |a|) && (a[pos + 1] == 5 ==> pos + 2 < |a|)
  }

  lemma StepPrefix(a: seq<int>, b: seq<int>, pos: nat)
    requires pos < |a| && StepWithin(a, pos)
    ensures Step(a + b, pos) == Step(a, pos)
  {
    var s := a + b;
    assert s[pos] == a[pos];
    if a[pos] == 38 || a[pos] == 48 {
      assert s[pos + 1] == a[pos + 1];
      if a[pos + 1] == 2 {
        assert s[pos + 2] == a[pos + 2] && s[pos + 3] == a[pos + 3] && s[pos + 4] == a[pos + 4];
      } else if a[pos + 1] == 5 {
        assert s[pos + 2] == a[pos + 2];
      }
    }
  }

  lemma {:induction false} SuffixShift(a: seq<int>, b: seq<int>, pos: nat)
    requires pos <= |b|
    ensures AttributesFrom(a + b, |a| + pos) == AttributesFrom(b, pos)
    decreases |b| - pos
  {
    if pos < |b| {
      var (attr, next) := Step(b, pos);
      StepShift(a, b, pos);
      AttributesFromCons(a + b, |a| + pos, attr, |a| + next);
      AttributesFromCons(b, pos, attr, next);
      SuffixShift(a, b, next);
    }
  }

  /** One turn of the loop, as an equation. */
  lemma AttributesFromCons(params: seq<int>, pos: nat, attr: Option<Attribute>, next: nat)
    requires pos < |params| && Step(params, pos) == (attr, next)
    ensures next <= |params|
    ensures AttributesFrom(params, pos) == (if attr.Some? then [attr.value] else []) + AttributesFrom(params, next)
  {
  }

  lemma StepShift(a: seq<int>, b: seq<int>, pos: nat)
    requires pos < |b|
    ensures Step(a + b, |a| + pos) == (Step(b, pos).0, |a| + Step(b, pos).1)
  {
    var s := a + b;
    forall i | pos <= i < |b| ensures s[|a| + i] == b[i] { }
  }

  /** Decoding code by code distributes over concatenation. */
  lemma {:induction false} DecodeSimpleAppend(a: seq<int>, b: seq<int>)
    ensures DecodeSimple(a + b) == DecodeSimple(a) + DecodeSimple(b)
    decreases |a|
  {
    if a == [] {
      assert a + b == b;
    } else {
      assert (a + b)[1..] == a[1..] + b;
      assert (a + b)[0] == a[0];
      DecodeSimpleAppend(a[1..], b);
      var e := DecodeSimple([a[0]]);
      DecodeSimpleCons(a);
      DecodeSimpleCons(a + b);
      assert DecodeSimple(a + b) == e + (DecodeSimple(a[1..]) + DecodeSimple(b));
    }
  }

  lemma DecodeSimpleCons(a: seq<int>)
    requires a != []
    ensures DecodeSimple(a) == DecodeSimple([a[0]]) + DecodeSimple(a[1..])
  {
    assert [a[0]][1..] == [];
  }

  /** Parameters without colour introducers are complete code groups. */
  lemma {:induction false} BoundarySimple(params: seq<int>, pos: nat)
    requires pos <= |params|
    requires forall i :: pos <= i < |params| ==> params[i] != 38 && params[i] != 48
    ensures Boundary(params, pos)
    decreases |params| - pos
  {
    if pos < |params| {
      BoundarySimple(params, pos + 1);
    }
  }

  /** Complete code groups followed by complete code groups are complete. */
  lemma {:induction false} BoundaryAppend(a: seq<int>, b: seq<int>, pos: nat)
    requires pos <= |a| && Boundary(a, pos) && Boundary(b, 0)
    ensures Boundary(a + b, pos)
    decreases |a| - pos
  {
    if pos == |a| {
      BoundaryShift(a, b, 0);
    } else {
      StepPrefix(a, b, pos);
      StepWithinPrefix(a, b, pos);
      BoundaryAppend(a, b, Step(a, pos).1);
    }
  }

  lemma StepWithinPrefix(a: seq<int>, b: seq<int>, pos: nat)
    requires pos < |a| && StepWithin(a, pos)
    ensures StepWithin(a + b, pos)
  {
    var s := a + b;
    assert s[pos] == a[pos];
    if a[pos] == 38 || a[pos] == 48 {
      assert s[pos + 1] == a[pos + 1];
    }
  }

  lemma {:induction false} BoundaryShift(a: seq<int>, b: seq<int>, pos: nat)
    requires pos <= |b| && Boundary(b, pos)
    ensures Boundary(a + b, |a| + pos)
    decreases |b| - pos
  {
    if pos < |b| {
      var s := a + b;
      StepShift(a, b, pos);
      forall i | pos <= i < |b| ensures s[|a| + i] == b[i] { }
      assert StepWithin(s, |a| + pos);
      BoundaryShift(a, b, Step(b, pos).1);
    }
  }

  /** The decoding checked by the SGR unit test. */
  lemma ParseAttributesExample()
    ensures AttributesFrom([1, 3, 4, 7, 30, 38, 2, 100, 100, 100, 48, 5, 64], 0) ==
      [Bold, Italic, Underline, Reverse, Foreground(Colors.Black),
       Foreground(Colors.Rgb(Colors.RgbColor(100, 100, 100))), Background(Colors.Indexed(64))]
  {
    var p := [1, 3, 4, 7, 30, 38, 2, 100, 100, 100, 48, 5, 64];
    ExampleColours(p);
    ExampleCodes(p);
  }

  lemma ExampleColours(p: seq<int>)
    requires p == [1, 3, 4, 7, 30, 38, 2, 100, 100, 100, 48, 5, 64]
    ensures AttributesFrom(p, 5) == [Foreground(Colors.Rgb(Colors.RgbColor(100, 100, 100))), Background(Colors.Indexed(64))]
  {
    assert AttributesFrom(p, 13) == [];
    assert AttributesFrom(p, 10) == [Background(Colors.Indexed(64))];
  }

  lemma ExampleCodes(p: seq<int>)
    requires p == [1, 3, 4, 7, 30, 38, 2, 100, 100, 100, 48, 5, 64]
    ensures AttributesFrom(p, 0) == [Bold, Italic, Underline, Reverse, Foreground(Colors.Black)] + AttributesFrom(p, 5)
  {
    var rest := AttributesFrom(p, 5);
    ExampleLaterCodes(p);
    ExampleEarlierCodes(p);
    assert [Bold, Italic, Underline] + ([Reverse, Foreground(Colors.Black)] + rest) ==
      [Bold, Italic, Underline, Reverse, Foreground(Colors.Black)] + rest;
  }

  lemma ExampleLaterCodes(p: seq<int>)
    requires p == [1, 3, 4, 7, 30, 38, 2, 100, 100, 100, 48, 5, 64]
    ensures AttributesFrom(p, 3) == [Reverse, Foreground(Colors.Black)] + AttributesFrom(p, 5)
  {
    assert AttributesFrom(p, 4) == [Foreground(Colors.Black)] + AttributesFrom(p, 5);
    assert AttributesFrom(p, 3) == [Reverse] + AttributesFrom(p, 4);
  }

  lemma ExampleEarlierCodes(p: seq<int>)
    requires p == [1, 3, 4, 7, 30, 38, 2, 100, 100, 100, 48, 5, 64]
    ensures AttributesFrom(p, 0) == [Bold, Italic, Underline] + AttributesFrom(p, 3)
  {
    assert AttributesFrom(p, 2) == [Underline] + AttributesFrom(p, 3);
    assert AttributesFrom(p, 1) == [Italic] + AttributesFrom(p, 2);
  }
}
