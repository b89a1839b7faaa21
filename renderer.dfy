/**
 * The inverse of SGR decoding, src/ansi/renderer.rs: `render_attributes`
 * writes one SGR control sequence (section 8.3.117 of ECMA-48) that selects a
 * cell's rendition from scratch: reset, then each flag, then the foreground,
 * then the background.
 */
module Renderer {
  import opened Wrappers
  import opened Radix
  import Colors
  import Sgr
  import opened TextAttributes

  /** The order the flags are written in, which is also the order of their codes 1..9. */
  const FlagOrder: seq<Flag> := [Bold, Dim, Italic, Underline, BlinkSlow, BlinkFast, Inverse, Hidden, Strikeout]

  /** The SGR code that sets a flag. */
  function FlagCode(f: Flag): (n: nat)
    ensures 1 <= n <= 9 && FlagOrder[n - 1] == f
  {
    match f
    case Bold => 1
    case Dim => 2
    case Italic => 3
    case Underline => 4
    case BlinkSlow => 5
    case BlinkFast => 6
    case Inverse => 7
    case Hidden => 8
    case Strikeout => 9
  }

  /** The codes of the flags among the first `k` of `FlagOrder` that are set, in that order. */
  function FlagCodesUpTo(flags: set<Flag>, k: nat): seq<nat>
    requires k <= 9
  {
    if k == 0 then []
    else
      var f := FlagOrder[k - 1];
      FlagCodesUpTo(flags, k - 1) + (if f in flags then [k] else [])
  }

  function FlagCodes(flags: set<Flag>): seq<nat> {
    FlagCodesUpTo(flags, 9)
  }

  /** Among the first `k` flags, the codes of exactly the set ones, each once and in increasing order. */
  lemma {:induction false} FlagCodesUpToSpec(flags: set<Flag>, k: nat)
    requires k <= 9
    ensures forall i :: 0 <= i < |FlagCodesUpTo(flags, k)| ==> 1 <= FlagCodesUpTo(flags, k)[i] <= k
    ensures forall i, j :: 0 <= i < j < |FlagCodesUpTo(flags, k)| ==> FlagCodesUpTo(flags, k)[i] < FlagCodesUpTo(flags, k)[j]
    ensures forall f :: FlagCode(f) <= k ==> (f in flags <==> FlagCode(f) in FlagCodesUpTo(flags, k))
  {
    if k > 0 {
      FlagCodesUpToSpec(flags, k - 1);
    }
  }

  /** The flag codes written: each set flag once, in increasing order, and nothing else. */
  lemma FlagCodesSpec(flags: set<Flag>)
    ensures forall i, j :: 0 <= i < j < |FlagCodes(flags)| ==> FlagCodes(flags)[i] < FlagCodes(flags)[j]
    ensures forall f :: f in flags <==> FlagCode(f) in FlagCodes(flags)
    ensures forall i :: 0 <= i < |FlagCodes(flags)| ==> 1 <= FlagCodes(flags)[i] <= 9
  {
    FlagCodesUpToSpec(flags, 9);
  }

  /** The foreground codes: 30-37 for the first eight palette entries, 38;5;n and 38;2;r;g;b, 39 for the default, and 30 for a special colour that is not a foreground. */
  function FgCodes(c: Colors.Color): (codes: seq<nat>)
    ensures |codes| == 1 || |codes| == 3 || |codes| == 5
    ensures 30 <= codes[0] <= 39
  {
    match c
    case Indexed(n) => if n < 8 then [30 + n] else [38, 5, n]
    case Rgb(rgb) => [38, 2, rgb.r, rgb.g, rgb.b]
    case Special(s) => if s == Colors.Foreground then [39] else [30]
  }

  /** The background codes, mirroring the foreground ones ten higher. */
  function BgCodes(c: Colors.Color): (codes: seq<nat>)
    ensures |codes| == 1 || |codes| == 3 || |codes| == 5
    ensures 40 <= codes[0] <= 49
  {
    match c
    case Indexed(n) => if n < 8 then [40 + n] else [48, 5, n]
    case Rgb(rgb) => [48, 2, rgb.r, rgb.g, rgb.b]
    case Special(s) => if s == Colors.Background then [49] else [40]
  }

  /** The parameters of the rendered sequence. */
  function RenderParams(a: Attributes): seq<nat> {
    [0] + FlagCodes(a.flags) + FgCodes(a.fg) + BgCodes(a.bg)
  }

  /** One parameter after the first: a ';' and the number in decimal. */
  function Param(n: nat): string {
    ";" + Decimal(n)
  }

  /** The parameter string of a control sequence: decimal numbers separated by ';'. */
  function SgrText(ps: seq<nat>): string
    requires ps != []
  {
    if |ps| == 1 then Decimal(ps[0]) else SgrText(ps[..|ps| - 1]) + Param(ps[|ps| - 1])
  }

  lemma Emit(ps: seq<nat>, n: nat)
    requires ps != []
    ensures SgrText(ps + [n]) == SgrText(ps) + Param(n)
  {
    assert (ps + [n])[..|ps|] == ps;
  }

  /** Writing one more parameter extends the sequence written so far by that parameter. */
  lemma AppendParam(out: string, ps: seq<nat>, n: nat)
    requires ps != [] && out == Csi + SgrText(ps)
    ensures out + Param(n) == Csi + SgrText(ps + [n])
  {
    Emit(ps, n);
  }

  /** Writing several parameters. */
  lemma AppendParams(out: string, ps: seq<nat>, codes: seq<nat>)
    requires ps != [] && out == Csi + SgrText(ps)
    ensures out + Params(codes) == Csi + SgrText(ps + codes)
  {
    EmitAll(ps, codes);
    Associative(Csi, SgrText(ps), Params(codes));
  }

  lemma Associative(x: string, y: string, z: string)
    ensures x + y + z == x + (y + z)
  {
  }

  lemma FlagCodesStep(ps: seq<nat>, cur: seq<nat>, flags: set<Flag>, k: nat)
    requires 1 <= k <= 9 && cur == ps + FlagCodesUpTo(flags, k - 1)
    ensures (if FlagOrder[k - 1] in flags then cur + [k] else cur) == ps + FlagCodesUpTo(flags, k)
  {
  }

  /** The control sequence introducer, `ESC [`. */
  const Csi: string := "\U{001B}["

  /** `render_attributes`: writes `ESC [ 0`, the flag codes, one foreground code, one background code and `m`. */
  method RenderAttributes(a: Attributes) returns (out: string)
    ensures out == Csi + SgrText(RenderParams(a)) + "m"
  {
    ghost var ps: seq<nat> := [0];
    out := Csi + "0";
    assert out == Csi + SgrText(ps);
    out, ps := WriteFlags(out, ps, a.flags);
    out, ps := WriteForeground(out, ps, a.fg);
    out, ps := WriteBackground(out, ps, a.bg);
    out := out + "m";
  }

  /** The flag part of `render_attributes`: one `;k` for each flag set, in the order of `FlagOrder`. */
  method WriteFlags(out: string, ghost ps: seq<nat>, flags: set<Flag>) returns (out': string, ghost ps': seq<nat>)
    requires ps != [] && out == Csi + SgrText(ps)
    ensures ps' == ps + FlagCodes(flags) && out' == Csi + SgrText(ps')
  {
    out', ps' := out, ps;
    assert ps' == ps + FlagCodesUpTo(flags, 0);
    out', ps' := WriteFlag(out', ps', ps, flags, 1);
    out', ps' := WriteFlag(out', ps', ps, flags, 2);
    out', ps' := WriteFlag(out', ps', ps, flags, 3);
    out', ps' := WriteFlag(out', ps', ps, flags, 4);
    out', ps' := WriteFlag(out', ps', ps, flags, 5);
    out', ps' := WriteFlag(out', ps', ps, flags, 6);
    out', ps' := WriteFlag(out', ps', ps, flags, 7);
    out', ps' := WriteFlag(out', ps', ps, flags, 8);
    out', ps' := WriteFlag(out', ps', ps, flags, 9);
  }

  /** One flag test of `render_attributes`: `;k` when the `k`-th flag of `FlagOrder` is set. */
  method WriteFlag(out: string, ghost cur: seq<nat>, ghost ps: seq<nat>, flags: set<Flag>, k: nat)
    returns (out': string, ghost cur': seq<nat>)
    requires 1 <= k <= 9 && ps != []
    requires cur == ps + FlagCodesUpTo(flags, k - 1) && out == Csi + SgrText(cur)
    ensures cur' == ps + FlagCodesUpTo(flags, k) && out' == Csi + SgrText(cur')
  {
    FlagCodesStep(ps, cur, flags, k);
    if FlagOrder[k - 1] in flags {
      AppendParam(out, cur, k);
      out', cur' := out + Param(k), cur + [k];
    } else {
      out', cur' := out, cur;
    }
  }

  /** The foreground part of `render_attributes`. */
  method WriteForeground(out: string, ghost ps: seq<nat>, fg: Colors.Color) returns (out': string, ghost ps': seq<nat>)
    requires ps != [] && out == Csi + SgrText(ps)
    ensures ps' == ps + FgCodes(fg) && out' == Csi + SgrText(ps')
  {
    match fg {
      case Indexed(n) =>
        if n < 8 { out' := out + Param(30 + n); } else { out' := out + (Param(38) + (Param(5) + Param(n))); }
      case Rgb(c) =>
        out' := out + (Param(38) + (Param(2) + (Param(c.r) + (Param(c.g) + Param(c.b)))));
      case Special(s) =>
        if s == Colors.Foreground { out' := out + Param(39); } else { out' := out + Param(30); }
    }
    ParamsOf(FgCodes(fg));
    AppendParams(out, ps, FgCodes(fg));
    ps' := ps + FgCodes(fg);
  }

  /** The background part of `render_attributes`. */
  method WriteBackground(out: string, ghost ps: seq<nat>, bg: Colors.Color) returns (out': string, ghost ps': seq<nat>)
    requires ps != [] && out == Csi + SgrText(ps)
    ensures ps' == ps + BgCodes(bg) && out' == Csi + SgrText(ps')
  {
    match bg {
      case Indexed(n) =>
        if n < 8 { out' := out + Param(40 + n); } else { out' := out + (Param(48) + (Param(5) + Param(n))); }
      case Rgb(c) =>
        out' := out + (Param(48) + (Param(2) + (Param(c.r) + (Param(c.g) + Param(c.b)))));
      case Special(s) =>
        if s == Colors.Background { out' := out + Param(49); } else { out' := out + Param(40); }
    }
    ParamsOf(BgCodes(bg));
    AppendParams(out, ps, BgCodes(bg));
    ps' := ps + BgCodes(bg);
  }

  /** The text of several parameters, each after a ';'. */
  function Params(codes: seq<nat>): string {
    if codes == [] then "" else Param(codes[0]) + Params(codes[1..])
  }

  lemma ParamsOf(codes: seq<nat>)
    requires |codes| == 1 || |codes| == 3 || |codes| == 5
    ensures |codes| == 1 ==> Params(codes) == Param(codes[0])
    ensures |codes| == 3 ==> Params(codes) == Param(codes[0]) + (Param(codes[1]) + Param(codes[2]))
    ensures |codes| == 5 ==> Params(codes) == Param(codes[0]) + (Param(codes[1]) + (Param(codes[2]) + (Param(codes[3]) + Param(codes[4]))))
  {
    var n := |codes|;
    ParamsLast(codes[n - 1..]);
    if n >= 3 {
      ParamsCons(codes[n - 2..]);
      ParamsCons(codes[n - 3..]);
    }
    if n == 5 {
      ParamsCons(codes[1..]);
      ParamsCons(codes);
    }
  }

  lemma ParamsLast(codes: seq<nat>)
    requires |codes| == 1
    ensures Params(codes) == Param(codes[0])
  {
    assert codes[1..] == [];
  }

  lemma ParamsCons(codes: seq<nat>)
    requires |codes| >= 1
    ensures Params(codes) == Param(codes[0]) + Params(codes[1..])
  {
  }

  lemma {:induction false} EmitAll(ps: seq<nat>, codes: seq<nat>)
    requires ps != []
    ensures SgrText(ps + codes) == SgrText(ps) + Params(codes)
    decreases |codes|
  {
    if codes != [] {
      assert ps + codes == (ps + [codes[0]]) + codes[1..];
      EmitAll(ps + [codes[0]], codes[1..]);
      Emit(ps, codes[0]);
    } else {
      assert ps + codes == ps;
    }
  }

  /** The SGR attribute that sets a flag. */
  function SetFlag(f: Flag): (attr: Sgr.Attribute)
    ensures Sgr.CodeAttribute(FlagCode(f)) == Some(attr)
  {
    match f
    case Bold => Sgr.Bold
    case Dim => Sgr.Dim
    case Italic => Sgr.Italic
    case Underline => Sgr.Underline
    case BlinkSlow => Sgr.BlinkSlow
    case BlinkFast => Sgr.BlinkFast
    case Inverse => Sgr.Reverse
    case Hidden => Sgr.Hidden
    case Strikeout => Sgr.Strike
  }

  /** The attributes setting the flags among the first `k` of `FlagOrder`, in that order. */
  function FlagAttrsUpTo(flags: set<Flag>, k: nat): seq<Sgr.Attribute>
    requires k <= 9
  {
    if k == 0 then []
    else
      var f := FlagOrder[k - 1];
      FlagAttrsUpTo(flags, k - 1) + (if f in flags then [SetFlag(f)] else [])
  }

  lemma {:induction false} FlagCodesDecode(flags: set<Flag>, k: nat)
    requires k <= 9
    ensures Sgr.DecodeSimple(FlagCodesUpTo(flags, k)) == FlagAttrsUpTo(flags, k)
  {
    if k > 0 {
      FlagCodesDecode(flags, k - 1);
      var f := FlagOrder[k - 1];
      assert FlagCode(f) == k;
      var tail: seq<int> := if f in flags then [k] else [];
      Sgr.DecodeSimpleAppend(FlagCodesUpTo(flags, k - 1), tail);
      if f in flags {
        assert tail[1..] == [];
      }
    }
  }

  /** The colour a foreground reads back as: itself, except the fallback for a special colour that is not a foreground. */
  function RenderedFg(c: Colors.Color): Colors.Color {
    if c.Special? && c.special != Colors.Foreground then Colors.Black else c
  }

  function RenderedBg(c: Colors.Color): Colors.Color {
    if c.Special? && c.special != Colors.Background then Colors.Black else c
  }

  /** The foreground codes are one complete group that decodes to the foreground it was written for. */
  lemma FgDecodes(c: Colors.Color)
    ensures Sgr.Boundary(FgCodes(c), 0)
    ensures Sgr.AttributesFrom(FgCodes(c), 0) == [Sgr.Foreground(RenderedFg(c))]
  {
    var codes := FgCodes(c);
    assert Sgr.Step(codes, 0) == (Some(Sgr.Foreground(RenderedFg(c))), |codes|);
    assert Sgr.StepWithin(codes, 0);
  }

  lemma BgDecodes(c: Colors.Color)
    ensures Sgr.Boundary(BgCodes(c), 0)
    ensures Sgr.AttributesFrom(BgCodes(c), 0) == [Sgr.Background(RenderedBg(c))]
  {
    var codes := BgCodes(c);
    assert Sgr.Step(codes, 0) == (Some(Sgr.Background(RenderedBg(c))), |codes|);
    assert Sgr.StepWithin(codes, 0);
  }

  /**
   * Decoding what `render_attributes` writes gives a reset, one attribute per
   * set flag in the order of their codes, the foreground and the background:
   * the rendition back, except for a special colour in the wrong slot.
   */
  lemma RenderDecodes(a: Attributes)
    ensures Sgr.AttributesFrom(RenderParams(a), 0) ==
      [Sgr.Reset] + FlagAttrsUpTo(a.flags, 9) + [Sgr.Foreground(RenderedFg(a.fg)), Sgr.Background(RenderedBg(a.bg))]
  {
    var head: seq<int> := [0] + FlagCodes(a.flags);
    var fg: seq<int> := FgCodes(a.fg);
    var bg: seq<int> := BgCodes(a.bg);
    assert RenderParams(a) == (head + fg) + bg;
    HeadDecodes(a.flags);
    FgDecodes(a.fg);
    BgDecodes(a.bg);
    Sgr.AttributesAppend(head, fg, 0);
    Sgr.BoundaryAppend(head, fg, 0);
    Sgr.AttributesAppend(head + fg, bg, 0);
  }

  /** The reset and the flag codes decode code by code to the reset and the flags. */
  lemma HeadDecodes(flags: set<Flag>)
    ensures Sgr.Boundary([0] + FlagCodes(flags), 0)
    ensures Sgr.AttributesFrom([0] + FlagCodes(flags), 0) == [Sgr.Reset] + FlagAttrsUpTo(flags, 9)
  {
    var head: seq<int> := [0] + FlagCodes(flags);
    HeadSimple(flags);
    Sgr.BoundarySimple(head, 0);
    Sgr.AttributesOfSimpleCodes(head, 0);
    assert head[0..] == head;
    HeadDecodeSimple(flags);
  }

  lemma HeadSimple(flags: set<Flag>)
    ensures forall i :: 0 <= i < |[0] + FlagCodes(flags)| ==> ([0] + FlagCodes(flags))[i] != 38 && ([0] + FlagCodes(flags))[i] != 48
  {
    FlagCodesUpToSpec(flags, 9);
  }

  lemma HeadDecodeSimple(flags: set<Flag>)
    ensures Sgr.DecodeSimple([0] + FlagCodes(flags)) == [Sgr.Reset] + FlagAttrsUpTo(flags, 9)
  {
    var head: seq<int> := [0] + FlagCodes(flags);
    assert head[1..] == FlagCodes(flags);
    FlagCodesDecode(flags, 9);
  }
}
