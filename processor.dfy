/**
 * The control-function dispatcher (src/ansi/processor.rs): the callbacks the
 * escape-sequence parser makes for printable characters, C0 controls, ESC
 * sequences and CSI sequences (sections 5.4 and 8.3 of ECMA-48), and the
 * handler calls and replies each one issues.  The handler
 * (src/ansi/handler.rs) is recorded as a trace of calls; its two queries,
 * `cursor()` and `size()`, are the values passed in.
 */
module Processor {
  import opened Wrappers
  import opened Radix
  import opened Points
  import Ansi
  import Charsets
  import Sgr

  /** One call on the handler, with its arguments. */
  datatype HandlerCall =
    | PutChar(ch: char)
    | PutBackspace(count: nat)
    | PutTab(count: nat)
    | PutLf
    | PutCr
    | InsertBlank(count: nat)
    | InsertBlankLines(count: nat)
    | ClearScreen(screenMode: Ansi.ClearScreenMode)
    | ClearLine(lineMode: Ansi.ClearLineMode)
    | DeleteLines(count: nat)
    | DeleteChars(count: nat)
    | EraseChars(count: nat)
    | Bell
    | DoAlignmentTest
    | SetActiveCharset(index: Charsets.CharsetIndex)
    | ConfigureCharset(index: Charsets.CharsetIndex, charset: Charsets.StandardCharset)
    | SaveTitle
    | RestoreTitle
    | SaveCursorPosition
    | RestoreCursorPosition
    | SetCursorStyle(style: Ansi.CursorStyle)
    | SetHorizontalTabstop(column: nat)
    | UnsetHorizontalTabstop(column: nat)
    | UnsetAllHorizontalTabstops
    | MoveBackwardTabs(count: nat)
    | MoveUp(count: nat)
    | MoveDown(count: nat)
    | MoveForward(count: nat)
    | MoveBackward(count: nat)
    | GotoColumn(column: nat)
    | GotoLine(line: nat)
    | Goto(line: nat, column: nat)
    | ScrollUp(count: nat)
    | ScrollDown(count: nat)
    | SetScrollingRegion(top: nat, bottom: nat)
    | SetMode(mode: Ansi.TerminalMode)
    | UnsetMode(mode: Ansi.TerminalMode)
    | SetKeypadApplicationMode
    | UnsetKeypadApplicationMode
    | SgrAttribute(attr: Sgr.Attribute)
    | ReverseIndex
    | ResetState

  /** The C0 controls `execute` acts on. */
  const ExecutedControls: set<u8> := {Ansi.BEL, Ansi.BS, Ansi.HT, Ansi.LF, Ansi.VT, Ansi.FF, Ansi.CR, Ansi.SI, Ansi.SO}

  /** `execute`: the call a C0 control byte issues, if any. */
  function ExecuteCalls(b: u8): (r: seq<HandlerCall>)
    ensures |r| <= 1
    ensures r == [] <==> b !in ExecutedControls
    ensures b == Ansi.BEL ==> r == [Bell]
    ensures b == Ansi.BS ==> r == [PutBackspace(1)]
    ensures b == Ansi.HT ==> r == [PutTab(1)]
    ensures b == Ansi.LF || b == Ansi.VT || b == Ansi.FF ==> r == [PutLf]
    ensures b == Ansi.CR ==> r == [PutCr]
    ensures b == Ansi.SI ==> r == [SetActiveCharset(Charsets.G0)]
    ensures b == Ansi.SO ==> r == [SetActiveCharset(Charsets.G1)]
  {
    if b == Ansi.BEL then [Bell]
    else if b == Ansi.BS then [PutBackspace(1)]
    else if b == Ansi.HT then [PutTab(1)]
    else if b == Ansi.LF || b == Ansi.VT || b == Ansi.FF then [PutLf]
    else if b == Ansi.CR then [PutCr]
    else if b == Ansi.SI then [SetActiveCharset(Charsets.G0)]
    else if b == Ansi.SO then [SetActiveCharset(Charsets.G1)]
    else []
  }

  /** The first intermediate byte, if any. */
  function First(intermediates: seq<u8>): (r: Option<u8>)
    ensures r.Some? <==> |intermediates| > 0
    ensures r.Some? ==> r.value == intermediates[0]
  {
    if |intermediates| > 0 then Some(intermediates[0]) else None
  }

  function Byte(c: char): u8
    requires c as int < 256
  {
    c as int
  }

  /**
   * `esc_dispatch`: the calls an ESC sequence issues, from its final byte and
   * first intermediate; `cursorX` is the handler's cursor column.
   */
  function EscCalls(intermediates: seq<u8>, b: u8, cursorX: nat): (r: seq<HandlerCall>)
    ensures |r| <= 2
    ensures |r| == 2 <==> b == Byte('E') && intermediates == []
    // Only the listed sequences act; any other final or intermediate issues nothing.
    ensures r != [] <==>
      (intermediates == [] && b in {Byte('7'), Byte('8'), Byte('='), Byte('>'), Byte('D'), Byte('E'), Byte('H'), Byte('M'), Byte('c')}) ||
      (intermediates != [] && intermediates[0] in {Byte('('), Byte(')')} && b in {Byte('0'), Byte('B')}) ||
      (intermediates != [] && intermediates[0] == Byte('#') && b == Byte('8'))
  {
    var i := First(intermediates);
    if i == None then
      if b == Byte('7') then [SaveCursorPosition]
      else if b == Byte('8') then [RestoreCursorPosition]
      else if b == Byte('=') then [SetKeypadApplicationMode]
      else if b == Byte('>') then [UnsetKeypadApplicationMode]
      else if b == Byte('D') then [PutLf]
      else if b == Byte('E') then [PutLf, PutCr]
      else if b == Byte('H') then [SetHorizontalTabstop(cursorX)]
      else if b == Byte('M') then [ReverseIndex]
      else if b == Byte('c') then [ResetState]
      else []
    else if i == Some(Byte('(')) then
      if b == Byte('0') then [ConfigureCharset(Charsets.G0, Charsets.Ascii)]
      else if b == Byte('B') then [ConfigureCharset(Charsets.G0, Charsets.Special)]
      else []
    else if i == Some(Byte(')')) then
      if b == Byte('0') then [ConfigureCharset(Charsets.G1, Charsets.Ascii)]
      else if b == Byte('B') then [ConfigureCharset(Charsets.G1, Charsets.Special)]
      else []
    else if i == Some(Byte('#')) && b == Byte('8') then [DoAlignmentTest]
    else []
  }

  /** As written, `ESC ( 0` designates ASCII into G0 and `ESC ( B` the special graphics set; likewise for G1. */
  lemma DesignationAsWritten(x: nat)
    ensures EscCalls([Byte('(')], Byte('0'), x) == [ConfigureCharset(Charsets.G0, Charsets.Ascii)]
    ensures EscCalls([Byte('(')], Byte('B'), x) == [ConfigureCharset(Charsets.G0, Charsets.Special)]
    ensures EscCalls([Byte(')')], Byte('0'), x) == [ConfigureCharset(Charsets.G1, Charsets.Ascii)]
    ensures EscCalls([Byte(')')], Byte('B'), x) == [ConfigureCharset(Charsets.G1, Charsets.Special)]
    ensures EscCalls([], Byte('E'), x) == [PutLf, PutCr]
    ensures EscCalls([], Byte('H'), x) == [SetHorizontalTabstop(x)]
  {
  }

  /** `get_arg!`: the argument at `i`, or `default` when it is absent or zero. */
  function GetArg(args: seq<nat>, i: nat, default: nat): (v: nat)
    ensures i < |args| && args[i] != 0 ==> v == args[i]
    ensures i >= |args| || args[i] == 0 ==> v == default
    ensures default > 0 ==> v > 0
  {
    if i < |args| && args[i] != 0 then args[i] else default
  }

  /** The `h`/`l` loop: a set or unset call per argument that names a mode. */
  function ModeCalls(args: seq<nat>, intermediate: Option<u8>, enable: bool): (r: seq<HandlerCall>)
    ensures |r| <= |args|
    ensures intermediate.Some? && intermediate.value != Ansi.Question ==> r == []
  {
    if args == [] then []
    else
      ModeCalls(args[..|args| - 1], intermediate, enable) +
      match Ansi.TerminalModeFrom(intermediate, args[|args| - 1])
      case Some(m) => [if enable then SetMode(m) else UnsetMode(m)]
      case None => []
  }

  /** Every mode call names a mode of the kind the intermediate selects. */
  lemma {:induction false} ModeCallsKind(args: seq<nat>, intermediate: Option<u8>, enable: bool)
    ensures forall c :: c in ModeCalls(args, intermediate, enable) ==>
      (c.SetMode? || c.UnsetMode?) && (c.SetMode? <==> enable) &&
      (Ansi.IsAnsiMode(c.mode) <==> intermediate == None)
  {
    if args != [] {
      ModeCallsKind(args[..|args| - 1], intermediate, enable);
    }
  }

  /** One `sgr_attribute` call per attribute, in order. */
  function SgrCalls(attrs: seq<Sgr.Attribute>): (r: seq<HandlerCall>)
    ensures |r| == |attrs| && forall i :: 0 <= i < |attrs| ==> r[i] == SgrAttribute(attrs[i])
  {
    seq(|attrs|, i requires 0 <= i < |attrs| => SgrAttribute(attrs[i]))
  }

  /** The finals `FixedCalls` acts on without an intermediate. */
  const FixedFinals: set<char> := {'@', 'A', 'B', 'e', 'C', 'a', 'D', 'E', 'F', 'G', '`', 'H', 'f', 'J', 'K',
    'L', 'M', 'P', 'S', 'T', 'X', 'Z', 'd', 'g', 'r', 's', 't', 'u'}

  /** The CSI finals that issue a fixed list of calls (every final but `b`, `h`, `l`, `m`, `c` and `n`). */
  function FixedCalls(action: char, intermediate: Option<u8>, args: seq<nat>, cursor: Point, size: Point): (r: seq<HandlerCall>)
    // Only a listed final without intermediate, or `SP q`, issues anything.
    ensures r != [] ==> (intermediate == None && action in FixedFinals) || (intermediate == Some(Byte(' ')) && action == 'q')
    // At most two calls, and two only for `E` and `F`, which end with a carriage return.
    ensures |r| <= 2 && (|r| == 2 ==> (action == 'E' || action == 'F') && r[1] == PutCr)
    // The finals that do not look at an argument value always issue one call.
    ensures intermediate == None && action in FixedFinals - {'J', 'K', 'g', 't'} ==> |r| >= 1
  {
    if intermediate == Some(Byte(' ')) then
      if action == 'q' then
        match Ansi.CursorStyleFrom(GetArg(args, 0, 0))
        case Some(style) => [SetCursorStyle(style)]
        case None => []
      else []
    else if intermediate.Some? then []
    else
      var n := GetArg(args, 0, 1);
      match action
      case '@' => [InsertBlank(n)]
      case 'A' => [MoveUp(n)]
      case 'B' => [MoveDown(n)]
      case 'e' => [MoveDown(n)]
      case 'C' => [MoveForward(n)]
      case 'a' => [MoveForward(n)]
      case 'D' => [MoveBackward(n)]
      case 'E' => [MoveDown(n), PutCr]
      case 'F' => [MoveUp(n), PutCr]
      case 'G' => [GotoColumn(n - 1)]
      case '`' => [GotoColumn(n - 1)]
      case 'H' => [Goto(n - 1, GetArg(args, 1, 1) - 1)]
      case 'f' => [Goto(n - 1, GetArg(args, 1, 1) - 1)]
      case 'J' =>
        (match GetArg(args, 0, 0)
         case 0 => [ClearScreen(Ansi.Below)]
         case 1 => [ClearScreen(Ansi.Above)]
         case 2 => [ClearScreen(Ansi.All)]
         case 3 => [ClearScreen(Ansi.Saved)]
         case _ => [])
      case 'K' =>
        (match GetArg(args, 0, 0)
         case 0 => [ClearLine(Ansi.Right)]
         case 1 => [ClearLine(Ansi.Left)]
         case 2 => [ClearLine(Ansi.EntireLine)]
         case _ => [])
      case 'L' => [InsertBlankLines(n)]
      case 'M' => [DeleteLines(n)]
      case 'P' => [DeleteChars(n)]
      case 'S' => [ScrollUp(n)]
      case 'T' => [ScrollDown(n)]
      case 'X' => [EraseChars(n)]
      case 'Z' => [MoveBackwardTabs(n)]
      case 'd' => [GotoLine(n - 1)]
      case 'g' =>
        (match GetArg(args, 0, 0)
         case 0 => [UnsetHorizontalTabstop(cursor.x)]
         case 3 => [UnsetAllHorizontalTabstops]
         case _ => [])
      case 'r' => [SetScrollingRegion(n, GetArg(args, 1, size.y))]
      case 's' => [SaveCursorPosition]
      case 't' =>
        (match GetArg(args, 0, 0)
         case 22 => [SaveTitle]
         case 23 => [RestoreTitle]
         case _ => [])
      case 'u' => [RestoreCursorPosition]
      case _ => []
  }

  /** A CSI is dropped when the parser flagged too many intermediates or there is more than one. */
  predicate Ignored(intermediates: seq<u8>, ignore: bool) {
    ignore || |intermediates| > 1
  }

  /** `csi_dispatch`: the handler calls a CSI sequence issues, given the last printed character. */
  function CsiCalls(args: seq<nat>, intermediates: seq<u8>, ignore: bool, action: char,
                    preceding: Option<char>, cursor: Point, size: Point): (r: seq<HandlerCall>)
    ensures Ignored(intermediates, ignore) ==> r == []
  {
    if Ignored(intermediates, ignore) then []
    else
      var i := First(intermediates);
      if action == 'b' && i == None then
        match preceding
        case Some(ch) => seq(GetArg(args, 0, 1), _ => PutChar(ch))
        case None => []
      else if action == 'h' || action == 'l' then ModeCalls(args, i, action == 'h')
      else if action == 'm' && i == None then
        if args == [] then [SgrAttribute(Sgr.Reset)] else SgrCalls(Sgr.AttributesFrom(args, 0))
      else if action == 'c' || (action == 'n' && i == None) then []
      else FixedCalls(action, i, args, cursor, size)
  }

  /** A final that `csi_dispatch` does not list issues no call, whatever the arguments. */
  lemma CsiUnlistedFinal(args: seq<nat>, intermediates: seq<u8>, ignore: bool, action: char,
                         preceding: Option<char>, cursor: Point, size: Point)
    requires action !in FixedFinals && action !in {'b', 'h', 'l', 'm', 'q'}
    ensures CsiCalls(args, intermediates, ignore, action, preceding, cursor, size) == []
  {
  }

  const PrimaryAttributes: string := "\U{001B}[?1;2c"
  const SecondaryAttributes: string := "\U{001B}[>84;0;0c"
  const StatusOk: string := "\U{001B}[0n"

  /** The cursor position report: `ESC [ row ; column R`, both in decimal. */
  function CursorReport(cursor: Point): string {
    "\U{001B}[" + Decimal(cursor.y) + ";" + Decimal(cursor.x) + "R"
  }

  /** `csi_dispatch`: the reply a CSI sequence writes back (device attributes and status reports). */
  function CsiReply(args: seq<nat>, intermediates: seq<u8>, ignore: bool, action: char, cursor: Point): (r: string)
    ensures Ignored(intermediates, ignore) ==> r == []
    ensures r != [] ==> action == 'c' || action == 'n'
  {
    if Ignored(intermediates, ignore) then []
    else
      var i := First(intermediates);
      if action == 'c' && GetArg(args, 0, 0) == 0 then
        if i == None then PrimaryAttributes
        else if i == Some(Byte('>')) then SecondaryAttributes
        else []
      else if action == 'n' && i == None then
        var code := GetArg(args, 0, 0);
        if code == 5 then StatusOk
        else if code == 6 then CursorReport(cursor)
        else []
      else []
  }

  /** `ProcessorState` with the handler as a trace of calls and the writer as the text written. */
  class Performer {
    var preceding: Option<char>
    var calls: seq<HandlerCall>
    var output: string

    /** `ProcessorState::default()`: no character printed yet; nothing called or written. */
    constructor ()
      ensures preceding == None && calls == [] && output == []
    {
      preceding := None;
      calls := [];
      output := [];
    }

    /** `print`: one `put_char`, and the character is remembered for `CSI b`. */
    method Print(ch: char)
      modifies this
      ensures calls == old(calls) + [PutChar(ch)]
      ensures preceding == Some(ch) && output == old(output)
    {
      calls := calls + [PutChar(ch)];
      preceding := Some(ch);
    }

    /** `execute`: at most one call for a C0 control. */
    method Execute(b: u8)
      modifies this
      ensures calls == old(calls) + ExecuteCalls(b)
      ensures preceding == old(preceding) && output == old(output)
    {
      calls := calls + ExecuteCalls(b);
    }

    /** `esc_dispatch`; the ignore flag is not consulted. */
    method EscDispatch(intermediates: seq<u8>, ignore: bool, b: u8, cursor: Point)
      modifies this
      ensures calls == old(calls) + EscCalls(intermediates, b, cursor.x)
      ensures preceding == old(preceding) && output == old(output)
    {
      calls := calls + EscCalls(intermediates, b, cursor.x);
    }

    /** The `CSI b` loop: `n` more `put_char(ch)` calls. */
    method Repeat(ch: char, n: nat)
      modifies this
      ensures calls == old(calls) + seq(n, _ => PutChar(ch))
      ensures preceding == old(preceding) && output == old(output)
    {
      var k := 0;
      while k < n
        invariant k <= n
        invariant calls == old(calls) + seq(k, _ => PutChar(ch))
        invariant preceding == old(preceding) && output == old(output)
      {
        calls := calls + [PutChar(ch)];
        k := k + 1;
      }
    }

    /** The `CSI h`/`CSI l` loop over the arguments. */
    method Modes(args: seq<nat>, intermediate: Option<u8>, enable: bool)
      modifies this
      ensures calls == old(calls) + ModeCalls(args, intermediate, enable)
      ensures preceding == old(preceding) && output == old(output)
    {
      var k := 0;
      while k < |args|
        invariant k <= |args|
        invariant calls == old(calls) + ModeCalls(args[..k], intermediate, enable)
        invariant preceding == old(preceding) && output == old(output)
      {
        assert args[..k + 1][..k] == args[..k];
        match Ansi.TerminalModeFrom(intermediate, args[k]) {
          case Some(mode) =>
            calls := calls + [if enable then SetMode(mode) else UnsetMode(mode)];
          case None =>
        }
        k := k + 1;
      }
      assert args[..|args|] == args;
    }

    /** The `CSI m` loop: one `sgr_attribute` call per decoded attribute. */
    method Renditions(attrs: seq<Sgr.Attribute>)
      modifies this
      ensures calls == old(calls) + SgrCalls(attrs)
      ensures preceding == old(preceding) && output == old(output)
    {
      var k := 0;
      while k < |attrs|
        invariant k <= |attrs|
        invariant calls == old(calls) + SgrCalls(attrs[..k])
        invariant preceding == old(preceding) && output == old(output)
      {
        calls := calls + [SgrAttribute(attrs[k])];
        k := k + 1;
      }
      assert attrs[..|attrs|] == attrs;
    }

    /** `csi_dispatch`, with the handler's cursor and size at the time of the call. */
    method CsiDispatch(args: seq<nat>, intermediates: seq<u8>, ignore: bool, action: char, cursor: Point, size: Point)
      modifies this
      ensures calls == old(calls) + CsiCalls(args, intermediates, ignore, action, old(preceding), cursor, size)
      ensures output == old(output) + CsiReply(args, intermediates, ignore, action, cursor)
      ensures preceding == old(preceding)
    {
      if ignore || |intermediates| > 1 {
        return;
      }
      var i := First(intermediates);
      if action == 'b' && i == None {
        if preceding.Some? {
          Repeat(preceding.value, GetArg(args, 0, 1));
        }
      } else if action == 'h' || action == 'l' {
        Modes(args, i, action == 'h');
      } else if action == 'm' && i == None {
        if args == [] {
          calls := calls + [SgrAttribute(Sgr.Reset)];
        } else {
          var attrs := Sgr.ParseAttributes(args);
          Renditions(attrs);
        }
      } else if action == 'c' {
        if GetArg(args, 0, 0) == 0 {
          if i == None {
            output := output + PrimaryAttributes;
          } else if i == Some(Byte('>')) {
            output := output + SecondaryAttributes;
          }
        }
      } else if action == 'n' && i == None {
        var code := GetArg(args, 0, 0);
        if code == 5 {
          output := output + StatusOk;
        } else if code == 6 {
          output := output + CursorReport(cursor);
        }
      } else {
        calls := calls + FixedCalls(action, i, args, cursor, size);
      }
    }
  }

  /** `CSI b` repeats the last printed character n times (once by default), and does nothing before any. */
  lemma RepeatCharacter(args: seq<nat>, ch: Option<char>, cursor: Point, size: Point)
    ensures var r := CsiCalls(args, [], false, 'b', ch, cursor, size);
      (ch.None? ==> r == []) &&
      (ch.Some? ==> |r| == GetArg(args, 0, 1) && |r| >= 1 && forall k :: 0 <= k < |r| ==> r[k] == PutChar(ch.value))
  {
  }

  /** Cursor positioning (`H` or `f`, `G` or `` ` ``, `d`) is 1-based on the wire and 0-based at the handler, and 0 or absent means 1. */
  lemma CursorPositioning(args: seq<nat>, cursor: Point, size: Point)
    ensures CsiCalls(args, [], false, 'H', None, cursor, size) == [Goto(GetArg(args, 0, 1) - 1, GetArg(args, 1, 1) - 1)]
    ensures CsiCalls(args, [], false, 'G', None, cursor, size) == [GotoColumn(GetArg(args, 0, 1) - 1)]
    ensures CsiCalls(args, [], false, 'd', None, cursor, size) == [GotoLine(GetArg(args, 0, 1) - 1)]
    ensures CsiCalls(args, [], false, 'f', None, cursor, size) == CsiCalls(args, [], false, 'H', None, cursor, size)
    ensures CsiCalls(args, [], false, '`', None, cursor, size) == CsiCalls(args, [], false, 'G', None, cursor, size)
    ensures CsiCalls([], [], false, 'H', None, cursor, size) == [Goto(0, 0)]
  {
  }

  /** `CSI J` takes 0..3 and `CSI K` 0..2; any other value issues nothing. */
  lemma ClearModes(args: seq<nat>, cursor: Point, size: Point)
    ensures var r := CsiCalls(args, [], false, 'J', None, cursor, size);
      (r != [] <==> GetArg(args, 0, 0) <= 3) && (r != [] ==> r[0].ClearScreen?)
    ensures var r := CsiCalls(args, [], false, 'K', None, cursor, size);
      (r != [] <==> GetArg(args, 0, 0) <= 2) && (r != [] ==> r[0].ClearLine?)
    ensures CsiCalls([], [], false, 'J', None, cursor, size) == [ClearScreen(Ansi.Below)]
    ensures CsiCalls([2], [], false, 'K', None, cursor, size) == [ClearLine(Ansi.EntireLine)]
  {
  }

  /** `CSI m` without arguments is a reset; with arguments it issues the decoded attributes in order. */
  lemma SelectGraphicRendition(args: seq<nat>, cursor: Point, size: Point)
    ensures var r := CsiCalls(args, [], false, 'm', None, cursor, size);
      (args == [] ==> r == [SgrAttribute(Sgr.Reset)]) &&
      (args != [] ==> r == SgrCalls(Sgr.AttributesFrom(args, 0)) && |r| <= |args|)
  {
  }

  /** `CSI h`/`CSI l` with an intermediate other than '?' issue nothing; with none, only ANSI modes. */
  lemma SetResetMode(args: seq<nat>, intermediates: seq<u8>, cursor: Point, size: Point)
    requires |intermediates| <= 1
    ensures var r := CsiCalls(args, intermediates, false, 'h', None, cursor, size);
      |r| <= |args| &&
      (intermediates != [] && intermediates[0] != Ansi.Question ==> r == []) &&
      (intermediates == [] ==> forall c :: c in r ==> c.SetMode? && Ansi.IsAnsiMode(c.mode))
  {
    ModeCallsKind(args, First(intermediates), true);
  }

  /** The device attribute and status replies. */
  lemma Replies(cursor: Point)
    ensures CsiReply([], [], false, 'c', cursor) == "\U{001B}[?1;2c"
    ensures CsiReply([0], [Byte('>')], false, 'c', cursor) == "\U{001B}[>84;0;0c"
    ensures CsiReply([5], [], false, 'n', cursor) == "\U{001B}[0n"
    ensures CsiReply([6], [], false, 'n', cursor) == CursorReport(cursor)
    ensures CsiReply([1], [], false, 'c', cursor) == []
  {
  }

  /**
   * The cursor report's two fields are plain decimal numbers without ';',
   * so the report splits at its one ';' into fields that read back as the
   * row and the column.
   */
  lemma CursorReportReadsBack(cursor: Point)
    ensures var row, col := Decimal(cursor.y), Decimal(cursor.x);
      CursorReport(cursor) == "\U{001B}[" + row + ";" + col + "R" &&
      ';' !in row && ';' !in col &&
      FromStrRadix(row, 10, cursor.y) == Some(cursor.y) &&
      FromStrRadix(col, 10, cursor.x) == Some(cursor.x)
  {
    RoundTrip(cursor.y, 10, cursor.y);
    RoundTrip(cursor.x, 10, cursor.x);
  }
}
