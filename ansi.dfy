/**
 * The escape-sequence vocabulary of src/ansi/mod.rs: the C0 control bytes
 * (ANSI X3.4-1977, section 8.2 of ECMA-48) and the tables between numbers or
 * bytes and the cursor styles, clipboard selections, terminal modes and
 * clear modes that control functions carry.
 */
module Ansi {
  import opened Wrappers
  import opened Radix

  const NUL: u8 := 0x00
  const SOH: u8 := 0x01
  const STX: u8 := 0x02
  const ETX: u8 := 0x03
  const EOT: u8 := 0x04
  const ENQ: u8 := 0x05
  const ACK: u8 := 0x06
  const BEL: u8 := 0x07
  const BS: u8 := 0x08
  const HT: u8 := 0x09
  const LF: u8 := 0x0A
  const VT: u8 := 0x0B
  const FF: u8 := 0x0C
  const CR: u8 := 0x0D
  const SO: u8 := 0x0E
  const SI: u8 := 0x0F
  const DLE: u8 := 0x10
  const XON: u8 := 0x11
  const DC2: u8 := 0x12
  const XOFF: u8 := 0x13
  const DC4: u8 := 0x14
  const NAK: u8 := 0x15
  const SYN: u8 := 0x16
  const ETB: u8 := 0x17
  const CAN: u8 := 0x18
  const EM: u8 := 0x19
  const SUB: u8 := 0x1A
  const ESC: u8 := 0x1B
  const FS: u8 := 0x1C
  const GS: u8 := 0x1D
  const RS: u8 := 0x1E
  const US: u8 := 0x1F
  const DEL: u8 := 0x7F

  /** The C0 set is the 32 bytes below 0x20, in table order, with DEL beside it. */
  lemma C0Table()
    ensures [NUL, SOH, STX, ETX, EOT, ENQ, ACK, BEL, BS, HT, LF, VT, FF, CR, SO, SI] == seq(16, i => i)
    ensures [DLE, XON, DC2, XOFF, DC4, NAK, SYN, ETB, CAN, EM, SUB, ESC, FS, GS, RS, US] == seq(16, i => 16 + i)
    ensures DEL == 127
  {
  }

  datatype CursorStyle =
    | Default
    | BlinkingBlock
    | StaticBlock
    | BlinkingUnderline
    | StaticUnderline
    | BlinkingBar
    | StaticBar

  /** `CursorStyle::from_primitive`: DECSCUSR's parameter 0..6. */
  function CursorStyleFrom(n: int): (r: Option<CursorStyle>)
    ensures r.Some? <==> 0 <= n <= 6
  {
    match n
    case 0 => Some(Default)
    case 1 => Some(BlinkingBlock)
    case 2 => Some(StaticBlock)
    case 3 => Some(BlinkingUnderline)
    case 4 => Some(StaticUnderline)
    case 5 => Some(BlinkingBar)
    case 6 => Some(StaticBar)
    case _ => None
  }

  /** `CursorStyle::to_primitive`. */
  function CursorStyleCode(s: CursorStyle): (n: int)
    ensures 0 <= n <= 6
    ensures CursorStyleFrom(n) == Some(s)
  {
    match s
    case Default => 0
    case BlinkingBlock => 1
    case StaticBlock => 2
    case BlinkingUnderline => 3
    case StaticUnderline => 4
    case BlinkingBar => 5
    case StaticBar => 6
  }

  /** Every accepted number is the code of the style it decodes to. */
  lemma CursorStyleRoundTrip(n: int)
    ensures CursorStyleFrom(n).Some? ==> CursorStyleCode(CursorStyleFrom(n).value) == n
  {
  }

  predicate IsBlinking(s: CursorStyle) {
    s == BlinkingBlock || s == BlinkingUnderline || s == BlinkingBar
  }

  predicate IsStatic(s: CursorStyle) {
    s == StaticBlock || s == StaticUnderline || s == StaticBar
  }

  /** The shape a style draws, whatever its blinking. */
  function Shape(s: CursorStyle): nat {
    match s
    case Default => 0
    case BlinkingBlock => 1
    case StaticBlock => 1
    case BlinkingUnderline => 2
    case StaticUnderline => 2
    case BlinkingBar => 3
    case StaticBar => 3
  }

  /** `to_blinking`: the blinking variant of a static style; any other style is unchanged. */
  function ToBlinking(s: CursorStyle): (r: CursorStyle)
    ensures Shape(r) == Shape(s)
    ensures !IsStatic(r)
    ensures !IsStatic(s) ==> r == s
  {
    match s
    case StaticBlock => BlinkingBlock
    case StaticUnderline => BlinkingUnderline
    case StaticBar => BlinkingBar
    case _ => s
  }

  /** `to_static`: the static variant of a blinking style; any other style is unchanged. */
  function ToStatic(s: CursorStyle): (r: CursorStyle)
    ensures Shape(r) == Shape(s)
    ensures !IsBlinking(r)
    ensures !IsBlinking(s) ==> r == s
  {
    match s
    case BlinkingBlock => StaticBlock
    case BlinkingUnderline => StaticUnderline
    case BlinkingBar => StaticBar
    case _ => s
  }

  /** Both conversions are idempotent, undo each other on the styles they change, and fix the default. */
  lemma BlinkingLaws(s: CursorStyle)
    ensures ToBlinking(ToBlinking(s)) == ToBlinking(s)
    ensures ToStatic(ToStatic(s)) == ToStatic(s)
    ensures ToStatic(ToBlinking(s)) == ToStatic(s)
    ensures ToBlinking(ToStatic(s)) == ToBlinking(s)
    ensures ToBlinking(Default) == Default && ToStatic(Default) == Default
  {
  }

  datatype ClipboardType = Clipboard | Primary | Selection | Cut0 | Cut1 | Cut2 | Cut3 | Cut4 | Cut5 | Cut6 | Cut7

  /** The selection letters of OSC 52: "cps" then the cut buffers "01234567". */
  const ClipboardLetters: string := "cps01234567"

  /** `ClipboardType::from_primitive`. */
  function ClipboardFrom(b: u8): (r: Option<ClipboardType>)
    ensures r.Some? <==> b as char in ClipboardLetters
  {
    match b
    case 0x63 => Some(Clipboard)
    case 0x70 => Some(Primary)
    case 0x73 => Some(Selection)
    case 0x30 => Some(Cut0)
    case 0x31 => Some(Cut1)
    case 0x32 => Some(Cut2)
    case 0x33 => Some(Cut3)
    case 0x34 => Some(Cut4)
    case 0x35 => Some(Cut5)
    case 0x36 => Some(Cut6)
    case 0x37 => Some(Cut7)
    case _ => None
  }

  /** `ClipboardType::to_primitive`. */
  function ClipboardCode(t: ClipboardType): (b: u8)
    ensures b as char in ClipboardLetters
    ensures ClipboardFrom(b) == Some(t)
  {
    match t
    case Clipboard => 'c' as u8
    case Primary => 'p' as u8
    case Selection => 's' as u8
    case Cut0 => '0' as u8
    case Cut1 => '1' as u8
    case Cut2 => '2' as u8
    case Cut3 => '3' as u8
    case Cut4 => '4' as u8
    case Cut5 => '5' as u8
    case Cut6 => '6' as u8
    case Cut7 => '7' as u8
  }

  lemma ClipboardRoundTrip(b: u8)
    ensures ClipboardFrom(b).Some? ==> ClipboardCode(ClipboardFrom(b).value) == b
  {
  }

  datatype TerminalMode =
    | CursorKeys
    | ColumnMode
    | Insert
    | Origin
    | LineWrap
    | BlinkingCursor
    | LineFeedNewLine
    | ShowCursor
    | ReportMouseClicks
    | ReportCellMouseMotion
    | ReportAllMouseMotion
    | ReportFocusInOut
    | Utf8Mouse
    | SgrMouse
    | AlternateScroll
    | SwapScreenAndSetRestoreCursor
    | BracketedPaste

  /** The two ANSI modes (IRM and LNM); every other mode is a DEC private mode. */
  predicate IsAnsiMode(m: TerminalMode) {
    m == Insert || m == LineFeedNewLine
  }

  /** The number that selects a mode in SM/RM, as listed by xterm. */
  function ModeNumber(m: TerminalMode): int {
    match m
    case CursorKeys => 1
    case ColumnMode => 3
    case Insert => 4
    case Origin => 6
    case LineWrap => 7
    case BlinkingCursor => 12
    case LineFeedNewLine => 20
    case ShowCursor => 25
    case ReportMouseClicks => 1000
    case ReportCellMouseMotion => 1002
    case ReportAllMouseMotion => 1003
    case ReportFocusInOut => 1004
    case Utf8Mouse => 1005
    case SgrMouse => 1006
    case AlternateScroll => 1007
    case SwapScreenAndSetRestoreCursor => 1049
    case BracketedPaste => 2004
  }

  const Question: u8 := '?' as u8

  /** `TerminalMode::from_primitive`: no intermediate selects an ANSI mode, '?' a private one, anything else nothing. */
  function TerminalModeFrom(intermediate: Option<u8>, number: int): (r: Option<TerminalMode>)
    ensures intermediate.Some? && intermediate.value != Question ==> r == None
    ensures r.Some? && IsAnsiMode(r.value) ==> intermediate == None
    ensures r.Some? && !IsAnsiMode(r.value) ==> intermediate == Some(Question)
  {
    var private :=
      match intermediate
      case Some(b) => if b == Question then Some(true) else None
      case None => Some(false);
    match private
    case None => None
    case Some(p) =>
      if p then
        match number
        case 1 => Some(CursorKeys)
        case 3 => Some(ColumnMode)
        case 6 => Some(Origin)
        case 7 => Some(LineWrap)
        case 12 => Some(BlinkingCursor)
        case 25 => Some(ShowCursor)
        case 1000 => Some(ReportMouseClicks)
        case 1002 => Some(ReportCellMouseMotion)
        case 1003 => Some(ReportAllMouseMotion)
        case 1004 => Some(ReportFocusInOut)
        case 1005 => Some(Utf8Mouse)
        case 1006 => Some(SgrMouse)
        case 1007 => Some(AlternateScroll)
        case 1049 => Some(SwapScreenAndSetRestoreCursor)
        case 2004 => Some(BracketedPaste)
        case _ => None
      else
        match number
        case 4 => Some(Insert)
        case 20 => Some(LineFeedNewLine)
        case _ => None
  }

  /** A mode decodes from exactly its own number with its own kind of intermediate. */
  lemma TerminalModeExact(intermediate: Option<u8>, number: int, m: TerminalMode)
    ensures TerminalModeFrom(intermediate, number) == Some(m) <==>
      number == ModeNumber(m) && intermediate == (if IsAnsiMode(m) then None else Some(Question))
  {
  }

  datatype ClearScreenMode = Below | Above | All | Saved

  datatype ClearLineMode = Right | Left | EntireLine
}
