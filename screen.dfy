/**
 * The screen (src/screen/mod.rs): a grid, its size, the cursor, the template
 * new cells are drawn with, the four character-set slots and the active slot,
 * and the handler operations that move the cursor, write cells and change the
 * template.
 */
module Screens {
  import opened Wrappers
  import opened Points
  import opened Grids
  import opened Charsets
  import opened TextAttributes
  import Sgr
  import Renderer

  /** `cursor_prev` as written: None where one of its `usize` subtractions would overflow. */
  function PrevAsWritten(c: Point, w: nat): (r: Option<Point>)
    // It overflows exactly at column 0 of the first row, or at column 0 when the width is 0.
    ensures r.None? <==> c.x == 0 && (w == 0 || c.y == 0)
    // Otherwise it is one cell back: an earlier point whose successor is the cursor.
    ensures r.Some? ==> Lt(r.value, c)
    ensures r.Some? && c.x < w ==> Succ(r.value, w) == c
  {
    if c.x == 0 then
      if w == 0 || c.y == 0 then None else Some(Point(c.y - 1, w - 1))
    else Some(c.(x := c.x - 1))
  }

  /**
   * `cursor_prev` with the overflow removed: one cell back, to the end of the
   * previous row from the first column, and no move at all from the origin.
   */
  function Prev(c: Point, w: nat): (q: Point)
    ensures PrevAsWritten(c, w).Some? ==> q == PrevAsWritten(c, w).value
    ensures PrevAsWritten(c, w).None? ==> q == c
  {
    if c.x == 0 then
      if w == 0 || c.y == 0 then c else Point(c.y - 1, w - 1)
    else c.(x := c.x - 1)
  }

  /** A backspace at the origin makes the written `cursor_prev` subtract 1 from row 0. */
  lemma BackspaceAtOrigin(w: nat)
    ensures PrevAsWritten(Point(0, 0), w) == None
    ensures Prev(Point(0, 0), w) == Point(0, 0)
  {
  }

  /** Within the width, stepping back undoes stepping forward. */
  lemma PrevUndoesNext(c: Point, w: nat)
    requires c.x < w
    ensures Prev(Succ(c, w), w) == c
  {
  }

  /** Stepping forward undoes stepping back from any in-width point but the origin. */
  lemma NextUndoesPrev(c: Point, w: nat)
    requires c.x < w && c != Point(0, 0)
    ensures Succ(Prev(c, w), w) == c
  {
  }

  /** The lines with the character of the cell at `p` removed and its rendition kept. */
  function ClearCh(data: seq<seq<Cell>>, p: Point): seq<seq<Cell>> {
    match Lookup(data, p)
    case Some(c) => Store(data, p, c.(ch := None))
    case None => data
  }

  /** `put_backspace(n)`: n times, clear the character under the cursor and step back. */
  function Backspace(data: seq<seq<Cell>>, c: Point, w: nat, n: nat): (r: (seq<seq<Cell>>, Point))
    // The cursor never moves forward.
    ensures !Lt(c, r.1)
    decreases n
  {
    if n == 0 then (data, c) else Backspace(ClearCh(data, c), Prev(c, w), w, n - 1)
  }

  lemma BackspaceStep(data: seq<seq<Cell>>, c: Point, w: nat, n: nat)
    requires n > 0
    ensures Backspace(data, c, w, n) == Backspace(ClearCh(data, c), Prev(c, w), w, n - 1)
  {
  }

  /** A cell that is `before` or `before` without its character. */
  predicate KeptOrCleared(now: Option<Cell>, before: Option<Cell>) {
    before.Some? ==> now.Some? && now.value.attributes == before.value.attributes && (now.value.ch == None || now.value.ch == before.value.ch)
  }

  /** Backspaces keep the shape of the lines and every cell's rendition; they only remove characters. */
  lemma {:induction false} BackspaceKeepsCells(data: seq<seq<Cell>>, c: Point, w: nat, n: nat)
    ensures |Backspace(data, c, w, n).0| == |data|
    ensures forall y :: 0 <= y < |data| ==> |Backspace(data, c, w, n).0[y]| == |data[y]|
    ensures forall p :: KeptOrCleared(Lookup(Backspace(data, c, w, n).0, p), Lookup(data, p))
    decreases n
  {
    if n > 0 {
      var data' := ClearCh(data, c);
      BackspaceKeepsCells(data', Prev(c, w), w, n - 1);
      forall p ensures KeptOrCleared(Lookup(Backspace(data, c, w, n).0, p), Lookup(data, p)) {
        assert KeptOrCleared(Lookup(data', p), Lookup(data, p));
      }
    }
  }

  /** The cell at `p` once the characters of the `n` cells of row `c.y` ending at `c` are removed. */
  function ClearedBefore(data: seq<seq<Cell>>, c: Point, n: nat, p: Point): Option<Cell> {
    if p.y == c.y && c.x < p.x + n && p.x <= c.x && Lookup(data, p).Some?
    then Some(Lookup(data, p).value.(ch := None))
    else Lookup(data, p)
  }

  /**
   * With at least `n` columns to the left, `n` backspaces clear the characters
   * of the cursor's cell and the n-1 cells before it, keep their renditions,
   * leave every other cell alone and end n columns left.
   */
  lemma {:induction false} BackspaceInRow(data: seq<seq<Cell>>, c: Point, w: nat, n: nat)
    requires n <= c.x
    ensures Backspace(data, c, w, n).1 == c.(x := c.x - n)
    ensures forall p :: Lookup(Backspace(data, c, w, n).0, p) == ClearedBefore(data, c, n, p)
    decreases n
  {
    if n > 0 {
      var data' := ClearCh(data, c);
      var c' := c.(x := c.x - 1);
      assert Prev(c, w) == c';
      BackspaceInRow(data', c', w, n - 1);
      forall p
        ensures Lookup(Backspace(data, c, w, n).0, p) == ClearedBefore(data, c, n, p)
      {
        assert Lookup(data', p) == if p == c && Lookup(data, p).Some? then Some(Lookup(data, p).value.(ch := None)) else Lookup(data, p);
      }
    }
  }

  /** The flags an SGR attribute is about, in the sense of section 8.3.117 of ECMA-48. */
  function Named(a: Sgr.Attribute): set<Flag> {
    match a
    case Bold => {Bold}
    case CancelBold => {Bold}
    case Dim => {Dim}
    case CancelBoldDim => {Bold, Dim}
    case Italic => {Italic}
    case CancelItalic => {Italic}
    case Underline => {Underline}
    case CancelUnderline => {Underline}
    case BlinkSlow => {BlinkSlow, BlinkFast}
    case BlinkFast => {BlinkSlow, BlinkFast}
    case CancelBlink => {BlinkSlow, BlinkFast}
    case Reverse => {Inverse}
    case CancelReverse => {Inverse}
    case Hidden => {Hidden}
    case CancelHidden => {Hidden}
    case Strike => {Strikeout}
    case CancelStrike => {Strikeout}
    case _ => {}
  }

  /** The attributes that switch one flag on. */
  predicate Sets(a: Sgr.Attribute) {
    a.Bold? || a.Dim? || a.Italic? || a.Underline? || a.BlinkSlow? || a.BlinkFast? ||
    a.Reverse? || a.Hidden? || a.Strike?
  }

  /** The attributes that switch flags off. */
  predicate Cancels(a: Sgr.Attribute) {
    a.CancelBold? || a.CancelBoldDim? || a.CancelItalic? || a.CancelUnderline? || a.CancelBlink? ||
    a.CancelReverse? || a.CancelHidden? || a.CancelStrike?
  }

  /** The flag a setting attribute switches on. */
  function FlagOf(a: Sgr.Attribute): Flag
    requires Sets(a)
  {
    match a
    case Bold => Bold
    case Dim => Dim
    case Italic => Italic
    case Underline => Underline
    case BlinkSlow => BlinkSlow
    case BlinkFast => BlinkFast
    case Reverse => Inverse
    case Hidden => Hidden
    case Strike => Strikeout
  }

  /** `sgr_attribute` as written, applied to the cell template. */
  function ApplyAttributeAsWritten(t: Attributes, a: Sgr.Attribute): (r: Attributes)
    ensures a.Reset? ==> r == DefaultAttributes
    ensures a.Foreground? ==> r.flags == t.flags && r.bg == t.bg && r.fg == a.color
    ensures a.Background? ==> r.flags == t.flags && r.fg == t.fg && r.bg == a.color
    ensures Sets(a) || Cancels(a) ==> r.fg == t.fg && r.bg == t.bg && r.flags - Named(a) == t.flags - Named(a)
    ensures Sets(a) ==> r.flags * Named(a) == {FlagOf(a)}
    ensures Cancels(a) && a != Sgr.CancelBoldDim ==> r.flags * Named(a) == {}
    // SGR 22 clears faint only: bold stays as it was.
    ensures a == Sgr.CancelBoldDim ==> r.flags == t.flags - {Dim}
  {
    match a
    case Reset => DefaultAttributes
    case Bold => t.(flags := t.flags + {Bold})
    case Dim => t.(flags := t.flags + {Dim})
    case Italic => t.(flags := t.flags + {Italic})
    case Underline => t.(flags := t.flags + {Underline})
    case BlinkSlow => t.(flags := t.flags + {BlinkSlow} - {BlinkFast})
    case BlinkFast => t.(flags := t.flags + {BlinkFast} - {BlinkSlow})
    case Reverse => t.(flags := t.flags + {Inverse})
    case Hidden => t.(flags := t.flags + {Hidden})
    case Strike => t.(flags := t.flags + {Strikeout})
    case CancelBold => t.(flags := t.flags - {Bold})
    case CancelBoldDim => t.(flags := t.flags - {Dim})
    case CancelItalic => t.(flags := t.flags - {Italic})
    case CancelUnderline => t.(flags := t.flags - {Underline})
    case CancelBlink => t.(flags := t.flags - {BlinkSlow, BlinkFast})
    case CancelReverse => t.(flags := t.flags - {Inverse})
    case CancelHidden => t.(flags := t.flags - {Hidden})
    case CancelStrike => t.(flags := t.flags - {Strikeout})
    case Foreground(c) => t.(fg := c)
    case Background(c) => t.(bg := c)
  }

  /** As written, SGR 22 after SGR 1 leaves the text bold. */
  lemma CancelBoldDimKeepsBold(t: Attributes)
    requires Bold in t.flags
    ensures Bold in ApplyAttributeAsWritten(t, Sgr.CancelBoldDim).flags
  {
  }

  /**
   * `sgr_attribute` with SGR 22 restoring normal intensity (neither bold nor
   * faint): reset restores the default, a colour changes only its slot, and a
   * flag attribute changes only the flags it is about, switching its flag on
   * (the two blink rates excluding each other) or them all off.
   */
  function ApplyAttribute(t: Attributes, a: Sgr.Attribute): (r: Attributes)
    ensures a.Reset? ==> r == DefaultAttributes
    ensures a.Foreground? ==> r.flags == t.flags && r.bg == t.bg && r.fg == a.color
    ensures a.Background? ==> r.flags == t.flags && r.fg == t.fg && r.bg == a.color
    ensures Sets(a) || Cancels(a) ==> r.fg == t.fg && r.bg == t.bg && r.flags - Named(a) == t.flags - Named(a)
    ensures Sets(a) ==> r.flags * Named(a) == {FlagOf(a)}
    ensures Cancels(a) ==> r.flags * Named(a) == {}
    ensures a != Sgr.CancelBoldDim ==> r == ApplyAttributeAsWritten(t, a)
  {
    if a == Sgr.CancelBoldDim then t.(flags := t.flags - {Bold, Dim}) else ApplyAttributeAsWritten(t, a)
  }

  /** At most one blink rate is on. */
  predicate BlinkExclusive(t: Attributes) {
    !(BlinkSlow in t.flags && BlinkFast in t.flags)
  }

  /** The default template has no blink, and no attribute turns both blink rates on. */
  lemma BlinkExclusiveKept(t: Attributes, a: Sgr.Attribute)
    requires BlinkExclusive(t)
    ensures BlinkExclusive(DefaultAttributes)
    ensures BlinkExclusive(ApplyAttribute(t, a))
  {
    var r := ApplyAttribute(t, a);
    if Sets(a) || Cancels(a) {
      if BlinkSlow !in Named(a) {
        assert BlinkSlow in r.flags <==> BlinkSlow in t.flags;
        assert BlinkFast in r.flags <==> BlinkFast in t.flags;
      }
    }
  }

  /** A sequence of SGR attributes applied in order. */
  function ApplyAll(t: Attributes, attrs: seq<Sgr.Attribute>): Attributes
    decreases |attrs|
  {
    if attrs == [] then t else ApplyAll(ApplyAttribute(t, attrs[0]), attrs[1..])
  }

  lemma {:induction false} ApplyAllAppend(t: Attributes, xs: seq<Sgr.Attribute>, ys: seq<Sgr.Attribute>)
    ensures ApplyAll(t, xs + ys) == ApplyAll(ApplyAll(t, xs), ys)
    decreases |xs|
  {
    if xs == [] {
      assert xs + ys == ys;
    } else {
      assert (xs + ys)[0] == xs[0] && (xs + ys)[1..] == xs[1..] + ys;
      ApplyAllAppend(ApplyAttribute(t, xs[0]), xs[1..], ys);
    }
  }

  /** The flags among the first `k` in code order. */
  function FlagsUpTo(flags: set<Flag>, k: nat): set<Flag> {
    set f | f in flags && Renderer.FlagCode(f) <= k
  }

  /** Replaying the flag attributes the renderer writes, from no flags, switches on exactly those flags. */
  lemma {:induction false} ReplayFlags(t: Attributes, flags: set<Flag>, k: nat)
    requires k <= 9 && t.flags == {} && !(BlinkSlow in flags && BlinkFast in flags)
    ensures ApplyAll(t, Renderer.FlagAttrsUpTo(flags, k)) == t.(flags := FlagsUpTo(flags, k))
  {
    if k == 0 {
      assert FlagsUpTo(flags, 0) == {};
    } else {
      ReplayFlags(t, flags, k - 1);
      var f := Renderer.FlagOrder[k - 1];
      var tail := if f in flags then [Renderer.SetFlag(f)] else [];
      ApplyAllAppend(t, Renderer.FlagAttrsUpTo(flags, k - 1), tail);
      ReplayFlagStep(t.(flags := FlagsUpTo(flags, k - 1)), flags, k);
    }
  }

  /** Replaying the attribute, if any, that the renderer writes for the `k`-th flag. */
  lemma ReplayFlagStep(before: Attributes, flags: set<Flag>, k: nat)
    requires 1 <= k <= 9 && !(BlinkSlow in flags && BlinkFast in flags)
    requires before.flags == FlagsUpTo(flags, k - 1)
    ensures var f := Renderer.FlagOrder[k - 1];
      ApplyAll(before, if f in flags then [Renderer.SetFlag(f)] else []) == before.(flags := FlagsUpTo(flags, k))
  {
    var f := Renderer.FlagOrder[k - 1];
    assert Renderer.FlagCode(f) == k;
    if f in flags {
      ReplayOneFlag(before, flags, k);
      ApplyOne(before, Renderer.SetFlag(f));
    } else {
      assert FlagsUpTo(flags, k) == FlagsUpTo(flags, k - 1);
    }
  }

  lemma ApplyOne(t: Attributes, a: Sgr.Attribute)
    ensures ApplyAll(t, [a]) == ApplyAttribute(t, a)
  {
    assert [a][1..] == [];
  }

  /** One step of `ReplayFlags`: setting the k-th flag adds exactly that flag. */
  lemma ReplayOneFlag(before: Attributes, flags: set<Flag>, k: nat)
    requires 1 <= k <= 9 && !(BlinkSlow in flags && BlinkFast in flags)
    requires Renderer.FlagOrder[k - 1] in flags && before.flags == FlagsUpTo(flags, k - 1)
    ensures ApplyAttribute(before, Renderer.SetFlag(Renderer.FlagOrder[k - 1])) == before.(flags := FlagsUpTo(flags, k))
  {
    var f := Renderer.FlagOrder[k - 1];
    assert Renderer.FlagCode(f) == k;
    var a := Renderer.SetFlag(f);
    assert Sets(a) && FlagOf(a) == f;
    var r := ApplyAttribute(before, a);
    forall g
      ensures g in r.flags <==> g in FlagsUpTo(flags, k)
    {
      if g in Named(a) {
        assert g in r.flags <==> g == f;
      } else {
        assert g in r.flags <==> g in before.flags;
      }
    }
    assert r.flags == FlagsUpTo(flags, k);
  }

  /**
   * Rendering a template to SGR text, decoding it and applying the attributes
   * from any template rebuilds the rendered template: the same flags (when
   * at most one blink rate is on) and the same colours, but for a special
   * colour in the wrong slot, which comes back black.
   */
  lemma RenderReplay(t: Attributes, a: Attributes)
    requires BlinkExclusive(a)
    ensures ApplyAll(t, Sgr.AttributesFrom(Renderer.RenderParams(a), 0)) ==
      Attributes(a.flags, Renderer.RenderedFg(a.fg), Renderer.RenderedBg(a.bg))
  {
    Renderer.RenderDecodes(a);
    var flagAttrs := Renderer.FlagAttrsUpTo(a.flags, 9);
    var colours := [Sgr.Foreground(Renderer.RenderedFg(a.fg)), Sgr.Background(Renderer.RenderedBg(a.bg))];
    ApplyAllAppend(t, [Sgr.Reset] + flagAttrs, colours);
    ReplayHead(t, a.flags);
    ReplayColours(DefaultAttributes.(flags := a.flags), Renderer.RenderedFg(a.fg), Renderer.RenderedBg(a.bg));
  }

  /** The reset and the flag attributes, from any template, give the default template with exactly those flags. */
  lemma ReplayHead(t: Attributes, flags: set<Flag>)
    requires !(BlinkSlow in flags && BlinkFast in flags)
    ensures ApplyAll(t, [Sgr.Reset] + Renderer.FlagAttrsUpTo(flags, 9)) == DefaultAttributes.(flags := flags)
  {
    ApplyAllAppend(t, [Sgr.Reset], Renderer.FlagAttrsUpTo(flags, 9));
    ApplyOne(t, Sgr.Reset);
    ReplayFlags(DefaultAttributes, flags, 9);
    assert FlagsUpTo(flags, 9) == flags;
  }

  /** A foreground and then a background attribute set the two colours and nothing else. */
  lemma ReplayColours(t: Attributes, fg: Colors.Color, bg: Colors.Color)
    ensures ApplyAll(t, [Sgr.Foreground(fg), Sgr.Background(bg)]) == t.(fg := fg, bg := bg)
  {
    var colours := [Sgr.Foreground(fg), Sgr.Background(bg)];
    assert colours[1..] == [Sgr.Background(bg)];
    ApplyOne(ApplyAttribute(t, Sgr.Foreground(fg)), Sgr.Background(bg));
  }

  class Screen {
    const grid: Grid
    var size: Point
    var cursor: Point
    var template: Attributes
    const charsets: CharsetList
    var active: CharsetIndex

    ghost predicate Valid()
      reads this, grid, charsets
    {
      grid.Valid() && charsets.Valid()
    }

    /** `Screen::new`: a blank grid of that size, the cursor home, the default template, all slots ASCII, G0 active. */
    constructor (size: Point)
      ensures Valid() && fresh(grid) && fresh(charsets) && fresh(charsets.slots)
      ensures this.size == size && grid.size == size
      ensures |grid.data| == size.y && forall y :: 0 <= y < size.y ==> grid.data[y] == NewLine(size.x)
      ensures cursor == Default() && template == DefaultAttributes && active == DefaultIndex
      ensures forall i :: charsets.Get(i) == DefaultCharset
    {
      this.size := size;
      grid := new Grid(size);
      cursor := Default();
      template := DefaultAttributes;
      charsets := new CharsetList();
      active := DefaultIndex;
    }

    /** `cursor_next`: one cell on in reading order, to the next row's start at the width. */
    method CursorNext()
      modifies this
      ensures cursor == Succ(old(cursor), size.x)
      ensures size == old(size) && template == old(template) && active == old(active)
    {
      cursor := cursor.(x := cursor.x + 1);
      if cursor.x >= size.x {
        cursor := cursor.(x := 0, y := cursor.y + 1);
      }
    }

    /** `cursor_prev`, staying put at the origin. */
    method CursorPrev()
      modifies this
      ensures cursor == Prev(old(cursor), size.x)
      ensures size == old(size) && template == old(template) && active == old(active)
    {
      if cursor.x == 0 {
        if size.x > 0 && cursor.y > 0 {
          cursor := Point(cursor.y - 1, size.x - 1);
        }
      } else {
        cursor := cursor.(x := cursor.x - 1);
      }
    }

    /**
     * `put_char`: the character mapped through the active set is drawn with
     * the template in the cell under the cursor, if there is one; no other
     * cell changes; the cursor moves on.
     */
    method PutChar(ch: char)
      requires Valid()
      modifies this, grid
      ensures Valid()
      ensures grid.CellAt(old(cursor)) ==
        if old(grid.CellAt(cursor)).Some? then Some(Cell(Some(Map(charsets.Get(active), ch)), template)) else None
      ensures forall q :: q != old(cursor) ==> grid.CellAt(q) == old(grid.CellAt(q))
      ensures cursor == Succ(old(cursor), size.x)
      ensures size == old(size) && template == old(template) && active == old(active)
      ensures grid.tabstops == old(grid.tabstops)
    {
      var mapped := Map(charsets.Get(active), ch);
      var written := grid.SetCell(cursor, Cell(Some(mapped), template));
      CursorNext();
    }

    /** `put_backspace(count)`: `count` times, clear the character under the cursor and step back. */
    method PutBackspace(count: nat)
      requires Valid()
      modifies this, grid
      ensures Valid()
      ensures (grid.data, cursor) == Backspace(old(grid.data), old(cursor), size.x, count)
      ensures size == old(size) && template == old(template) && active == old(active)
      ensures grid.tabstops == old(grid.tabstops)
    {
      ghost var goal := Backspace(grid.data, cursor, size.x, count);
      var i := 0;
      while i < count
        invariant i <= count && Valid()
        invariant Backspace(grid.data, cursor, size.x, count - i) == goal
        invariant size == old(size) && template == old(template) && active == old(active)
        invariant grid.tabstops == old(grid.tabstops)
      {
        ghost var data0, cursor0 := grid.data, cursor;
        BackspaceStep(data0, cursor0, size.x, count - i);
        ClearUnderCursor();
        CursorPrev();
        assert (grid.data, cursor) == (ClearCh(data0, cursor0), Prev(cursor0, size.x));
        i := i + 1;
      }
    }

    /** One turn of `put_backspace`: the character under the cursor is removed. */
    method ClearUnderCursor()
      requires Valid()
      modifies grid
      ensures Valid()
      ensures grid.data == ClearCh(old(grid.data), cursor) && grid.tabstops == old(grid.tabstops)
    {
      var cell := grid.CellAt(cursor);
      if cell.Some? {
        var written := grid.SetCell(cursor, cell.value.(ch := None));
      }
    }

    /** `put_lf`: the start of the next row. */
    method PutLf()
      modifies this
      ensures cursor == Point(old(cursor).y + 1, 0)
      ensures size == old(size) && template == old(template) && active == old(active)
    {
      cursor := cursor.(x := 0);
      cursor := cursor.(y := cursor.y + 1);
    }

    /** `put_cr`: the start of the same row. */
    method PutCr()
      modifies this
      ensures cursor == Point(old(cursor).y, 0)
      ensures size == old(size) && template == old(template) && active == old(active)
    {
      cursor := cursor.(x := 0);
    }

    /** `move_up(count)`: `count` rows up, stopping at row 0; the column stays. */
    method MoveUp(count: nat)
      modifies this
      ensures cursor.x == old(cursor).x
      ensures count <= old(cursor).y ==> cursor.y == old(cursor).y - count
      ensures count > old(cursor).y ==> cursor.y == 0
      ensures size == old(size) && template == old(template) && active == old(active)
    {
      if count > cursor.y {
        cursor := cursor.(y := 0);
      } else {
        cursor := cursor.(y := cursor.y - count);
      }
    }

    /** `move_down(count)`: `count` rows down, stopping at the last row; the column stays. */
    method MoveDown(count: nat)
      requires size.y > 0
      modifies this
      ensures cursor.x == old(cursor).x
      ensures cursor.y < size.y
      ensures old(cursor).y + count < size.y ==> cursor.y == old(cursor).y + count
      ensures old(cursor).y + count >= size.y ==> cursor.y == size.y - 1
      ensures size == old(size) && template == old(template) && active == old(active)
    {
      cursor := cursor.(y := Min(cursor.y + count, size.y - 1));
    }

    /** `move_forward(count)`: `count` columns right, stopping at the last column; the row stays. */
    method MoveForward(count: nat)
      requires size.x > 0
      modifies this
      ensures cursor.y == old(cursor).y
      ensures cursor.x < size.x
      ensures old(cursor).x + count < size.x ==> cursor.x == old(cursor).x + count
      ensures old(cursor).x + count >= size.x ==> cursor.x == size.x - 1
      ensures size == old(size) && template == old(template) && active == old(active)
    {
      cursor := cursor.(x := Min(cursor.x + count, size.x - 1));
    }

    /** `move_backward(count)` as written: the width shrinks by `count`, stopping at 0, and the cursor stays. */
    method MoveBackward(count: nat)
      modifies this
      ensures cursor == old(cursor)
      ensures size.y == old(size).y
      ensures count <= old(size).x ==> size.x == old(size).x - count
      ensures count > old(size).x ==> size.x == 0
      ensures template == old(template) && active == old(active)
    {
      if count > size.x {
        size := size.(x := 0);
      } else {
        size := size.(x := size.x - count);
      }
    }

    /** `goto_column`: only the column changes. */
    method GotoColumn(column: nat)
      modifies this
      ensures cursor == old(cursor).(x := column)
      ensures size == old(size) && template == old(template) && active == old(active)
    {
      cursor := cursor.(x := column);
    }

    /** `goto_line`: only the row changes. */
    method GotoLine(line: nat)
      modifies this
      ensures cursor == old(cursor).(y := line)
      ensures size == old(size) && template == old(template) && active == old(active)
    {
      cursor := cursor.(y := line);
    }

    /** `goto(line, column)`. */
    method Goto(line: nat, column: nat)
      modifies this
      ensures cursor == P(column, line)
      ensures size == old(size) && template == old(template) && active == old(active)
    {
      cursor := cursor.(x := column);
      cursor := cursor.(y := line);
    }

    /** `set_active_charset`: only the active slot changes. */
    method SetActiveCharset(index: CharsetIndex)
      modifies this
      ensures active == index
      ensures cursor == old(cursor) && size == old(size) && template == old(template)
    {
      active := index;
    }

    /** `configure_charset`: only that slot changes. */
    method ConfigureCharset(index: CharsetIndex, charset: StandardCharset)
      requires Valid()
      modifies charsets.slots
      ensures Valid()
      ensures charsets.Get(index) == charset
      ensures forall j :: j != index ==> charsets.Get(j) == old(charsets.Get(j))
    {
      charsets.Set(index, charset);
    }

    /**
     * `sgr_attribute` as written: the template changes as
     * `ApplyAttributeAsWritten` says, which for every attribute but SGR 22 is
     * the intended `ApplyAttribute`; nothing else changes.
     */
    method SgrAttribute(attr: Sgr.Attribute)
      modifies this
      ensures template == ApplyAttributeAsWritten(old(template), attr)
      ensures attr != Sgr.CancelBoldDim ==> template == ApplyAttribute(old(template), attr)
      ensures cursor == old(cursor) && size == old(size) && active == old(active)
    {
      match attr {
        case Reset => template := DefaultAttributes;
        case Bold => template := template.(flags := template.flags + {Bold});
        case Dim => template := template.(flags := template.flags + {Dim});
        case Italic => template := template.(flags := template.flags + {Italic});
        case Underline => template := template.(flags := template.flags + {Underline});
        case BlinkSlow =>
          template := template.(flags := template.flags + {BlinkSlow});
          template := template.(flags := template.flags - {BlinkFast});
        case BlinkFast =>
          template := template.(flags := template.flags + {BlinkFast});
          template := template.(flags := template.flags - {BlinkSlow});
        case Reverse => template := template.(flags := template.flags + {Inverse});
        case Hidden => template := template.(flags := template.flags + {Hidden});
        case Strike => template := template.(flags := template.flags + {Strikeout});
        case CancelBold => template := template.(flags := template.flags - {Bold});
        case CancelBoldDim => template := template.(flags := template.flags - {Dim});
        case CancelItalic => template := template.(flags := template.flags - {Italic});
        case CancelUnderline => template := template.(flags := template.flags - {Underline});
        case CancelBlink => template := template.(flags := template.flags - {BlinkSlow, BlinkFast});
        case CancelReverse => template := template.(flags := template.flags - {Inverse});
        case CancelHidden => template := template.(flags := template.flags - {Hidden});
        case CancelStrike => template := template.(flags := template.flags - {Strikeout});
        case Foreground(color) => template := template.(fg := color);
        case Background(color) => template := template.(bg := color);
      }
    }
  }

  function Min(a: nat, b: nat): nat {
    if a < b then a else b
  }
}
