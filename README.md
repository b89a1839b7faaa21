# terman core in Dafny

This is a model of the sequential core of terman, a small terminal emulator written in Rust, plus its Python ESC visualiser. The core is the layer that turns escape sequences into screen state and back again. Nothing here performs I/O.

- **Geometry** (`point.dfy`, `grid.dfy`, `grid_iter.dfy`)
  - Grid points are ordered row first, then column.
  - The grid is a vector of lines of cells, with bounded lookup and single-cell update.
  - The linewise generator walks a selection in reading order, wrapping at the grid width.
  - The blockwise generator walks a rectangle row by row.
  - `GridIterator` pairs each generated point with its cell.
- **Escape-sequence vocabulary**
  - `sgr.dfy`: SGR parameter decoding, section 8.3.117 of ECMA-48, including the `38/48;2;r;g;b` and `38/48;5;n` colours.
  - `color.dfy`: colour names and colour specs (`rgb:rr/gg/bb`, `#rrggbb`, `#gg`, `0x..`, a decimal index), both parsed and printed. `radix.dfy` holds Rust's `from_str_radix` and the decimal and hex printers these rely on.
  - `charset.dfy`: the DEC special graphics table and the four designation slots.
  - `ansi.dfy`: the C0 constants and the cursor-style, clipboard and terminal-mode tables.
  - `renderer.dfy`: rendering a cell's attributes back to one SGR sequence.
- **Screen** (`screen.dfy`)
  - A class holding the cursor, the cell template, the charset slots and the grid.
  - Its handler methods move the cursor, write and clear cells, and apply SGR attributes to the template.
- **Dispatcher** (`processor.dfy`)
  - The `vte::Perform` callbacks `print`, `execute`, `esc_dispatch` and `csi_dispatch`.
  - The handler is recorded as a trace of calls, and the writer as the text written back.
  - The handler's `cursor()` and `size()` queries are parameters.
- **Visualiser** (`flatten.dfy`): the nested loop of flatten.py, proved against a recursive definition.

Stateful code is modelled as classes with loops and frames: the grid, the charset list, the generators, the screen and the performer. Tables, parsers and printers are functions. Three behaviours follow the code as written, not what the names suggest:

- `ESC ( 0` designates ASCII and `ESC ( B` the special graphics set.
- `move_backward` shrinks the screen width instead of moving the cursor.
- SGR 22 clears only faint and leaves bold set (see Findings for the corrected rule).

## Model

| member | source | states |
|---|---|---|
| Points.New | src/util/point.rs:17-19 | the first argument is the column, the second the row |
| Points.FromPair | src/util/point.rs:24-26 | a pair (a, b) gives column a, row b |
| Points.P | src/util/point.rs:31-33 | `P(x, y)` is `Point::new(x, y)` and the pair conversion of (x, y) |
| Points.Default | src/util/point.rs:3 | the default point is the origin |
| Points.OrderIsStrictTotal | src/util/point.rs:3-13 | the derived order (row, then column) is irreflexive, transitive and total, and `>=` is its complement |
| Points.Succ | src/grid/iter.rs:59-64 | the one-step advance moves strictly forward, and within the width it is the next row-major position |
| Points.LinearOrder | src/grid/mod.rs:40-42 | within the width, the row-major offset is injective and agrees with the point order |
| Points.SuccIsNext | src/grid/iter.rs:38-46 | no in-width point lies strictly between a point and its successor |
| Grids.NewLine | src/grid/line.rs:10-14 | a new line has `width` cells, each the default (no character, default rendition) |
| Grids.Store | src/grid/mod.rs:48-50 | writing through `cell_mut` sets that cell if it exists and changes no other cell |
| Grids.Grid.constructor | src/grid/mod.rs:26-34 | `size.y` blank lines of `size.x` cells and `size.x` tab stops, all unset |
| Grids.Grid.AddLine | src/grid/mod.rs:36-38 | one blank line is appended and the earlier lines are unchanged |
| Grids.Grid.PointToIndex | src/grid/mod.rs:40-42 | an in-width offset divides back into its row and column |
| Grids.Grid.CellAt | src/grid/mod.rs:44-46 | a cell is found exactly when the row exists and is long enough, and it is that cell |
| Grids.Grid.SetCell | src/grid/mod.rs:48-50 | the cell under `p` becomes `c` if it exists, every other cell keeps its value, and the tab stops are unchanged |
| Grids.PointToIndexOrder | src/grid/mod.rs:40-42 | on in-width points, `point_to_index` is one-to-one and follows the point order |
| GridIter.StartPoint | src/grid/iter.rs:31-34 | an inclusive start is kept; any other start is the origin, the least point |
| GridIter.LinewiseNormalize | src/grid/iter.rs:29-49 | an excluded end is kept; an unbounded end stops after the last row; an inclusive end stops just after that point, or at the start of the next row when it lies beyond the width |
| GridIter.InclusiveEnd | src/grid/iter.rs:38-46 | within the width, the points before the successor of p are exactly those up to p |
| GridIter.BlockwiseNormalize | src/grid/iter.rs:85-96 | an unbounded end covers the grid; an inclusive end covers its own column and row |
| GridIter.LinesRange | src/grid/iter.rs:135-149 | `lines` bounds become whole rows, from the start row (0 by default) to the end row, exclusive; an inclusive end adds one row and an unbounded end uses the height |
| GridIter.LinewiseSorted | src/grid/iter.rs:55-66 | the linewise points start at the cursor, increase strictly and stay below the end |
| GridIter.LinewiseIndexed | src/grid/iter.rs:55-66 | within the width, the k-th linewise point lies k cells after the start in row-major order |
| GridIter.LinewiseCount | src/grid/iter.rs:55-66 | with both ends in width, the count is the difference of the row-major offsets, or 0 |
| GridIter.LinewiseCovers | src/grid/iter.rs:55-66 | with both ends in width, exactly the in-width points in [start, end) are yielded |
| GridIter.LinesCover | src/grid/iter.rs:135-154 | `lines` visits exactly the cells of the rows in its range |
| GridIter.LinesCount | src/grid/iter.rs:135-154 | `lines` yields the width times the number of rows |
| GridIter.BlockwiseFrom | src/grid/iter.rs:102-113 | from inside the columns, the blockwise generator yields exactly the rest of the rectangle, in increasing order |
| GridIter.BlockwiseRectangle | src/grid/iter.rs:102-113 | from its start, it yields exactly the rectangle [start.x, end.x) x [start.y, end.y), in reading order |
| GridIter.BlockwiseCountFrom | src/grid/iter.rs:102-113 | from a position inside, it yields the rest of this row and then whole rows |
| GridIter.BlockwiseCount | src/grid/iter.rs:102-113 | it yields width times height points, or none when a span is empty |
| GridIter.LinewisePointGenerator.constructor | src/grid/iter.rs:19-27 | the range is normalised and the cursor starts at its start |
| GridIter.LinewisePointGenerator.Next | src/grid/iter.rs:55-66 | yields the next point of the reading-order sequence; once exhausted, it returns None and keeps its state |
| GridIter.BlockwisePointGenerator.constructor | src/grid/iter.rs:75-83 | the range is normalised and the cursor starts at its start |
| GridIter.BlockwisePointGenerator.Next | src/grid/iter.rs:102-113 | yields the next point of the rectangle; once exhausted, it returns None and keeps its state |
| GridIter.GridIterator.Selection | src/grid/iter.rs:124-133 | the points to come are the linewise points of the normalised range |
| GridIter.GridIterator.Lines | src/grid/iter.rs:135-154 | the points to come are the linewise points of the row range |
| GridIter.GridIterator.Block | src/grid/iter.rs:158-164 | the points to come are the blockwise points of the normalised range |
| GridIter.GridIterator.Next | src/grid/iter.rs:173-177 | consumes one point and returns it with its cell, or None when the generator is done or the point is outside the grid |
| GridIter.LinewiseExample | src/grid/iter.rs:256-268 | `P(3,2)..P(1,4)` on 5x5 keeps its range and yields the eight points of the test |
| GridIter.LinewiseInclusiveExample | src/grid/iter.rs:270-328 | the inclusive, to-inclusive and from ranges normalise to the ends the tests expect |
| GridIter.BlockwiseExample | src/grid/iter.rs:347-359 | `P(1,1)..P(4,3)` yields columns 1-3 of rows 1 and 2 |
| GridIter.BlockwiseBoundsExample | src/grid/iter.rs:361-419 | the inclusive, to-inclusive and from block ranges normalise to the ends the tests expect |
| Sgr.NextParam | src/ansi/sgr.rs:28-30 | the iterator yields the parameter at the position and advances by one, or yields None at the end without moving |
| Sgr.ParseColor | src/ansi/sgr.rs:27-60 | after the mode, mode 2 takes up to three more parameters and mode 5 up to one, whether or not they are in range; any other mode takes none. A colour comes back exactly when mode 2 has three components in 0..255 or mode 5 an index in 0..255, and it is made of those values |
| Sgr.CodeAttribute | src/ansi/sgr.rs:65-133 | exactly the listed codes decode; 30-37/40-47 give palette 0-7, 90-97/100-107 give 8-15, 39/49 give the defaults, 0 gives Reset |
| Sgr.Step | src/ansi/sgr.rs:64-133 | at least one parameter is consumed; a code other than 38/48 decodes on its own; 38 and 48 give the foreground or background of the colour `ParseColor` reads after them, or nothing, and end where that colour ends |
| Sgr.AttributesFrom | src/ansi/sgr.rs:62-139 | at most one attribute per parameter |
| Sgr.ParseAttributes | src/ansi/sgr.rs:62-139 | the `while let` loop computes the decoded attribute list, no longer than the input |
| Sgr.ReadAttribute | src/ansi/sgr.rs:65-133 | one loop iteration: the attribute, if any, and the next position |
| Sgr.AttributesOfSimpleCodes | src/ansi/sgr.rs:64-136 | without 38 and 48, each parameter decodes on its own, in order, and unlisted codes vanish |
| Sgr.AttributesAppend | src/ansi/sgr.rs:62-139 | decoding distributes over concatenation at a group boundary |
| Sgr.SuffixShift | src/ansi/sgr.rs:62-139 | decoding does not depend on what precedes the current position |
| Sgr.ParseAttributesExample | src/ansi/sgr.rs:146-159 | the test's thirteen parameters decode to the seven attributes the test lists |
| Colors.NamedColor | src/ansi/color.rs:40-60 | the name table yields only named colours, and only for names that start with a lower-case letter |
| Colors.ColorName | src/ansi/color.rs:75-94 | exactly the named colours (palette 0-15 and the three specials) have a printed name |
| Colors.NameTablesAgree | src/ansi/color.rs:40-94 | each printed name parses back to its colour, and each parsed name prints as itself |
| Colors.Normalize | src/ansi/color.rs:40 | each character is case-folded, with `_` read as `-`, and the length is kept |
| Colors.SameNormalForm | src/ansi/color.rs:40 | texts with the same normal form (case, and `_` against `-`) parse to the same result |
| Colors.Split | src/ansi/color.rs:117 | the pieces contain no separator and join back to the input |
| Colors.HexRgb | src/ansi/color.rs:126-141 | only 2 or 6 hex digits parse; two digits give a grey |
| Colors.HexRgbGrey | src/ansi/color.rs:126-131 | two characters are accepted exactly when they are a hex `u8` n, and give the grey (n, n, n) |
| Colors.RgbFromStr | src/ansi/color.rs:111-146 | only the `rgb:`, `#` and `0x` forms parse |
| Colors.FromStr | src/ansi/color.rs:39-70 | a colour name wins over every other reading; an RGB result is the RGB parse of the normalised text, and a non-named index is its decimal parse; the result is an error exactly when the text is no name, no RGB spec and no decimal `u8` |
| Colors.FromStrReadings | src/ansi/color.rs:39-70 | a special colour comes only from its name; text that is no name but an RGB spec gives that RGB colour; text that is neither but a decimal `u8` gives that palette index |
| Colors.IndexBelowSixteen | src/ansi/color.rs:61-69 | `5` is no colour name, yet it parses to index 5, which is a named colour |
| Colors.XtermFieldOverflow | src/ansi/color.rs:112-120 | `rgb:100/0/0` is rejected, because the field 0x100 overflows a `u8` |
| Colors.RgbToStr | src/ansi/color.rs:149-153 | `#` and then 3 to 6 hex digits |
| Colors.ToStr | src/ansi/color.rs:73-99 | the printed text is never empty |
| Colors.RgbFromStrHash | src/ansi/color.rs:122-125 | text starting with `#` is read as the hex body after it |
| Colors.RgbFromStrZeroX | src/ansi/color.rs:121-125 | text starting with `0x` is read as the hex body after it |
| Colors.ToStrFromStr | src/ansi/color.rs:73-99 | printing then parsing gives the colour back exactly when it is not an RGB colour with a component below 0x10 |
| Colors.NamedRoundTrip | src/ansi/color.rs:75-94 | every named colour round-trips through its name |
| Colors.NamesAreLowerCase | src/ansi/color.rs:75-94 | printed names are already in normal form |
| Colors.DecimalRoundTrip | src/ansi/color.rs:96 | every palette index round-trips through its decimal text |
| Colors.RgbRoundTrip | src/ansi/color.rs:151 | an RGB colour round-trips exactly when no component is below 0x10 |
| Colors.HexRgbSix | src/ansi/color.rs:132-137 | a six-digit value unpacks into its red, green and blue bytes |
| Colors.UnpackRgb | src/ansi/color.rs:134-136 | the shifts and masks recover the three bytes |
| Colors.Hex2 | src/ansi/color.rs:151 | two lower-case hex digits worth the byte |
| Colors.RgbToStrPadded | src/ansi/color.rs:151 | `#` and exactly six hex digits |
| Colors.RgbPaddedRoundTrip | src/ansi/color.rs:151 | with zero padding, every RGB colour round-trips |
| Colors.ExampleName | src/ansi/color.rs:168-171 | `bright-yellow` (and `Bright_Yellow`) parse to BrightYellow |
| Colors.ExampleGrey | src/ansi/color.rs:173-176 | `#F0` parses to the grey F0 |
| Colors.ExampleHex | src/ansi/color.rs:178-181 | `#F0F1F2` parses to (F0, F1, F2) |
| Colors.ExampleXterm | src/ansi/color.rs:183-186 | `rgb:00/88/ff` parses to (00, 88, FF) |
| Colors.ExampleIndex | src/ansi/color.rs:188 | `23` parses to palette index 23 |
| Radix.FromStrRadix | src/ansi/color.rs:128 | a result is in range, and the text is an optional `+` followed by at least one digit |
| Radix.FromStrRadixDigits | src/ansi/color.rs:128 | a non-empty digit string whose value is in range parses to that value |
| Radix.FromStrRadixSpec | src/ansi/color.rs:128 | the text is accepted exactly when the part after an optional `+` is a non-empty digit string whose value fits, and the result is that value |
| Radix.FromStrRadixOverflow | src/ansi/color.rs:128 | a well-formed number above the maximum, with or without `+`, is an error |
| Radix.ToStrRadix | src/ansi/color.rs:151 | non-empty lower-case digits without a leading zero, worth exactly n |
| Radix.Decimal | src/ansi/color.rs:96 | the decimal text is never empty |
| Radix.RoundTrip | src/ansi/color.rs:96 | printing a number in any radix and parsing it back gives the number |
| Radix.HexByteLength | src/ansi/color.rs:151 | `{:x}` of a byte has one digit below 0x10 and two otherwise |
| Radix.DigitsValueAppend | src/ansi/color.rs:133 | the value of concatenated digits is the left value shifted by the right length, plus the right value |
| Charsets.Slot | src/ansi/charset.rs:84-86 | each designation indexes one of the four array slots |
| Charsets.SlotBijective | src/ansi/charset.rs:84-92 | distinct designations use distinct slots, and every slot has a designation |
| Charsets.SpecialGraphic | src/ansi/charset.rs:40-73 | exactly '`'..'~' are redrawn, and never into that range |
| Charsets.Map | src/ansi/charset.rs:37-75 | ASCII is the identity; the special set changes exactly '`'..'~' |
| Charsets.MapIdempotent | src/ansi/charset.rs:41-71 | mapping twice is mapping once |
| Charsets.MapExamples | src/ansi/charset.rs:39-58 | `l`, `q` and `k` draw the top edge of a box; other characters pass through |
| Charsets.CharsetList.constructor | src/ansi/charset.rs:78-79 | all four slots start ASCII |
| Charsets.CharsetList.Set | src/ansi/charset.rs:89-93 | slot i takes the new set and every other slot keeps its own |
| Ansi.C0Table | src/ansi/mod.rs:32-99 | the C0 constants are 0x00-0x1F in table order, and DEL is 0x7F |
| Ansi.CursorStyleFrom | src/ansi/mod.rs:119-130 | exactly 0..6 decode |
| Ansi.CursorStyleCode | src/ansi/mod.rs:132-142 | every style's code is in 0..6 and decodes back to it |
| Ansi.CursorStyleRoundTrip | src/ansi/mod.rs:119-142 | every accepted number is the code of its style |
| Ansi.ToBlinking | src/ansi/mod.rs:144-151 | keeps the shape, is never static, and changes only static styles |
| Ansi.ToStatic | src/ansi/mod.rs:153-160 | keeps the shape, is never blinking, and changes only blinking styles |
| Ansi.BlinkingLaws | src/ansi/mod.rs:144-160 | both conversions are idempotent, each absorbs the other, and both fix Default |
| Ansi.ClipboardFrom | src/ansi/mod.rs:185-200 | exactly the bytes of "cps01234567" decode |
| Ansi.ClipboardCode | src/ansi/mod.rs:202-216 | every selection's byte is one of those letters and decodes back to it |
| Ansi.ClipboardRoundTrip | src/ansi/mod.rs:185-216 | every accepted byte is the code of its selection |
| Ansi.TerminalModeFrom | src/ansi/mod.rs:241-270 | an intermediate other than `?` gives nothing; ANSI modes need no intermediate and private modes need `?` |
| Ansi.TerminalModeExact | src/ansi/mod.rs:241-270 | a mode decodes from exactly its own number with its own kind of intermediate |
| Renderer.FlagCode | src/ansi/renderer.rs:18-45 | each flag's code is its 1-based place in the write order |
| Renderer.FlagCodesUpToSpec | src/ansi/renderer.rs:18-45 | among the first k flags, the set ones are written, each once, in increasing order |
| Renderer.FlagCodesSpec | src/ansi/renderer.rs:18-45 | the flag codes are exactly the set flags, strictly increasing, all in 1..9 |
| Renderer.FgCodes | src/ansi/renderer.rs:47-64 | one foreground group of 1, 3 or 5 codes, led by a code in 30..39 |
| Renderer.BgCodes | src/ansi/renderer.rs:66-83 | one background group of 1, 3 or 5 codes, led by a code in 40..49 |
| Renderer.RenderAttributes | src/ansi/renderer.rs:14-88 | the output is `ESC [`, the parameters 0, flags, foreground and background joined by `;`, and then `m` |
| Renderer.WriteFlags | src/ansi/renderer.rs:18-45 | the nine flag tests append exactly the flag codes |
| Renderer.WriteFlag | src/ansi/renderer.rs:19-21 | one test appends `;k` exactly when the k-th flag is set |
| Renderer.WriteForeground | src/ansi/renderer.rs:47-64 | appends exactly the foreground group |
| Renderer.WriteBackground | src/ansi/renderer.rs:66-83 | appends exactly the background group |
| Renderer.SetFlag | src/ansi/sgr.rs:67-75 | the SGR code of each flag decodes to the attribute that sets it |
| Renderer.FlagCodesDecode | src/ansi/renderer.rs:18-45 | the written flag codes decode to the attributes setting those flags, in order |
| Renderer.FgDecodes | src/ansi/renderer.rs:47-64 | the foreground group decodes to the foreground, except that a misplaced special colour falls back to black |
| Renderer.BgDecodes | src/ansi/renderer.rs:66-83 | the background group decodes to the background, with the same fallback |
| Renderer.RenderDecodes | src/ansi/renderer.rs:14-88 | the rendered parameters decode to Reset, the flag attributes, the foreground and the background |
| Screens.PrevAsWritten | src/screen/mod.rs:62-69 | as written: the `usize` subtraction fails exactly at column 0 of row 0, or at column 0 with width 0; otherwise the result is the earlier cell whose successor is the cursor |
| Screens.Prev | src/screen/mod.rs:62-69 | agrees with `cursor_prev` wherever the written code does not underflow, and stays put at the origin |
| Screens.BackspaceAtOrigin | src/screen/mod.rs:62-69 | from the origin, the written code underflows the row; the corrected step stays at the origin |
| Screens.PrevUndoesNext | src/screen/mod.rs:54-69 | within the width, stepping back undoes stepping forward |
| Screens.NextUndoesPrev | src/screen/mod.rs:54-69 | stepping forward undoes stepping back anywhere but the origin |
| Screens.Backspace | src/screen/mod.rs:96-102 | `count` backspaces never move the cursor forward |
| Screens.BackspaceKeepsCells | src/screen/mod.rs:96-102 | backspaces keep the number and lengths of the lines and every cell's rendition, and only remove characters |
| Screens.BackspaceInRow | src/screen/mod.rs:96-102 | n backspaces within a row clear the characters of the n cells ending at the cursor, keep their renditions, touch no other cell and end n columns left |
| Screens.ApplyAttributeAsWritten | src/screen/mod.rs:334-400 | as written: reset restores the default, a colour changes only its slot, a flag attribute changes only its own flags, setting one or clearing them, except that SGR 22 clears only DIM |
| Screens.CancelBoldDimKeepsBold | src/screen/mod.rs:372-374 | as written, SGR 22 leaves bold text bold |
| Screens.ApplyAttribute | src/screen/mod.rs:334-400 | Reset restores the default; a colour changes only its slot; each flag attribute changes only its own flags, setting one or clearing them; only SGR 22 differs from the code as written |
| Screens.BlinkExclusiveKept | src/screen/mod.rs:352-359 | no attribute turns both blink rates on |
| Screens.ReplayFlags | src/screen/mod.rs:340-368 | applying the rendered flag attributes to a flagless template turns on exactly those flags |
| Screens.RenderReplay | src/ansi/renderer.rs:14-88 | rendering a template, decoding it and applying the result to any template rebuilds the template, except that a misplaced special colour comes back black |
| Screens.Screen.constructor | src/screen/mod.rs:43-52 | a blank grid of the size, the cursor home, the default template, every slot ASCII and G0 active |
| Screens.Screen.CursorNext | src/screen/mod.rs:54-60 | the cursor advances one cell and wraps to the next row at the width |
| Screens.Screen.CursorPrev | src/screen/mod.rs:62-69 | the cursor steps back one cell, to the end of the previous row from column 0; where the source underflows (at the origin, or at column 0 with width 0) it stays put, as the corrected `Prev` of the Findings row does |
| Screens.Screen.PutChar | src/screen/mod.rs:85-94 | the mapped character is drawn with the template in the cell under the cursor, if it exists; no other cell changes; the cursor advances |
| Screens.Screen.PutBackspace | src/screen/mod.rs:96-102 | the loop clears and steps back `count` times, as `Backspace` says; each step back is the corrected `Prev` of the Findings row, so a backspace at the origin stays there instead of underflowing |
| Screens.Screen.PutLf | src/screen/mod.rs:108-112 | the start of the next row |
| Screens.Screen.PutCr | src/screen/mod.rs:114-117 | the start of the same row |
| Screens.Screen.MoveUp | src/screen/mod.rs:226-233 | up by count, saturating at row 0 |
| Screens.Screen.MoveDown | src/screen/mod.rs:235-241 | down by count, clamped to the last row |
| Screens.Screen.MoveForward | src/screen/mod.rs:243-249 | right by count, clamped to the last column |
| Screens.Screen.MoveBackward | src/screen/mod.rs:251-258 | as written, the width shrinks by count, saturating at 0, and the cursor stays |
| Screens.Screen.GotoColumn | src/screen/mod.rs:260-263 | only the column changes |
| Screens.Screen.GotoLine | src/screen/mod.rs:265-268 | only the row changes |
| Screens.Screen.Goto | src/screen/mod.rs:270-274 | the cursor becomes (line, column) |
| Screens.Screen.SetActiveCharset | src/screen/mod.rs:155-158 | only the active slot changes |
| Screens.Screen.ConfigureCharset | src/screen/mod.rs:160-163 | only that slot's set changes |
| Screens.Screen.SgrAttribute | src/screen/mod.rs:334-400 | as written: the template changes as `ApplyAttributeAsWritten` says, so SGR 22 removes only DIM; for every other attribute this is the intended `ApplyAttribute`; nothing else changes |
| Processor.ExecuteCalls | src/ansi/processor.rs:90-104 | at most one call, and none exactly for bytes outside the nine handled controls; BEL rings the bell, BS is one backspace, HT one tab, LF, VT and FF feed a line, CR returns the carriage; SI selects G0 and SO G1 |
| Processor.EscCalls | src/ansi/processor.rs:106-133 | at most two calls, and two only for `ESC E`; a call is issued exactly for `7 8 = > D E H M c` without intermediate, `(` or `)` with `0` or `B`, and `#` with `8` |
| Processor.DesignationAsWritten | src/ansi/processor.rs:109-123 | `( 0`/`) 0` configure ASCII and `( B`/`) B` the special set; `E` is LF then CR; `H` sets a tab stop at the cursor column |
| Processor.GetArg | src/ansi/processor.rs:376-382 | a present non-zero argument is used; an absent or zero one gives the default |
| Processor.ModeCalls | src/ansi/processor.rs:557-574 | at most one call per argument, and none with an intermediate other than `?` |
| Processor.ModeCallsKind | src/ansi/processor.rs:557-574 | every call sets (for `h`) or unsets (for `l`) a mode of the kind the intermediate selects |
| Processor.SgrCalls | src/ansi/processor.rs:581-583 | one `sgr_attribute` call per attribute, in order |
| Processor.CsiCalls | src/ansi/processor.rs:384-386 | an ignored sequence, or one with two or more intermediates, issues no call |
| Processor.FixedCalls | src/ansi/processor.rs:391-672 | only the listed finals without intermediate, and `SP q`, issue calls; at most two, and two only for `E` and `F`, ending with a carriage return; every listed final but `J`, `K`, `g` and `t` issues at least one |
| Processor.CsiUnlistedFinal | src/ansi/processor.rs:391-672 | a final that `csi_dispatch` does not list issues no call |
| Processor.CsiReply | src/ansi/processor.rs:515-617 | nothing is written for an ignored sequence, and only `c` and `n` write |
| Processor.Performer.constructor | src/ansi/processor.rs:57-61 | no preceding character, no calls, no output |
| Processor.Performer.Print | src/ansi/processor.rs:84-88 | one `put_char`, and the character is remembered |
| Processor.Performer.Execute | src/ansi/processor.rs:90-104 | appends the C0 control's calls |
| Processor.Performer.EscDispatch | src/ansi/processor.rs:106-133 | appends the ESC sequence's calls |
| Processor.Performer.Repeat | src/ansi/processor.rs:509-511 | the loop appends n `put_char` calls |
| Processor.Performer.Modes | src/ansi/processor.rs:558-563 | the loop appends the mode calls |
| Processor.Performer.Renditions | src/ansi/processor.rs:581-583 | the loop appends one `sgr_attribute` call per decoded attribute |
| Processor.Performer.CsiDispatch | src/ansi/processor.rs:356-674 | appends exactly the sequence's calls and writes exactly its reply; the remembered character is unchanged |
| Processor.RepeatCharacter | src/ansi/processor.rs:506-513 | `CSI b` repeats the last printed character n times (default 1), and does nothing before any character |
| Processor.CursorPositioning | src/ansi/processor.rs:429-538 | `H`, `G` and `d` pass 1-based arguments minus one; absent or zero means 1; `f` acts as `H` and `` ` `` as `G` |
| Processor.ClearModes | src/ansi/processor.rs:442-469 | `J` accepts 0..3 and `K` 0..2; other values issue nothing |
| Processor.SelectGraphicRendition | src/ansi/processor.rs:576-585 | `CSI m` without arguments is one Reset; otherwise it issues the decoded attributes, in order |
| Processor.SetResetMode | src/ansi/processor.rs:556-564 | `CSI h` issues at most one call per argument, none with a non-`?` intermediate, and only ANSI modes without one |
| Processor.Replies | src/ansi/processor.rs:515-617 | the primary and secondary device attributes, the OK status and the cursor report |
| Processor.CursorReportReadsBack | src/ansi/processor.rs:610-614 | the cursor report's two fields read back as the row and the column |
| Flatten.Piece | flatten.py:7-10 | ESC becomes `{ESC}`, and every other character is itself |
| Flatten.FlattenLines | flatten.py:5-10 | the nested loops write the whole input flattened |
| Flatten.FlattenedAppend | flatten.py:5-6 | flattening distributes over concatenation |
| Flatten.LineSplitIrrelevant | flatten.py:5-6 | flattening the joined lines is joining the flattened lines |
| Flatten.NoEscUnchanged | flatten.py:5-10 | input without ESC, the empty input included, is copied unchanged |
| Flatten.FlattenedLength | flatten.py:7-10 | the output is four characters longer per ESC |
| Flatten.NoEscLeft | flatten.py:7-8 | the output contains no ESC |
| Flatten.Idempotent | flatten.py:7-8 | a second pass changes nothing |
| Flatten.Substitution | flatten.py:7-10 | an ESC anywhere shows up as `{ESC}` in the same place |

## Left out

- `osc_dispatch` (src/ansi/processor.rs:135-354) is left out. It depends on UTF-8 decoding, `str::parse`, base64 from a foreign crate, and string trimming and joining.
- `Processor::advance` and the byte-level parser are left out: the parser is the external `vte` crate. The callbacks take its parsed arguments as inputs, and `hook`, `put` and `unhook` do nothing.
- The pty, terminal task, tokio futures and `main` are left out: they are I/O and concurrency. So is the locked-screen renderer in src/screen/renderer.rs, whose parts (attribute rendering, grid lookup) are modelled here.
- `trace!` and `warn!` logging is left out.
- The handler methods that only log are not modelled as screen operations: `put_tab`, `insert_blank*`, `clear_*`, `delete_*`, `erase_chars`, `bell`, `do_alignment_test`, `save_cursor_position`, `restore_cursor_position`, `set_cursor_style`, `set_path`, `move_forward_tabs`, `move_backward_tabs`, the title, clipboard, colour, tab stop, scroll, mode and keypad calls, `reverse_index` and `reset_state`. They still appear as calls in the dispatcher's trace.
- `GridMutIterator` and its unsafe cast are left out. It visits the same points as `GridIterator`.
- src/ansi/attributes.rs is not part of this model. `TextAttributes` assumes a set of nine flags plus `fg` and `bg`. The default is taken to be no flags on the default foreground and background.
- src/screen/mod.rs:360 and 384 name `Attribute::Inverse` and `CancelInverse`, which sgr.rs does not define. The model uses sgr.rs's `Reverse` and `CancelReverse`, mapped to the INVERSE flag.
- src/term/processor.rs is not part of this model. It is an undeclared near-copy of the dispatcher.
- Colors.Normalize: case folding is ASCII only, where the source uses Unicode `to_lowercase`.
- Colors.RgbFromStr: the length test counts characters, where the source counts bytes. The two differ only on non-ASCII text, which never parses as hex.
- `usize`, `i64` and `u8` values are unbounded naturals, with `u8` a subtype of 0..255. Overflow and wrap-around are not modelled, except the `cursor_prev` underflow listed under Findings. CSI arguments are taken to be non-negative, as the parser produces them.
- Screens.Screen.MoveDown and Screens.Screen.MoveForward require a non-empty grid, because the source computes `size - 1` there.
- Screens.Screen.ConfigureCharset states only the charset slots, because its frame is the slot array.
- Flatten.FlattenLines: Python's text decoding and stdout write errors are not modelled. The lines are given as strings.

## Findings

| source | as written | input that shows it | evidently intended | confidence | as-written member | corrected member |
|---|---|---|---|---|---|---|
| src/ansi/color.rs:151 | `#{:x}{:x}{:x}` prints each component without zero padding | `RgbColor(0x01, 0x02, 0x03)` prints as `#123`, which parses back as nothing (three digits) | two hex digits per component, `#{:02x}{:02x}{:02x}`, so that printing then parsing gives the colour back | not executed | Colors.RgbRoundTrip | Colors.RgbPaddedRoundTrip |
| src/screen/mod.rs:372-374 | SGR 22 (`CancelBoldDim`) removes only DIM | a template with BOLD, then SGR 22, is still bold | SGR 22 restores normal intensity (neither bold nor faint), as section 8.3.117 of ECMA-48 says | not executed | Screens.CancelBoldDimKeepsBold | Screens.ApplyAttribute |
| src/screen/mod.rs:62-69 | `cursor_prev` at column 0 subtracts 1 from the row | a backspace with the cursor at the origin (row 0, column 0) underflows `usize` | stay at the origin | not executed | Screens.BackspaceAtOrigin | Screens.Prev |
