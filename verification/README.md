# node-termdraw in Dafny

This project models the drawing core of node-termdraw, a JavaScript library
for full-screen terminal interfaces. It covers the following parts.

- **Cells** (`lib/cell.js`): one terminal slot. A cell holds a glyph, its
  width, attribute bits and colours. Control characters are replaced by
  their "Control Pictures" glyph.
- **Regions** (`lib/region.js`): a mutable grid of cells plus a last-in,
  first-out queue of scroll hints. Writes outside the grid do nothing.
  `shift_rows` moves a band of rows and records a hint. `resize` keeps the
  top-left overlap.
- **The drawing engine** (`lib/draw.js`). It keeps a cached screen. For
  each hint the target yields, it sends a scroll-region escape. It then
  walks the cells row by row and sends only what changed: cursor moves,
  SGR pens and glyphs.
- **Controls** (`lib/controls/`): `Layout` stacks child regions with
  weights, fixed heights and optional borders. `FillBox` fills its grid with
  one character. `ContentBox` shows text split at newlines. `LogBox` wraps
  log lines and scrolls through them. The label formatter and the box
  glyph tables are in `lib/boxdraw.js`.
- **Two example clients**: the `SimpleTextBox` line editor
  (`examples/textbox.js`) and the `FolderPanel` file list
  (`examples/commander.js`).

Cells, hints and documents are datatypes. A region, a control and the
`Draw` object are classes whose fields the methods update. A grid is a
`seq<seq<Cell>>` field. Each imperative operation of the source is a method
with its loops. Its `ensures` ties the new state to a specification
function of the old state, and lemmas prove the source's promises about
those functions.

The terminal is a separate reference definition, `Terminal`. It is a small
VT100 model of margins, cursor, IND/RI, CUP/HVP/CUF/CHA, SGR and printing.
It is used to prove that the text `redraw` sends leaves the terminal
looking like the target.

Parameters stand in for the collaborators that are not modelled:

- Grapheme segmentation and `wcswidth` are a `segment` function, or the
  graphemes are passed in already measured.
- The terminal size is a constructor argument.
- The file system is a `FileSystem` record of functions (`readdir`,
  `isDir`, `join`).

## Model

| member | source | states |
|---|---|---|
| Cells.ControlToPicture | lib/cell.js:34-43 | a code below 32 maps to code + 0x2400, DEL maps to U+2421, anything else maps to U+25CC; the result is one character and never a control |
| Cells.ControlToPictureInjective | lib/cell.js:34-43 | two different control characters get different pictures |
| Cells.NewCell | lib/cell.js:46-56 | a copied cell equals its source; a fresh cell is a space of width 1 with attr 0 and default colours |
| Cells.Clear | lib/cell.js:58-68 | `clear` leaves exactly the state of a fresh cell |
| Cells.ClearEqualsFresh | lib/cell.js:58-68 | a cleared cell `equals` a fresh one |
| Cells.PutGlyph | lib/cell.js:70-84 | width 0 or -1 stores the control picture with width 1 and returns 1; any other width stores the glyph and that width and returns it; attr and colours are kept |
| Cells.FormatAttr | lib/cell.js:95-112 | the bold bit is set iff bold; the inverse bit is set iff inverse or reverse; no other bit is set |
| Cells.ApplyFormat | lib/cell.js:95-112 | `format` resets attr, then sets the bold and inverse bits as asked; glyph, width and colours are untouched |
| Cells.PlainFormatIsCleared | lib/cell.js:95-112 | formatting a cleared cell with no options changes nothing |
| Cells.SetFrom | lib/cell.js:114-126 | after `set_from` all five fields equal the source cell's |
| Cells.SetFromEquals | lib/cell.js:114-146 | after `a.set_from(b)`, `a.equals(b)` holds |
| Cells.EqualsIsEquivalence | lib/cell.js:128-146 | `equals` is reflexive, symmetric and transitive, and ignores the width |
| Strings.Decimal | lib/draw.js:47-81 | the decimal text of a number is non-empty, all digits, with no leading zero |
| Strings.DecimalRoundTrip | lib/draw.js:47-81 | reading back the digits gives the number |
| Strings.DecimalInjective | lib/draw.js:47-81 | different numbers have different texts |
| Strings.IntStr | lib/draw.js:244-270 | an integer prints as its decimal text, with a leading minus when negative |
| Strings.IntStrInjective | lib/draw.js:244-270 | different integers print differently |
| Strings.Split | lib/controls/content.js:40 | splitting at a separator gives at least one piece and no piece contains the separator |
| Strings.SplitJoin | lib/controls/content.js:40 | joining the pieces with the separator gives back the text |
| Strings.SplitLength | lib/controls/content.js:40 | there is one more piece than separators |
| Strings.Slice | examples/textbox.js:61 | `slice(a, b)` has length max(0, min(b,len) - min(a,len)) and holds the characters from `a` on |
| Regions.BlankGrid | lib/region.js:39-50 | the new grid has `h` rows, each of `w` cleared cells |
| Regions.BlankRow | lib/region.js:41-50 | a fresh row of `w` cells, each a cleared cell |
| Regions.Shifted | lib/region.js:62-116 | a band shift keeps the row count and the row width |
| Regions.ShiftByBandHeightKeepsOneRow | lib/region.js:66-67 | a shift by the band's full height moves by one row less, so one old row survives |
| Regions.ShiftedStep | lib/region.js:62-116 | a shift by m followed by a unit shift in the same direction equals a shift by m ± 1, while m is below the band height |
| Regions.UnitShifts | lib/draw.js:39-41 | k unit shifts keep the row count, the row width and every row outside the band |
| Regions.UnitShiftsAgree | lib/draw.js:39-41 | k unit shifts equal one shift by k when k is within the band |
| Regions.RecordHint | lib/region.js:135-150 | the queue grows by at most one and its top hint has the new width and band |
| Regions.RecordHintCoalesces | lib/region.js:139-143 | two shifts of the same band and width leave one hint whose count is the sum |
| Regions.RecordHintPushes | lib/region.js:144-150 | a shift of a different band or width pushes the hint unchanged |
| Regions.Resized | lib/region.js:193-211 | the resized grid has `h` rows of `w` cells |
| Regions.ResizedSameSize | lib/region.js:193-211 | resizing to the current size keeps every cell |
| Regions.ResizedGrowShrink | lib/region.js:193-211 | growing and shrinking back restores the grid: the overlap keeps its content |
| Regions.ResizedIdempotent | lib/region.js:193-211 | resizing twice to the same size is resizing once |
| Regions.Written | lib/region.js:246-264 | a written cell has default colours, the format's attr bits and a non-zero width |
| Regions.WriteRowNarrow | lib/region.js:275-288 | `str` of one-column graphemes at x >= 0 returns how many of them fit |
| Regions.WriteRowNarrowCells | lib/region.js:275-288 | `str` of one-column graphemes writes the k-th grapheme at column x + k and leaves every other cell alone |
| Regions.WriteRowFrame | lib/region.js:275-288 | which cells `str` touches depends only on the graphemes, not on the row's contents |
| Regions.WriteRowTwice | lib/region.js:275-288 | writing the same text twice at the same place is writing it once |
| Regions.WriteRowKeepsLeft | lib/region.js:275-288 | `str` never changes a cell left of its start column |
| Regions.LineRow | lib/region.js:275-288 | a line written on a blank row gives a row of the region's width |
| Regions.StrOfFourControls | lib/region.js:275-288 | `str` of four control characters returns 4, because each counts one column |
| Regions.WriteColumn | lib/region.js:290-305 | `vstr` keeps the grid's shape |
| Regions.WriteRow | lib/region.js:275-288 | `str` keeps the row's length whatever it writes |
| Regions.WriteColumnCount | lib/region.js:290-305 | `vstr` in a valid column returns min(number of graphemes, height - y) |
| Regions.WriteColumnOutside | lib/region.js:290-305 | `vstr` outside the columns changes nothing and returns 0 |
| Regions.Region.constructor | lib/region.js:11-51 | a missing or zero width or height defaults to 1; the grid is blank and the queue empty |
| Regions.Region.PopHint | lib/region.js:54-60 | returns and removes the most recently pushed hint, or nothing on an empty queue |
| Regions.Region.ShiftRowsRaw | lib/region.js:62-116 | `_shift_rows` replaces the rows by the shifted band, capped at min(y1-y0, abs(n)) rows |
| Regions.Region.ShiftRows | lib/region.js:118-153 | the band is pinned to the grid; n = 0 changes nothing; otherwise the rows are shifted and the hint is merged or pushed |
| Regions.Region.GetCell | lib/region.js:155-165 | nothing iff x >= width or y >= height, otherwise the cell at (x, y) |
| Regions.Region.GetCursor | lib/region.js:167-171 | a plain region has no cursor |
| Regions.Region.Resize | lib/region.js:173-214 | the same size changes nothing and reports no change; otherwise the hints are dropped and the top-left overlap is kept |
| Regions.Region.Clear | lib/region.js:234-244 | every cell becomes a fresh cell |
| Regions.Region.Chr | lib/region.js:246-273 | outside the grid it returns 0 and changes nothing; inside it writes one cell and returns its width |
| Regions.Region.Str | lib/region.js:275-288 | on a row outside the grid nothing changes; otherwise the row is written grapheme by grapheme and the columns advanced are returned |
| Regions.Region.VStr | lib/region.js:290-305 | writes down a column, advancing y only for graphemes actually written, and returns the rows advanced |
| BoxDraw.TablesAreBoxDrawing | lib/boxdraw.js:3-23 | every glyph of both tables is in the Box Drawing block, and the bold and normal tables differ |
| BoxDraw.Dots | lib/boxdraw.js:36-39 | k dots |
| BoxDraw.FormatLabel | lib/boxdraw.js:25-44 | empty iff maxlen - 4 <= 0; otherwise padded by one space on each side, with min(len, maxlen - 4) characters inside |
| BoxDraw.FormatLabelUnabridged | lib/boxdraw.js:32-43 | a label that fits comes back as space, label, space |
| BoxDraw.FormatLabelEllipsis | lib/boxdraw.js:33-34 | with m = maxlen - 4 > 3, a long label keeps its first m - 3 characters, then "..." |
| BoxDraw.FormatLabelDots | lib/boxdraw.js:35-39 | with 1 <= m <= 3, a long label becomes its first character, then m - 1 dots |
| BoxDraw.FormatLabelLoop | lib/boxdraw.js:25-44 | the looping form with its dot-padding `while` computes exactly `FormatLabel` |
| Terminal.ShiftUpIsScrollUp | lib/draw.js:66-75 | one IND at the bottom margin moves the band up one row, the same as a region shift by 1 |
| Terminal.ShiftDownIsScrollDown | lib/draw.js:50-65 | one RI at the top margin moves the band down one row, the same as a region shift by -1 |
| Terminal.RunAppend | lib/draw.js:200-307 | sending two texts one after the other is sending their concatenation |
| Terminal.ShiftControlsOnTerminal | lib/draw.js:47-83 | for a band of at least two rows, the escape does to the terminal what abs(n) unit region shifts do, and then resets the margins |
| Terminal.MarginsThenHome | lib/draw.js:47-67 | valid margins followed by CUP inside them set the margins and put the cursor at the row start |
| Terminal.MarginsThenHomeIgnored | lib/draw.js:47-67 | margins with top = bottom are ignored, so only the cursor moves |
| Terminal.SingleRowBandScrollsScreen | lib/draw.js:47-83 | the escape for a one-row band scrolls the whole screen, while the region shift leaves the rows alone (see Findings) |
| Terminal.UnitShiftsSingleRow | lib/region.js:66-67 | unit shifts of a one-row band change nothing |
| Terminal.BandControls | lib/draw.js:47-83 | the shift controls for a band of two or more rows, and none for a one-row band |
| Terminal.BandControlsOnTerminal | lib/draw.js:47-83 | the band controls do to the terminal exactly the unit region shifts, and leave full-screen margins in place |
| Terminal.LooksShifted | lib/draw.js:39-41 | shifting two grids that look the same keeps them looking the same |
| Terminal.PrintAt | lib/draw.js:294 | printing at a ready cursor writes the glyph with the current pen into that cell only |
| Drawing.ShiftEscapeEmpty | lib/draw.js:32-34 | the escape is empty iff n = 0 |
| Drawing.ShiftEscapeIsControls | lib/draw.js:47-83 | the escape text is `CSI y0+1;y1+1 r`, the CUP, abs(n) IND or RI, then `CSI r` |
| Drawing.ShiftText | lib/draw.js:47-83 | the string-building loop produces the escape as the source writes it |
| Drawing.BandShiftEscape | lib/draw.js:47-83 | for a band of two or more rows it is the source's escape; for a one-row band it is empty (see Findings) |
| Drawing.BandShiftEscapeIsControls | lib/draw.js:47-83 | the band escape is the text of the band controls |
| Drawing.WireAllAppend | lib/draw.js:200-307 | the text of two control runs is the concatenation of their texts |
| Drawing.WireAllTimes | lib/draw.js:57-75 | k copies of one control are k copies of its text |
| Drawing.RegionShift | lib/draw.js:25-84 | `draw_region_shift` applies abs(n) unit shifts to the screen region, each with its hint, and returns the band escape |
| Drawing.ShiftOneAtATime | lib/draw.js:39-41 | the unit-shift loop leaves the screen's rows and hints as `ShiftedScreen` says |
| Drawing.ShiftedScreenStep | lib/draw.js:39-41 | one more unit shift extends the state after m unit shifts to the state after m ± 1 |
| Layouts.LastWeighted | lib/controls/layout.js:47-73 | `max_weighted_idx` is a non-fixed child and every later child is fixed |
| Layouts.HeightsPartition | lib/controls/layout.js:75-162 | with a weighted child and room to spare, the child heights plus the border rows add up to the layout height exactly |
| Layouts.TwoEqualChildrenInTen | lib/controls/layout.js:119-136 | with a border, height 10 and two weight-1 children, the heights are 3 and 4 |
| Layouts.SameSizingTotals | lib/controls/layout.js:47-73 | the totals (fixed rows, weights, last weighted child, fixed remainder) depend only on each child's weight and fixed height |
| Layouts.SameSizingRows | lib/controls/layout.js:104-162 | each child's row and height depend only on the weights and fixed heights, not on the previous geometry |
| Layouts.LaidIdempotent | lib/controls/layout.js:104-163 | laying out twice gives the same geometry as laying out once |
| Layouts.LaidStacked | lib/controls/layout.js:115-162 | the first child starts below the top border, and each child starts one border row below the end of the previous one |
| Layouts.LaidFillsHeight | lib/controls/layout.js:121-162 | the last child ends one border row above the layout's bottom |
| Layouts.FrameGlyph | lib/controls/layout.js:85-101 | the glyph each frame cell ends up with: corners, the bottom line and both sides; later writes win where they overlap |
| Layouts.Put | lib/controls/layout.js:86-100 | one border write changes the cell at (x, y) when it is inside the grid, and nothing else |
| Layouts.Framing | lib/controls/layout.js:85-101 | the grid part-way through the frame loops: each cell holds the glyph written to it so far, or its old content |
| Layouts.Framed | lib/controls/layout.js:85-101 | after the frame is drawn, each cell is its frame glyph, or its old content off the frame |
| Layouts.FramedOffFrame | lib/controls/layout.js:85-101 | cells off the frame keep their content |
| Layouts.FramingCorners | lib/controls/layout.js:86-90 | the four corner writes reach the first drawing stage |
| Layouts.FramingBottomStep | lib/controls/layout.js:92-97 | each write of the bottom loop extends the bottom line by one cell |
| Layouts.FramingSideStep | lib/controls/layout.js:98-101 | each pass of the side loop adds the two side glyphs of one row |
| Layouts.FramingDone | lib/controls/layout.js:85-101 | when both loops end, the grid is the framed grid |
| Layouts.SeparatorRowCells | lib/controls/layout.js:141-159 | the separator row holds the left and right tee after the first child, the horizontal line, and the caption `' ' + label + ' '` from column 2 |
| Layouts.SeparatorRow | lib/controls/layout.js:141-159 | the separator row keeps the row's width |
| Layouts.SepEnds | lib/controls/layout.js:142-150 | the tee writes reach the first separator stage, and only after the first child |
| Layouts.SepStep | lib/controls/layout.js:152-155 | each pass of the separator loop, with its doubled write, extends the line by one cell |
| Layouts.SepDone | lib/controls/layout.js:152-155 | the loop's end gives the whole separator line |
| Layouts.Translate | lib/controls/layout.js:202-213 | a child hint moves by the child's row offset, keeps its band height and count, and widens by 2 with a border |
| Layouts.FirstCursor | lib/controls/layout.js:253-270 | nothing iff no child has a cursor; otherwise the first child cursor, translated by the child's position |
| Layouts.ChildCellFirst | lib/controls/layout.js:230-248 | children that do not contain the point are passed over |
| Layouts.AfterResize | lib/region.js:173-214 | a child after `resize(w, h)` has the new size; at its old size it is unchanged, otherwise its hints are dropped and its cells refitted |
| Layouts.FirstFull | lib/controls/layout.js:194-201 | the first child from `i` on whose hint queue is not empty, or the end when all are empty |
| Layouts.Layout.constructor | lib/controls/layout.js:9-26 | the layout starts blank with no children and the given border and bold flags |
| Layouts.Layout.Glyph | lib/controls/layout.js:86-100 | one border write puts a box glyph in one cell, or does nothing off the grid |
| Layouts.Layout.DrawFrame | lib/controls/layout.js:85-101 | the frame loops leave the grid framed with the chosen box table; cells off the frame are unchanged |
| Layouts.Layout.DrawCorners | lib/controls/layout.js:86-90 | the four corners get their glyphs |
| Layouts.Layout.DrawSeparator | lib/controls/layout.js:141-159 | on a row inside the grid the row becomes the separator row with its caption; other rows are unchanged |
| Layouts.Layout.LayChildren | lib/controls/layout.js:104-163 | the children get the laid-out geometry; without a border the grid is untouched, with one only border rows and columns are written |
| Layouts.Layout.ResizeChildren | lib/controls/layout.js:139 | each child region is resized to its slot |
| Layouts.Layout.Arrange | lib/controls/layout.js:29-163 | clears the grid and lays out the children, leaving the child regions as they were |
| Layouts.Layout.Redo | lib/controls/layout.js:29-164 | the children get the laid-out geometry and are resized to it; the grid is blank without a border and holds only border cells with one |
| Layouts.Layout.CellAt | lib/controls/layout.js:221-251 | nothing iff the point is outside the layout |
| Layouts.Layout.CellAtChild | lib/controls/layout.js:230-248 | the point's cell comes from the first child that contains it |
| Layouts.Layout.CellAtOwn | lib/controls/layout.js:250 | with no child containing the point, the layout's own cell is returned |
| Layouts.Layout.GetCell | lib/controls/layout.js:221-251 | the lookup loop returns the cell the layout shows at (x, y) |
| Layouts.Layout.GetCursor | lib/controls/layout.js:253-270 | the first child cursor, translated, or nothing |
| Layouts.Layout.PopHint | lib/controls/layout.js:189-219 | the top hint of the lowest-index child that has one, translated; only when no child has one, the layout's own top hint |
| Layouts.Layout.Add | lib/controls/layout.js:166-187 | appends the child with weight `weight or 1` and a fixed height, then lays out again and resizes every child |
| Layouts.Layout.Append | lib/controls/layout.js:175-184 | the new slot is appended to the children and its region joins the layout's regions |
| Layouts.Layout.Resize | lib/controls/layout.js:173-214 | the same size changes nothing; otherwise the hints are dropped and the children are laid out for the new size |
| Surfaces.Shown | lib/controls/layout.js:221-251 | outside the target its cell is blank; for a plain region it is the region's cell |
| Surfaces.WantGrid | lib/draw.js:211-221 | the grid `redraw` compares against has the screen's height and width |
| Surfaces.WantGridCells | lib/draw.js:214-221 | the wanted grid holds at (x, y) what the target shows there, or a blank cell |
| Surfaces.SurfaceCell | lib/draw.js:215-221 | reading a target cell returns what it shows and changes nothing |
| Surfaces.Reversed | lib/region.js:54-60 | a last-in, first-out queue drains in reverse order |
| Surfaces.TranslatedAll | lib/controls/layout.js:202-213 | every hint is translated |
| Surfaces.PopSurfaceHint | lib/draw.js:202-206 | `pop_hint` on the target returns the first of its pending hints and removes it, or nothing when none are left |
| Surfaces.PopLayout | lib/controls/layout.js:189-219 | a layout's pending hints are the children's in order, then its own; popping takes the first |
| Surfaces.DrainedPop | lib/controls/layout.js:194-215 | the layout's pending hints start with the translated top hint of the first child that has one, followed by the rest |
| Surfaces.PlainPendingInside | lib/region.js:118-153 | every hint a region has recorded lies inside it |
| Diffing.Visit | lib/draw.js:212-304 | one visit keeps the grid shape, only touches the current row and strictly lowers the loop measure, so the backtracking loop ends |
| Diffing.Start | lib/draw.js:190-211 | before the loop no cell has been visited and the trackers hold their initial values |
| Diffing.Skip | lib/draw.js:223-226 | skipping a cell that needs nothing moves to the next cell and breaks contiguity, keeping the loop invariants |
| Diffing.Back | lib/draw.js:238-251 | when only one cell would be skipped, the loop steps back to rewrite it, keeping the loop invariants |
| Diffing.NextRow | lib/draw.js:213-304 | finishing a row moves to the start of the next row, keeping the loop invariants |
| Diffing.WholeRow | lib/draw.js:213-304 | a whole row of visits keeps the loop invariants and keeps the terminal in step with the cached screen |
| Diffing.CacheFrom | lib/draw.js:212-305 | the rest of the walk from any row keeps the loop invariants to the end |
| Diffing.RowRun | lib/draw.js:213-304 | a row's visits keep the grid shape and only change that row |
| Diffing.ScreenRun | lib/draw.js:212-305 | the whole walk keeps the grid's shape |
| Diffing.MovesReady | lib/draw.js:229-271 | the cursor move chosen (none when contiguous, CUF over a gap, CHA on the same row, HVP elsewhere) puts the terminal cursor on the cell |
| Diffing.PensSet | lib/draw.js:274-292 | `CSI 0m` on the first write and the SGR on an attr change leave the pen at the cell's shown attrs |
| Diffing.WritesOnTerminal | lib/draw.js:229-297 | the text for one cell writes that cell's glyph with its attrs on the terminal and nothing else |
| Diffing.Finish | lib/draw.js:212-305 | after the walk every cell is settled, equals its wanted cell, and looks right on the terminal |
| Diffing.Diffed | lib/draw.js:211-305 | after the walk every cell equals the wanted cell; nothing is sent iff no cell needed it; the terminal then shows the wanted grid |
| Diffing.SettledEquals | lib/cell.js:114-146 | settled cells equal their wanted cells |
| Screens.Cleared | lib/draw.js:163-165 | a cleared terminal looks like a blank grid with full-screen margins |
| Screens.Replayed | lib/draw.js:202-206 | replaying hints keeps the screen's row count and width |
| Screens.ReplayControlsText | lib/draw.js:202-206 | the replay text is the text of the replay controls |
| Screens.ShiftMirrored | lib/draw.js:204-205 | one replayed hint keeps the terminal in step with the cached screen |
| Screens.ReplayMirrored | lib/draw.js:202-206 | replaying all the hints keeps the terminal in step with the cached screen |
| Screens.ReplaySnoc | lib/draw.js:202-206 | replaying one more hint shifts the screen once more and appends its escape |
| Screens.MoveText | lib/draw.js:229-271 | the text of the cursor move is the chosen move's controls |
| Screens.PenText | lib/draw.js:274-292 | the text of the pen change; the first written cell always gets one |
| Screens.CellText | lib/draw.js:229-297 | the text for one written cell; the first written cell always sends text |
| Screens.ShiftOn | lib/draw.js:204-205 | one hint shifts the screen region and returns its escape, leaving the target alone |
| Screens.ReplayNext | lib/draw.js:203-205 | one pass of the hint loop pops the next hint, shifts the screen and returns the escape; nothing is left when the queue is empty |
| Screens.ReplayAll | lib/draw.js:202-206 | the hint loop drains the target's queue, applies every hint to the screen and returns their escapes in order |
| Screens.DiffStep | lib/draw.js:213-304 | one cell of the loop computes `Visit` and its text; the first write sends text |
| Screens.DiffRow | lib/draw.js:213-304 | one row of the loop computes `RowRun` and its text |
| Screens.DiffCells | lib/draw.js:211-305 | the cell loop computes the whole walk; its text is empty iff nothing was written |
| Screens.DiffGrid | lib/draw.js:211-305 | after the cell loop every cell equals the wanted one; the text is empty iff nothing differed; a terminal in step shows the wanted grid |
| Screens.WriteBack | lib/draw.js:303 | the updated cells are stored back in the cached screen without touching the target |
| Screens.DiffAll | lib/draw.js:211-305 | the cached screen ends equal to the target, and a terminal in step ends showing it |
| Screens.RedrawOn | lib/draw.js:200-307 | the hints are drained and replayed first, then the cells are diffed; the text starts with the replay escapes |
| Screens.Draw.constructor | lib/draw.js:86-150 | a new Draw is open, with a blank screen of the terminal's size, defaulting to 1 |
| Screens.Draw.Close | lib/draw.js:153-166 | only the first call acts, clearing the terminal; later calls change nothing |
| Screens.Draw.Width | lib/draw.js:176-182 | the screen's width, which is the terminal's width |
| Screens.Draw.Height | lib/draw.js:168-174 | the screen's height, which is the terminal's height |
| Screens.Draw.OnResize | lib/draw.js:127-143 | on an open Draw the screen becomes a blank region of the new size and the terminal is cleared; a closed Draw ignores it |
| Screens.Draw.Redraw | lib/draw.js:184-308 | a closed Draw sends nothing; otherwise the target's hints are drained and replayed, every screen cell then equals the target's, the text is only the escapes iff nothing differed, and the terminal shows the target |
| FillBoxes.Filled | lib/controls/fillbox.js:43-56 | the filled grid has the box's shape |
| FillBoxes.FilledToStep | lib/controls/fillbox.js:51-55 | each pass of the inner loop fills one more cell of the column |
| FillBoxes.FilledTo | lib/controls/fillbox.js:49-55 | the grid part-way through the fill loops keeps the box's shape |
| FillBoxes.FilledToColumn | lib/controls/fillbox.js:51-55 | finishing a column is starting the next one |
| FillBoxes.FilledToEnds | lib/controls/fillbox.js:49-55 | the loops start from the cleared grid and end at the filled one |
| FillBoxes.FilledCellsEqual | lib/controls/fillbox.js:43-56 | all cells of a filled box are equal |
| FillBoxes.FillBox.constructor | lib/controls/fillbox.js:9-40 | the character defaults to a space, the size defaults to 1, and the box starts filled |
| FillBoxes.FillBox.Redo | lib/controls/fillbox.js:43-56 | every cell is the character written with the format |
| FillBoxes.FillBox.PaintColumn | lib/controls/fillbox.js:52-54 | the inner loop fills one column |
| FillBoxes.FillBox.SetCharacter | lib/controls/fillbox.js:58-66 | stores a one-character string and refills the box |
| FillBoxes.FillBox.SetFormat | lib/controls/fillbox.js:68-75 | stores the format and refills the box |
| FillBoxes.FillBox.Resize | lib/controls/fillbox.js:32-34 | after a resize the box is refilled at the new size |
| ContentBoxes.ContentView | lib/controls/content.js:37-47 | the view has the box's shape, and rows past the last line are blank |
| ContentBoxes.Lines | lib/controls/content.js:40 | the content splits into one more line than it has newlines, and joining them gives it back |
| ContentBoxes.ContentViewEmpty | lib/controls/content.js:42 | with no lines the view is blank |
| ContentBoxes.ContentViewStep | lib/controls/content.js:44-46 | each pass writes line i on row i, or nothing past the bottom |
| ContentBoxes.LineRowNarrow | lib/controls/content.js:45 | a row of one-column text holds the graphemes from column 0 and blanks after them |
| ContentBoxes.ContentBox.constructor | lib/controls/content.js:8-34 | content defaults to "" and the box starts drawn |
| ContentBoxes.ContentBox.Redo | lib/controls/content.js:37-47 | the grid is the view of the content's lines |
| ContentBoxes.ContentBox.SetContent | lib/controls/content.js:49-55 | stores the text and redraws |
| ContentBoxes.ContentBox.SetFormat | lib/controls/content.js:57-63 | stores the format and redraws |
| ContentBoxes.ContentBox.Resize | lib/controls/content.js:26-28 | after a resize the content is drawn at the new size |
| LogBoxes.RowTexts | lib/controls/logbox.js:49-55 | one text per committed row |
| LogBoxes.NextText | lib/controls/logbox.js:65-78 | a grapheme extends the row, or starts a continuation row `'~ '` when the row would reach the width |
| LogBoxes.WrapFromStep | lib/controls/logbox.js:65-80 | the wrapping of a line is one grapheme's step followed by the wrapping of the rest |
| LogBoxes.WrapKeepsGraphemes | lib/controls/logbox.js:41-83 | the rows hold every grapheme of the line except newlines, in order |
| LogBoxes.WrapRowsFit | lib/controls/logbox.js:72-77 | every row stays below the width unless it holds one grapheme |
| LogBoxes.WrapEmpty | lib/controls/logbox.js:49-55 | a line adds no row iff it has no printing grapheme |
| LogBoxes.WrapFirstNotContinued | lib/controls/logbox.js:41-83 | the first row of a line is never a continuation |
| LogBoxes.Placement | lib/controls/logbox.js:133-151 | short logs sit at the bottom; full ones show the requested offset while it is below the newest, and the newest rows otherwise, dropping the request |
| LogBoxes.Window | lib/controls/logbox.js:153-179 | the box row i shows rendered row i - (yoffset - roffset), or is blank |
| LogBoxes.Overlay | lib/controls/logbox.js:176-179 | the write loop puts each rendered row on its box row |
| LogBoxes.Shown | lib/controls/logbox.js:176-179 | a box row written from the rendered rows has the box width |
| LogBoxes.Drawn | lib/controls/logbox.js:176-179 | one box row after the write loop keeps its width |
| LogBoxes.OverlayStep | lib/controls/logbox.js:176-179 | each pass writes one more row |
| LogBoxes.WindowFromClear | lib/controls/logbox.js:156-157 | clearing, then writing rows yoffset to the bottom, shows the window |
| LogBoxes.WindowRedrawn | lib/controls/logbox.js:176-179 | writing over a shown window with the same rows changes nothing |
| LogBoxes.WindowScrolledUp | lib/controls/logbox.js:163-172 | shifting up by d < height and writing the d exposed bottom rows shows the new window |
| LogBoxes.WindowScrolledDown | lib/controls/logbox.js:163-169 | shifting down by d < height and writing the d exposed top rows shows the new window |
| LogBoxes.WindowGrows | lib/controls/logbox.js:214-224 | rows added below a full window do not change it |
| LogBoxes.FollowShowsNewest | lib/controls/logbox.js:141-151 | with no scroll-back request, the bottom row shows the newest rendered row |
| LogBoxes.ScrolledAsWritten | lib/controls/logbox.js:156-179 | the incremental path as the source writes it keeps the box's height |
| LogBoxes.ScrolledFrom | lib/controls/logbox.js:158-179 | drawing the rows between `idx` and `end`, as `_redo` computes them, over the shifted rows gives the incremental path's result |
| LogBoxes.ScrolledAsWrittenShort | lib/controls/logbox.js:156-179 | when the move is smaller than the height, the incremental path shows the new window |
| LogBoxes.ScrolledUpShort | lib/controls/logbox.js:163-179 | the same for moves up |
| LogBoxes.ScrolledDownShort | lib/controls/logbox.js:163-179 | the same for moves down |
| LogBoxes.RenderedShortLines | lib/controls/logbox.js:41-118 | at width 3, "ab" and "x" each render as one row |
| LogBoxes.LongScrollLeavesStaleCells | lib/controls/logbox.js:156-179 | a box 3 wide and 1 high that shows "ab" and then gets "x" keeps the stale "b" on the incremental path (see Findings) |
| LogBoxes.LogBox.constructor | lib/controls/logbox.js:10-35 | empty log, no scroll-back request, size defaulting to 1 |
| LogBoxes.LogBox.RenderLine | lib/controls/logbox.js:41-83 | the grapheme loop appends exactly the wrapped rows of the line |
| LogBoxes.LogBox.AddGrapheme | lib/controls/logbox.js:65-78 | `addg` commits the rows the wrapping emits for one grapheme and leaves the row under construction as the wrapping's next row |
| LogBoxes.LogBox.RenderAll | lib/controls/logbox.js:89-118 | records the size; with the same width it keeps the rows and reports whether the height changed; otherwise it rewraps every line |
| LogBoxes.LogBox.WriteRows | lib/controls/logbox.js:176-179 | the write loop overlays rendered rows idx to end |
| LogBoxes.LogBox.RedrawAll | lib/controls/logbox.js:156-157 | clear and write gives the window |
| LogBoxes.LogBox.Scroll | lib/controls/logbox.js:158-179 | the incremental path: one shift of the whole box by diff, then the exposed rows |
| LogBoxes.LogBox.ShiftBox | lib/controls/logbox.js:166 | the whole box is shifted by `diff`, or left alone when `diff` is 0 |
| LogBoxes.LogBox.DrawExposed | lib/controls/logbox.js:158-179 | the rows exposed at the top (diff < 0) or the bottom (diff > 0), or all shown rows, are drawn from the rendered rows |
| LogBoxes.LogBox.Paint | lib/controls/logbox.js:156-179 | the box shows the window of the new placement (see Findings) |
| LogBoxes.LogBox.Redo | lib/controls/logbox.js:120-183 | rewraps as `_renderAll` says; at height 0 the request is kept; otherwise the placement is stored and shown |
| LogBoxes.LogBox.Show | lib/controls/logbox.js:130-182 | stores the placement and shows it |
| LogBoxes.LogBox.Offset | lib/controls/logbox.js:185-193 | the request becomes max(last roffset + off, 0), then the placement clamps it to the newest rows |
| LogBoxes.LogBox.MoveTo | lib/controls/logbox.js:195-212 | "top" shows the oldest rows; "bottom" follows the newest; any other position is an error that changes nothing |
| LogBoxes.LogBox.Add | lib/controls/logbox.js:214-224 | appends the line and its wrapped rows; the box is placed by `Placement` on the new row count and the old scroll-back request, so a box following the newest rows keeps following them and one scrolled back keeps its request while it stays below the newest rows |
| LogBoxes.LogBox.Resize | lib/controls/logbox.js:32-34 | after a resize the log is rewrapped as needed and shown at the new size, placed by `Placement` on the rewrapped row count and the old scroll-back request; an unchanged size changes nothing |
| TextBoxes.Typed | examples/textbox.js:193-202 | the key is inserted at the cursor in the current line, x advances by 1, and other lines are unchanged |
| TextBoxes.NewLined | examples/textbox.js:70-82 | the line splits at the cursor into two lines whose concatenation is the old one; the cursor goes to (0, y + 1) |
| TextBoxes.LineBackspaced | examples/textbox.js:88-95 | the character before the cursor is removed and x drops by 1 |
| TextBoxes.Joined | examples/textbox.js:101-108 | the line is joined onto the previous one and the cursor goes to the join point (see Findings) |
| TextBoxes.JoinedAsWritten | examples/textbox.js:101-108 | the join as written puts the cursor at the end of the joined line |
| TextBoxes.NewlineThenBackspaceAsWritten | examples/textbox.js:70-109 | on "ab" with the cursor at 1, newline then backspace as written leaves the cursor at 2 |
| TextBoxes.Backspaced | examples/textbox.js:113-121 | at (0, 0) backspace changes nothing; the editing invariant holds after it |
| TextBoxes.TypeThenBackspace | examples/textbox.js:88-121 | typing one character and backspacing restores the document and the cursor |
| TextBoxes.NewlineThenBackspace | examples/textbox.js:70-121 | newline then backspace restores the document and the cursor |
| TextBoxes.MovedX | examples/textbox.js:126-167 | a step that stays inside the line moves x by n; without wrap x is clamped to the line, and home/end go to its ends; with wrap a move before the start goes to the end of the previous line and a move past the end to the start of the next, and it stays put at the document's start and end |
| TextBoxes.RightThenLeft | examples/textbox.js:126-167 | moving right then left with wrap returns to the start, except at the document's end |
| TextBoxes.LeftThenRight | examples/textbox.js:126-167 | moving left then right with wrap returns to the start, except at the document's start |
| TextBoxes.MovedY | examples/textbox.js:172-191 | y is clamped to the lines, then x is clamped to the new line |
| TextBoxes.Follow | examples/textbox.js:39-53 | the new corner puts the offset inside the view, and is the old corner when the offset was already inside |
| TextBoxes.FollowMinimal | examples/textbox.js:39-53 | no corner that shows the offset is closer to the old corner |
| TextBoxes.Visible | examples/textbox.js:55-64 | the visible lines are the lines from the corner on, each cut to the view's width |
| TextBoxes.ContentViewClipped | examples/textbox.js:55-58 | stopping after `height` lines draws the same as drawing them all |
| TextBoxes.SimpleTextBox.constructor | examples/textbox.js:6-25 | one empty line, cursor and corner at the origin |
| TextBoxes.SimpleTextBox.Redo | examples/textbox.js:32-65 | moves the corner as `Follow` says and draws the visible lines with the cursor inside the box |
| TextBoxes.SimpleTextBox.MoveCorner | examples/textbox.js:39-53 | the corner moves as `Follow` says on each axis |
| TextBoxes.SimpleTextBox.DrawLines | examples/textbox.js:55-64 | the row loop draws the visible lines |
| TextBoxes.SimpleTextBox.Type | examples/textbox.js:193-202 | the document becomes `Typed` and the box shows it |
| TextBoxes.SimpleTextBox.Newline | examples/textbox.js:70-82 | the document becomes `NewLined` and the box shows it |
| TextBoxes.SimpleTextBox.BsLine | examples/textbox.js:88-95 | the document becomes `LineBackspaced` |
| TextBoxes.SimpleTextBox.BsJoin | examples/textbox.js:101-108 | the document becomes `Joined` |
| TextBoxes.SimpleTextBox.Backspace | examples/textbox.js:113-121 | the document becomes `Backspaced` and the box shows it |
| TextBoxes.SimpleTextBox.MoveX | examples/textbox.js:126-167 | the document becomes `MovedX` (an in-line step, the clamp, or with wrap the crossing to the previous line's end or the next line's start) and the box shows it |
| TextBoxes.SimpleTextBox.MoveY | examples/textbox.js:172-191 | the document becomes `MovedY` and the box shows it |
| TextBoxes.SimpleTextBox.GetCursor | examples/textbox.js:204-209 | offset minus corner, which lies inside the box |
| TextBoxes.SimpleTextBox.Resize | examples/textbox.js:22 | the grid takes the new size and the text and cursor are kept; a change of size redraws the box, so a box never drawn is shown after its first resize; an unchanged size leaves the corner and the grid as they were |
| Commander.EntryOf | examples/commander.js:324-329 | an entry's path is the directory joined with the name, and it records whether that path is a directory |
| Commander.Opened | examples/commander.js:261-268 | ".." first, then one entry per listed name, in order |
| Commander.JsRem | examples/commander.js:303 | JavaScript's `%`: the remainder has the dividend's sign and is below the divisor in size |
| Commander.JsRemSymmetric | examples/commander.js:303 | negating the dividend negates the remainder |
| Commander.Moved | examples/commander.js:298-310 | with wrap, (len + selected + offset) mod len; without wrap, selected + offset clamped to [0, len - 1] |
| Commander.DownThenUp | examples/commander.js:298-303 | moving down then up with wrap returns to the start |
| Commander.WrapsAtEnds | examples/commander.js:298-303 | up from the first entry goes to the last, and down from the last goes to the first |
| Commander.RowFormat | examples/commander.js:256-257 | a row is inverse iff the panel is focused and the row is the selected one |
| Commander.EntryRow | examples/commander.js:247-258 | rows past the entries are blank |
| Commander.Drawn | examples/commander.js:247-258 | after n passes the first n rows are entry rows and the rest are blank |
| Commander.DrawnNone | examples/commander.js:239 | before the loop the grid is blank |
| Commander.DrawnStep | examples/commander.js:247-258 | each pass writes one entry row |
| Commander.DrawnPastEnd | examples/commander.js:250-252 | stopping at the end of the entries draws the whole panel |
| Commander.PanelView | examples/commander.js:235-259 | the panel's view has the panel's shape |
| Commander.RowInverse | examples/commander.js:256-257 | a written cell of row y is inverse iff the panel is focused and viewtop + y is selected |
| Commander.RowsPastEntries | examples/commander.js:250-252 | rows past the last entry are blank |
| Commander.FolderPanel.constructor | examples/commander.js:215-232 | starts in the given directory with its entries, selection and viewtop 0, and a blank grid |
| Commander.FolderPanel.Redo | examples/commander.js:235-259 | viewtop moves minimally so that viewtop <= selected < viewtop + height, and the panel view is drawn |
| Commander.FolderPanel.DrawEntries | examples/commander.js:247-258 | the row loop draws the panel view |
| Commander.FolderPanel.Open | examples/commander.js:270-281 | nothing, not even the grid, unless the selection is a directory; otherwise its path becomes the directory, its entries are listed, the selection is 0 and the panel is redrawn |
| Commander.FolderPanel.MoveTo | examples/commander.js:283-296 | "top" selects 0, "bottom" the last entry, and either redraws the panel; anything else is an error that changes nothing, not even the grid |
| Commander.FolderPanel.Move | examples/commander.js:298-313 | the selection becomes `Moved` and the panel is redrawn |
| Commander.FolderPanel.Cwd | examples/commander.js:315-317 | the current directory |
| Commander.FolderPanel.Focused | examples/commander.js:319-322 | sets the focus and redraws with the same selection |
| Commander.FolderPanel.Resize | examples/commander.js:227-229 | the grid takes the new size and the listing and selection are kept; a change of size redraws the panel, so a panel never drawn is shown after its first resize; an unchanged size leaves the scroll position and the grid as they were |

## Left out

- Regions.Region.ShiftRows: requires the pinned band to meet a row whenever n is not 0. The source accepts such a call. It then builds a row array of the wrong length and throws at lib/region.js:114-115.
- Drawing.RegionShift: the same requirement on the band, for the same reason.
- Screens.Draw.Redraw: requires every pending hint with a count to meet a row of the screen, for the same reason. The source throws while replaying such a hint. A hint wider than the screen is replayed as in the source. A pending one-row band hint is replayed with the corrected escape of `Drawing.BandShiftEscape` (nothing is sent), not the source's.
- LogBoxes.LogBox.Paint: when the placement moves by at least the box height, the box is cleared and redrawn. The source's incremental path leaves stale cells there (see Findings). On that path the source also pushes a `Hint(width, 0, height - 1, diff)` scroll hint. The corrected path pushes none, so `Draw.redraw` repaints those rows cell by cell instead of scrolling. The same applies to `LogBox.Redo`, `Offset`, `MoveTo`, `Add` and `Resize`, which call `Paint`.
- Drawing.BandShiftEscape: sends nothing for a one-row band, where the source sends the escape (see Findings).
- Layouts.Layout.Redo: the children are plain regions. A child control's own resize handler (fillbox.js:32-34, content.js:26-28, logbox.js:32-34) is not run when the layout resizes it. Only the child's grid and hints are updated, as `Region.resize` does.
- Layouts.Layout.Redo: the cells of the composed grid are stated only as confined to the border rows and columns. Their exact glyphs are stated per drawing step, by `DrawFrame` and `DrawSeparator`.
- Layouts.Layout.Add: requires the child to be a region that is not already in the layout. The source accepts re-adding a region, which then holds two slots.
- BoxDraw.FormatLabel: lengths count characters, where JavaScript's `.length` counts UTF-16 units. A label with characters outside the Basic Multilingual Plane is cut at different points.
- FillBoxes.FillBox.SetCharacter: `|ch| == 1` counts characters, so one character outside the Basic Multilingual Plane is accepted. fillbox.js:24 and :62 reject it because its `.length` is 2. The same holds for the `FillBox` constructor.
- TextBoxes.SimpleTextBox.Type: requires a non-empty key. With an empty key the source moves x past the end of the line, which breaks the editing invariant. The editor only passes keypresses.
- TextBoxes.MovedX: ±Infinity (home and end) is modelled as the steps `ToStart` and `ToEnd`.
- TextBoxes.SimpleTextBox.BsJoin: puts the cursor at the join point (the length of the previous line), where `_bsjoin` puts it at the end of the joined line (examples/textbox.js:105-106); `TextBoxes.SimpleTextBox.Backspace` and `TextBoxes.Backspaced` inherit this. `TextBoxes.JoinedAsWritten` models the source's placement (see "## Findings").
- TextBoxes.Typed: like `TextBoxes.LineBackspaced`, `TextBoxes.Joined`, `TextBoxes.MovedX`, `TextBoxes.MovedY` and `Strings.Slice`, counts a line in characters, where the source's `.length` and `slice` count UTF-16 code units (examples/textbox.js:61, 72-73, 91-92, 106, 141, 147-149, 184-185, 195-196). A key outside the Basic Multilingual Plane lengthens the source's line by 2 units while `type` adds 1 to x (examples/textbox.js:199), so the source's cursor can stop between the two surrogates; the model has no such position.
- Commander.FolderPanel.Move: with wrap it requires len + selected + offset >= 0. For a larger negative offset the source's `%` gives a negative selection, and its redraw then reads a missing entry. The callers only pass ±1.
- Terminal: the terminal model gives every glyph one column. Wide glyphs and the cursor advance after them are not modelled.
- Layouts.Base: the floating-point division in lib/controls/layout.js:75-79 and :119 is exact integer floor division, floor(weight × avail / weights). The two differ: with two children of weight 49 in a layout 2 rows high without a border, the source computes 49 × (2 / 98) = 0.9999999999999999, floors it to 0 and gives the last weighted child the other 2 rows; the model gives 1 and 1. Weights and fixed heights are natural numbers here, where lib/controls/layout.js:55 and :61 accept any number.
- Terminal I/O through `ansiterm` is not modelled. This covers clear, cursor, moveto, softReset, size and write, and the forwarding of keypress, control, special and resize events. `redraw` returns its text instead of writing it.
- Grapheme segmentation and `wcswidth` are parameters: a `segment` function, or graphemes passed in with their widths.
- The EventEmitter `resize` events are explicit calls. A control's `Resize` redraws when the size changed.
- The file system (`readdirSync`, `lstatSync`, `path.join`) and `process.cwd()` are the `FileSystem` parameter and a constructor argument. Errors thrown by `readdirSync` and `lstatSync` (examples/commander.js:263, :328) are not modelled: the parameter's functions always answer.
- Colour attributes: `ATTR_COLOUR_16` and `ATTR_COLOUR_256` are never set, and the writers leave fg and bg at their defaults. SGR sends only the bold and inverse bits, as the source does.
- `lib/controls/box.js` is not part of this model. It reads a children field that `Region` never sets.
- `lib/index.js` (re-exports) and the older top-level `draw.js`, `controls/layout.js` and `controls/logbox.js` are not part of this model.
- The example applications are not part of this model. This covers the `Editor` and folder-browser wiring, key dispatch, `scrolling.js`, `loading.js`, `unicode.js` and `menu.js`.

## Findings

| source | as written | input that shows it | evidently intended | confidence | as-written member | corrected member |
|---|---|---|---|---|---|---|
| lib/controls/logbox.js:156-179 | when the placement moves by at least the box height, `_redo` still shifts the rows. `_shift_rows` caps the shift at y1 - y0 rows (lib/region.js:66-67). Then only `str` of the exposed rows runs, and `str` does not clear past the text. | A box 3 wide and 1 high: `add("ab")`, then `add("x")`. The shift is capped to 0 rows and only column 0 is rewritten, so the box shows "xb " instead of "x  ". | the box shows exactly the rendered rows of the new placement (clear and redraw when the move reaches the height) | not executed | LogBoxes.ScrolledAsWritten, LogBoxes.LongScrollLeavesStaleCells | LogBoxes.LogBox.Paint, LogBoxes.WindowFromClear |
| lib/draw.js:47-83 | for a one-row band (y0 = y1), `draw_region_shift` still sends `CSI y0+1;y1+1 r`, the CUP and abs(n) IND or RI. A VT100 ignores margins whose top is not above the bottom, so the full screen stays the scrolling region: when the band is the bottom row (n > 0, IND) or the top row (n < 0, RI) the whole screen scrolls; elsewhere the IND or RI only moves the cursor. | A 2-row screen showing a blank row over "x", and the hint (y0 = 1, y1 = 1, n = 1) that a one-row LogBox at the bottom produces. The terminal ends with "x" over a blank row. The cached screen is unchanged, because a one-row shift is a no-op. | send nothing for a one-row band, matching the cached screen, which a one-row shift leaves unchanged | not executed | Drawing.ShiftText, Terminal.SingleRowBandScrollsScreen | Drawing.BandShiftEscape, Drawing.RegionShift, Terminal.BandControlsOnTerminal |
| examples/textbox.js:101-108 | `_bsjoin` sets x to the length of the joined line | lines ["ab"], cursor (1, 0): newline gives ["a", "b"] with the cursor at (0, 1). Backspace then puts the cursor at (2, 0), not back at (1, 0). | x is the length of the previous line, the join point | not executed | TextBoxes.JoinedAsWritten, TextBoxes.NewlineThenBackspaceAsWritten | TextBoxes.Joined, TextBoxes.NewlineThenBackspace, TextBoxes.SimpleTextBox.BsJoin, TextBoxes.SimpleTextBox.Backspace, TextBoxes.Backspaced |
