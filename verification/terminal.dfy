/**
 * A small model of the video terminal that the drawing engine writes to,
 * enough to give meaning to everything it sends: the cells on the glass, the
 * scrolling margins, the cursor (with the VT100 "last column" flag that defers
 * the wrap to the next printed glyph) and the current rendition.  Controls
 * follow DEC VT100 behaviour: DECSTBM (set top and bottom margins), CUP with
 * the column left out, IND (ECMA-48 section 8.3.68), RI (ECMA-48 section
 * 8.3.104), HVP (section 8.3.63), CUF (section 8.3.20), CHA (section 8.3.9)
 * and SGR (section 8.3.117) with the parameters 0, 1 and 7.  Every printed
 * glyph is taken to occupy one column.
 */
module Terminal {
  import opened Strings
  import opened Cells
  import opened Regions

  /** The controls that a scroll of a band is made of. */
  datatype Control =
    | Margins(top: int, bottom: int)   // DECSTBM, rows numbered from 0
    | Home(row: int)                   // CUP to the start of a row
    | Index                            // IND
    | ReverseIndex                     // RI
    | ResetMargins                     // DECSTBM with no parameters
    | CursorTo(y: int, x: int)         // HVP
    | CursorForward(n: int)            // CUF
    | CursorColumn(x: int)             // CHA
    | Rendition(attr: bv8)             // SGR 0, then 1 and 7 for the bold and inverse bits
    | Print(glyph: string)             // the glyph itself

  /**
   * What the terminal holds: its cells, the margins, the cursor row and
   * column, whether a wrap is pending after a glyph in the last column, and
   * the attribute bits the next glyph is printed with.
   */
  datatype Vt = Vt(width: nat, rows: seq<seq<Cell>>, top: int, bottom: int,
                   cursor: int, col: int, wrap: bool, pen: bv8)

  ghost predicate VtValid(t: Vt)
  {
    && |t.rows| >= 1 && t.width >= 1 && IsGrid(t.rows, t.width)
    && 0 <= t.top <= t.bottom < |t.rows|
    && 0 <= t.cursor < |t.rows|
    && 0 <= t.col < t.width
  }

  /** The attribute bits SGR can express here. */
  const SHOWN_ATTRS: bv8 := ATTR_BOLD | ATTR_INVERSE

  /** What the terminal shows for a glyph printed with attribute bits `pen`. */
  function Printed(glyph: string, pen: bv8): Cell
  {
    Cell(glyph, 1, pen, DEFAULT_COLOUR, DEFAULT_COLOUR)
  }

  /** Two cells look alike on the terminal: same glyph, same bold and inverse bits. */
  predicate Looks(a: Cell, b: Cell)
  {
    a.glyph == b.glyph && a.attr & SHOWN_ATTRS == b.attr & SHOWN_ATTRS
  }

  /** `v` lies in `0..n - 1`, moved to the nearest end when outside. */
  function Clamp(v: int, n: nat): (r: int)
    requires n >= 1
    ensures 0 <= r < n
    ensures 0 <= v < n ==> r == v
  {
    if v < 0 then 0 else if v >= n then n - 1 else v
  }

  /** The deferred wrap: to the start of the next row, scrolling when the cursor is on the bottom margin. */
  function NewLine(t: Vt): (r: Vt)
    requires VtValid(t)
    ensures VtValid(r) && r.width == t.width && |r.rows| == |t.rows|
    ensures r.top == t.top && r.bottom == t.bottom && r.pen == t.pen
    ensures r.col == 0 && !r.wrap
  {
    var h := |t.rows|;
    if t.cursor == t.bottom then t.(rows := ScrollUp(t.rows, t.top, t.bottom, BlankRow(t.width)), col := 0, wrap := false)
    else if t.cursor < h - 1 then t.(cursor := t.cursor + 1, col := 0, wrap := false)
    else t.(col := 0, wrap := false)
  }

  /** Print a glyph at the cursor (after any pending wrap) and move right, or flag the wrap in the last column. */
  function PutGlyph(t: Vt, glyph: string): (r: Vt)
    requires VtValid(t)
    ensures VtValid(r) && r.width == t.width && |r.rows| == |t.rows|
  {
    var u := if t.wrap then NewLine(t) else t;
    var row := u.rows[u.cursor][u.col := Printed(glyph, u.pen)];
    u.(rows := u.rows[u.cursor := row],
       col := if u.col + 1 < u.width then u.col + 1 else u.col,
       wrap := u.col + 1 >= u.width)
  }

  /** The margins cover rows `top` to `bottom`: the region moves up a row, a blank row enters at the bottom. */
  function ScrollUp(rows: seq<seq<Cell>>, top: int, bottom: int, blank: seq<Cell>): (r: seq<seq<Cell>>)
    requires 0 <= top <= bottom < |rows|
    ensures |r| == |rows|
    ensures IsGrid(rows, |blank|) ==> IsGrid(r, |blank|)
  {
    rows[..top] + rows[top + 1..bottom + 1] + [blank] + rows[bottom + 1..]
  }

  /** The region moves down a row, a blank row enters at the top. */
  function ScrollDown(rows: seq<seq<Cell>>, top: int, bottom: int, blank: seq<Cell>): (r: seq<seq<Cell>>)
    requires 0 <= top <= bottom < |rows|
    ensures |r| == |rows|
    ensures IsGrid(rows, |blank|) ==> IsGrid(r, |blank|)
  {
    rows[..top] + [blank] + rows[top..bottom] + rows[bottom + 1..]
  }

  /** The effect of one control on the terminal. */
  function Apply(t: Vt, c: Control): (r: Vt)
    requires VtValid(t)
    ensures VtValid(r) && r.width == t.width && |r.rows| == |t.rows|
  {
    var h := |t.rows|;
    match c
    case Margins(a, b) =>
      // Margins that do not enclose at least two rows are ignored; set margins home the cursor.
      if 0 <= a < b < h then t.(top := a, bottom := b, cursor := 0, col := 0, wrap := false) else t
    case Home(row) =>
      t.(cursor := Clamp(row, h), col := 0, wrap := false)
    case Index =>
      if t.cursor == t.bottom then t.(rows := ScrollUp(t.rows, t.top, t.bottom, BlankRow(t.width)))
      else if t.cursor < h - 1 then t.(cursor := t.cursor + 1)
      else t
    case ReverseIndex =>
      if t.cursor == t.top then t.(rows := ScrollDown(t.rows, t.top, t.bottom, BlankRow(t.width)))
      else if t.cursor > 0 then t.(cursor := t.cursor - 1)
      else t
    case ResetMargins =>
      t.(top := 0, bottom := h - 1, cursor := 0, col := 0, wrap := false)
    case CursorTo(y, x) =>
      t.(cursor := Clamp(y, h), col := Clamp(x, t.width), wrap := false)
    case CursorForward(n) =>
      // A zero count moves one column, as a count of one does.
      t.(col := Min(t.col + Max(n, 1), t.width - 1), wrap := false)
    case CursorColumn(x) =>
      t.(col := Clamp(x, t.width), wrap := false)
    case Rendition(attr) =>
      t.(pen := attr & SHOWN_ATTRS)
    case Print(glyph) =>
      PutGlyph(t, glyph)
  }

  /** The controls applied in order. */
  function Run(t: Vt, cs: seq<Control>): (r: Vt)
    requires VtValid(t)
    ensures VtValid(r) && r.width == t.width && |r.rows| == |t.rows|
  {
    if cs == [] then t else Apply(Run(t, cs[..|cs| - 1]), cs[|cs| - 1])
  }

  /** `k` copies of a control. */
  function Times(c: Control, k: nat): (cs: seq<Control>)
    ensures |cs| == k && forall i :: 0 <= i < k ==> cs[i] == c
  {
    if k == 0 then [] else Times(c, k - 1) + [c]
  }

  /** The controls of a shift of rows `y0..y1` by `n`, in the order `draw_region_shift` sends them. */
  function ShiftControls(y0: int, y1: int, n: int): (cs: seq<Control>)
  {
    if n == 0 then []
    else if n < 0 then [Margins(y0, y1), Home(y0)] + Times(ReverseIndex, -n) + [ResetMargins]
    else [Margins(y0, y1), Home(y1)] + Times(Index, n) + [ResetMargins]
  }

  /** The cache's unit shift up is the terminal's scroll up. */
  lemma ShiftUpIsScrollUp(rows: seq<seq<Cell>>, top: int, bottom: int, blank: seq<Cell>)
    requires 0 <= top < bottom < |rows|
    ensures Shifted(rows, top, bottom, 1, blank) == ScrollUp(rows, top, bottom, blank)
  {
    var a, b := Shifted(rows, top, bottom, 1, blank), ScrollUp(rows, top, bottom, blank);
    forall i | 0 <= i < |rows| ensures a[i] == b[i] {
      if i < top {
      } else if i < bottom {
        assert b[i] == rows[top + 1..bottom + 1][i - top];
      } else if i == bottom {
      } else {
        assert b[i] == rows[bottom + 1..][i - bottom - 1];
      }
    }
  }

  /** The cache's unit shift down is the terminal's scroll down. */
  lemma ShiftDownIsScrollDown(rows: seq<seq<Cell>>, top: int, bottom: int, blank: seq<Cell>)
    requires 0 <= top < bottom < |rows|
    ensures Shifted(rows, top, bottom, -1, blank) == ScrollDown(rows, top, bottom, blank)
  {
    var a, b := Shifted(rows, top, bottom, -1, blank), ScrollDown(rows, top, bottom, blank);
    forall i | 0 <= i < |rows| ensures a[i] == b[i] {
      if i < top {
      } else if i == top {
      } else if i <= bottom {
        assert b[i] == rows[top..bottom][i - top - 1];
      } else {
        assert b[i] == rows[bottom + 1..][i - bottom - 1];
      }
    }
  }

  /** Running two lists of controls one after the other is running their concatenation. */
  lemma {:induction false} RunAppend(t: Vt, a: seq<Control>, b: seq<Control>)
    requires VtValid(t)
    ensures Run(t, a + b) == Run(Run(t, a), b)
    decreases |b|
  {
    if b == [] {
      assert a + b == a;
    } else {
      var ab := a + b;
      assert ab[..|ab| - 1] == a + b[..|b| - 1] && ab[|ab| - 1] == b[|b| - 1];
      RunAppend(t, a, b[..|b| - 1]);
    }
  }

  /**
   * With the margins on two rows or more and the cursor on the margin the
   * scroll starts from, `k` indexes (or reverse indexes) scroll the region `k`
   * times and leave the margins and the cursor where they are.
   */
  lemma {:induction false} RunScrolls(u: Vt, c: Control, k: nat)
    requires VtValid(u) && (c == Index || c == ReverseIndex)
    requires u.top < u.bottom && u.cursor == (if c == Index then u.bottom else u.top)
    ensures var r := Run(u, Times(c, k));
            && r.top == u.top && r.bottom == u.bottom && r.cursor == u.cursor
            && r.rows == UnitShifts(u.rows, u.top, u.bottom, c == Index, k, BlankRow(u.width))
    decreases k
  {
    if k > 0 {
      RunScrolls(u, c, k - 1);
      var cs := Times(c, k);
      assert cs[..k - 1] == Times(c, k - 1);
      ScrollStep(Run(u, Times(c, k - 1)), c, u.top, u.bottom);
    }
  }

  /** One index at the bottom margin (or reverse index at the top one) is one unit shift of the region. */
  lemma ScrollStep(v: Vt, c: Control, top: int, bottom: int)
    requires VtValid(v) && (c == Index || c == ReverseIndex)
    requires v.top == top < v.bottom == bottom && v.cursor == (if c == Index then bottom else top)
    ensures var r := Apply(v, c);
            && r.top == top && r.bottom == bottom && r.cursor == v.cursor
            && r.rows == Shifted(v.rows, top, bottom, if c == Index then 1 else -1, BlankRow(v.width))
  {
    if c == Index {
      ShiftUpIsScrollUp(v.rows, top, bottom, BlankRow(v.width));
    } else {
      ShiftDownIsScrollDown(v.rows, top, bottom, BlankRow(v.width));
    }
  }

  /**
   * The escape for a band of two rows or more does to the terminal exactly what
   * `draw_region_shift` does to its record of the screen: `|n|` unit shifts of
   * the band, after which scrolling covers the whole screen again.
   */
  lemma ShiftControlsOnTerminal(t: Vt, y0: int, y1: int, n: int)
    requires VtValid(t) && 0 <= y0 < y1 < |t.rows|
    ensures var r := Run(t, ShiftControls(y0, y1, n));
            && r.rows == UnitShifts(t.rows, y0, y1, n > 0, Abs(n), BlankRow(t.width))
            && (n != 0 ==> r.top == 0 && r.bottom == |t.rows| - 1 && r.cursor == 0)
  {
    if n != 0 {
      var c := if n > 0 then Index else ReverseIndex;
      var row := if n > 0 then y1 else y0;
      var prefix := [Margins(y0, y1), Home(row)];
      MarginsThenHome(t, y0, y1, row);
      var u := Run(t, prefix);
      assert u.rows == t.rows && u.top == y0 && u.bottom == y1 && u.cursor == row && u.width == t.width;
      RunScrolls(u, c, Abs(n));
      var body := prefix + Times(c, Abs(n));
      RunAppend(t, prefix, Times(c, Abs(n)));
      var mid := Run(t, body);
      assert mid.rows == UnitShifts(t.rows, y0, y1, n > 0, Abs(n), BlankRow(t.width));
      var cs := ShiftControls(y0, y1, n);
      assert cs == body + [ResetMargins];
      assert cs[..|cs| - 1] == body;
      var r := Run(t, cs);
      assert r == Apply(mid, ResetMargins);
      assert r.rows == mid.rows && r.top == 0 && r.bottom == |t.rows| - 1 && r.cursor == 0;
    }
  }

  /** Setting margins of two rows or more and then homing to a row inside them. */
  lemma MarginsThenHome(t: Vt, y0: int, y1: int, row: int)
    requires VtValid(t) && 0 <= y0 < y1 < |t.rows| && y0 <= row <= y1
    ensures Run(t, [Margins(y0, y1), Home(row)]) == t.(top := y0, bottom := y1, cursor := row, col := 0, wrap := false)
  {
    var cs := [Margins(y0, y1), Home(row)];
    var first := [Margins(y0, y1)];
    assert cs[..1] == first && first[..0] == [];
    assert Run(t, first[..0]) == t;
    var m := Run(t, first);
    assert m == t.(top := y0, bottom := y1, cursor := 0, col := 0, wrap := false);
    assert Run(t, cs) == Apply(m, Home(row));
  }

  /* ---------- A band of one row ---------- */

  /**
   * The controls as sent for a band of a single row: on a two-row terminal
   * with an `x` on the bottom row, shifting row 1 alone up by one.  The
   * margins 2;2 enclose one row and are ignored, the cursor goes to the
   * bottom row, which is the bottom margin of the whole screen, and the index
   * scrolls the whole screen: the `x` moves to row 0.  The record of the
   * screen caps the shift at `y1 - y0`, which is 0, and keeps both rows.
   */
  lemma SingleRowBandScrollsScreen()
    ensures var x := Cell("x", 1, 0, DEFAULT_COLOUR, DEFAULT_COLOUR);
            var t := Vt(1, [[Blank], [x]], 0, 1, 0, 0, false, 0);
            && VtValid(t)
            && Run(t, ShiftControls(1, 1, 1)).rows == [[x], [Blank]]
            && UnitShifts(t.rows, 1, 1, true, 1, BlankRow(1)) == [[Blank], [x]]
            && Run(t, ShiftControls(1, 1, 1)).rows != UnitShifts(t.rows, 1, 1, true, 1, BlankRow(1))
  {
    var x := Cell("x", 1, 0, DEFAULT_COLOUR, DEFAULT_COLOUR);
    var t := Vt(1, [[Blank], [x]], 0, 1, 0, 0, false, 0);
    var cs := ShiftControls(1, 1, 1);
    assert cs == [Margins(1, 1), Home(1), Index, ResetMargins];
    MarginsThenHomeIgnored(t, 1, 1);
    var u := t.(cursor := 1, col := 0, wrap := false);
    assert Run(t, cs[..2]) == u by { assert cs[..2] == [Margins(1, 1), Home(1)]; }
    assert cs[..3][..2] == cs[..2];
    assert Run(t, cs[..3]) == Apply(u, Index);
    assert BlankRow(1) == [Blank];
    assert t.rows[..0] == [] && t.rows[1..2] == [[x]] && t.rows[2..] == [];
    assert ScrollUp(t.rows, 0, 1, BlankRow(1)) == [[x], [Blank]];
    assert Run(t, cs).rows == [[x], [Blank]];
    var s := Shifted(t.rows, 1, 1, 1, BlankRow(1));
    assert s == t.rows;
    assert UnitShifts(t.rows, 1, 1, true, 0, BlankRow(1)) == t.rows;
    assert x != Blank;
    assert [[x], [Blank]][0] != [[Blank], [x]][0];
  }

  /** Margins around a single row are ignored, so only the homing takes effect. */
  lemma MarginsThenHomeIgnored(t: Vt, y: int, row: int)
    requires VtValid(t) && 0 <= row < |t.rows|
    ensures Run(t, [Margins(y, y), Home(row)]) == t.(cursor := row, col := 0, wrap := false)
  {
    var cs := [Margins(y, y), Home(row)];
    var first := [Margins(y, y)];
    assert cs[..1] == first && first[..0] == [];
    assert Run(t, first[..0]) == t;
    assert Run(t, first) == t;
  }

  /** Shifting a band of one row changes nothing: the shift is capped at `y1 - y0`. */
  lemma {:induction false} UnitShiftsSingleRow(rows: seq<seq<Cell>>, y: int, up: bool, k: nat, blank: seq<Cell>)
    requires 0 <= y < |rows|
    ensures UnitShifts(rows, y, y, up, k, blank) == rows
    decreases k
  {
    if k > 0 {
      UnitShiftsSingleRow(rows, y, up, k - 1, blank);
      var s := Shifted(rows, y, y, if up then 1 else -1, blank);
      assert forall i :: 0 <= i < |rows| ==> s[i] == rows[i];
    }
  }

  /**
   * The controls of a band shift as they should be sent: nothing for a band
   * of one row, whose recorded shift moves nothing.
   */
  function BandControls(y0: int, y1: int, n: int): (cs: seq<Control>)
    ensures y0 < y1 ==> cs == ShiftControls(y0, y1, n)
    ensures y1 <= y0 ==> cs == []
  {
    if y1 <= y0 then [] else ShiftControls(y0, y1, n)
  }

  /**
   * For every band inside the screen, the corrected controls do to the
   * terminal what the shift does to the record of the screen, and leave the
   * whole screen as the scrolling region.
   */
  lemma BandControlsOnTerminal(t: Vt, y0: int, y1: int, n: int)
    requires VtValid(t) && 0 <= y0 <= y1 < |t.rows|
    ensures var r := Run(t, BandControls(y0, y1, n));
            && r.rows == UnitShifts(t.rows, y0, y1, n > 0, Abs(n), BlankRow(t.width))
            && r.width == t.width
            && (t.top == 0 && t.bottom == |t.rows| - 1 ==> r.top == 0 && r.bottom == |t.rows| - 1)
  {
    if y0 < y1 {
      ShiftControlsOnTerminal(t, y0, y1, n);
      if n == 0 {
        assert ShiftControls(y0, y1, n) == [];
      }
    } else {
      UnitShiftsSingleRow(t.rows, y0, n > 0, Abs(n), BlankRow(t.width));
    }
  }

  /* ---------- What the terminal shows ---------- */

  /** Two grids of the same shape whose cells look alike, place by place. */
  ghost predicate LooksGrid(a: seq<seq<Cell>>, b: seq<seq<Cell>>)
  {
    && |a| == |b|
    && (forall y :: 0 <= y < |a| ==> |a[y]| == |b[y]|)
    && (forall y, x :: 0 <= y < |a| && 0 <= x < |a[y]| ==> Looks(a[y][x], b[y][x]))
  }

  /** Shifting the same band of two grids that look alike keeps them alike. */
  lemma LooksShifted(a: seq<seq<Cell>>, b: seq<seq<Cell>>, y0: int, y1: int, n: int, blank: seq<Cell>)
    requires LooksGrid(a, b) && 0 <= y0 <= y1 < |a|
    ensures LooksGrid(Shifted(a, y0, y1, n, blank), Shifted(b, y0, y1, n, blank))
  {
    var sa, sb := Shifted(a, y0, y1, n, blank), Shifted(b, y0, y1, n, blank);
    forall y | 0 <= y < |sa|
      ensures |sa[y]| == |sb[y]| && forall x :: 0 <= x < |sa[y]| ==> Looks(sa[y][x], sb[y][x])
    {
    }
  }

  lemma {:induction false} LooksUnitShifts(a: seq<seq<Cell>>, b: seq<seq<Cell>>, y0: int, y1: int, up: bool, k: nat, blank: seq<Cell>)
    requires LooksGrid(a, b) && 0 <= y0 <= y1 < |a|
    ensures LooksGrid(UnitShifts(a, y0, y1, up, k, blank), UnitShifts(b, y0, y1, up, k, blank))
    decreases k
  {
    if k > 0 {
      LooksUnitShifts(a, b, y0, y1, up, k - 1, blank);
      LooksShifted(UnitShifts(a, y0, y1, up, k - 1, blank), UnitShifts(b, y0, y1, up, k - 1, blank),
                   y0, y1, if up then 1 else -1, blank);
    }
  }

  /** The cursor just past a glyph printed at (y, x): one column on, or on it with the wrap pending. */
  predicate CursorAfter(t: Vt, y: int, x: int)
  {
    t.cursor == y && (if x + 1 < t.width then t.col == x + 1 && !t.wrap else t.col == x && t.wrap)
  }

  /** The next glyph printed lands on (y, x). */
  predicate ReadyAt(t: Vt, y: int, x: int)
  {
    || (t.cursor == y && t.col == x && !t.wrap)
    || (x == 0 && t.wrap && t.cursor == y - 1 && t.cursor != t.bottom && t.col == t.width - 1)
  }

  /** A glyph printed when the cursor is ready at (y, x) replaces that cell and nothing else. */
  lemma PrintAt(t: Vt, y: int, x: int, glyph: string)
    requires VtValid(t) && 0 <= y < |t.rows| && 0 <= x < t.width && ReadyAt(t, y, x)
    ensures var r := Apply(t, Print(glyph));
            && r.rows == t.rows[y := t.rows[y][x := Printed(glyph, t.pen)]]
            && CursorAfter(r, y, x)
            && r.top == t.top && r.bottom == t.bottom && r.pen == t.pen
  {
    if t.wrap {
      assert NewLine(t) == t.(cursor := y, col := 0, wrap := false);
    }
  }
}
