/**
 * A Region (lib/region.js): a mutable width x height grid of Cells, plus a
 * stack of scroll hints recording row shifts for the Draw engine.
 *
 * Grapheme segmentation and `wcswidth` are external: writers hand in
 * `Grapheme` values that already carry their measured width.
 */
module Regions {
  import opened Wrappers
  import opened Cells
  import opened Strings

  /** One grapheme cluster and the column width measured for it. */
  datatype Grapheme = Grapheme(text: string, width: int)

  /**
   * A scroll hint: rows `y0..y1` (inclusive) of a region `width` columns wide
   * were shifted by `n` rows (n > 0: up, towards row 0; n < 0: down).
   */
  datatype Hint = Hint(width: int, y0: int, y1: int, n: int)

  datatype Point = Point(x: int, y: int)

  function BlankRow(w: nat): (r: seq<Cell>)
    ensures |r| == w && forall i :: 0 <= i < w ==> r[i] == Blank
  {
    seq(w, _ => Blank)
  }

  function BlankGrid(w: nat, h: nat): (g: seq<seq<Cell>>)
    ensures |g| == h && forall y :: 0 <= y < h ==> g[y] == BlankRow(w)
  {
    seq(h, _ => BlankRow(w))
  }

  /** Every row is `w` cells long. */
  predicate IsGrid(rows: seq<seq<Cell>>, w: nat)
  {
    forall y :: 0 <= y < |rows| ==> |rows[y]| == w
  }

  /** A hint recorded on a region of this size, still valid against it. */
  predicate HintFits(h: Hint, w: nat, ht: nat)
  {
    h.width == w && 0 <= h.y0 <= h.y1 < ht
  }

  /**
   * The band `y0..y1` of `rows` shifted by `n`, as `_shift_rows` does it: the
   * shift amount is `min(y1 - y0, |n|)`, the rows vacated inside the band
   * become `blank`, and every row outside the band stays where it is.
   */
  function Shifted(rows: seq<seq<Cell>>, y0: int, y1: int, n: int, blank: seq<Cell>): (r: seq<seq<Cell>>)
    requires 0 <= y0 <= y1 < |rows|
    ensures |r| == |rows|
    ensures IsGrid(rows, |blank|) ==> IsGrid(r, |blank|)
  {
    var an := Min(y1 - y0, Abs(n));
    seq(|rows|, i requires 0 <= i < |rows| =>
      if i < y0 || y1 < i then rows[i]
      else if n > 0 then (if i <= y1 - an then rows[i + an] else blank)
      else if n < 0 then (if i < y0 + an then blank else rows[i - an])
      else rows[i])
  }

  /**
   * Record a shift in the hint stack: a shift over the same width and rows as
   * the hint on top is merged into it by adding the amounts, any other shift
   * is pushed as a new hint.
   */
  function RecordHint(hints: seq<Hint>, h: Hint): (r: seq<Hint>)
    ensures 1 <= |r| && |hints| <= |r| <= |hints| + 1
    ensures r[|r| - 1].width == h.width && r[|r| - 1].y0 == h.y0 && r[|r| - 1].y1 == h.y1
  {
    if |hints| > 0 && hints[|hints| - 1].width == h.width
       && hints[|hints| - 1].y0 == h.y0 && hints[|hints| - 1].y1 == h.y1
    then hints[..|hints| - 1] + [hints[|hints| - 1].(n := hints[|hints| - 1].n + h.n)]
    else hints + [h]
  }

  /**
   * The grid after `resize(w, h)`: rows and columns are truncated or grown,
   * the overlap with the old grid keeps its cells and new cells are blank.
   */
  function Resized(rows: seq<seq<Cell>>, w: nat, h: nat): (r: seq<seq<Cell>>)
    ensures |r| == h && IsGrid(r, w)
  {
    seq(h, y requires 0 <= y < h =>
      seq(w, x requires 0 <= x < w =>
        if y < |rows| && x < |rows[y]| then rows[y][x] else Blank))
  }

  /** The columns a write of a glyph measured `w` wide advances by (`_chr`'s result). */
  function Advance(w: int): int
  {
    PutGlyph(Blank, "", w).1
  }

  /** The cell `_chr(x, y, ch, w, fmt)` leaves behind: cleared, formatted, then given the glyph. */
  function Written(ch: string, w: int, fmt: Format): (c: Cell)
    ensures c.fg == DEFAULT_COLOUR && c.bg == DEFAULT_COLOUR && c.attr == FormatAttr(fmt)
    ensures c.width == Advance(w) && c.width != 0
  {
    PutGlyph(ApplyFormat(Clear(Blank), fmt), ch, w).0
  }

  /**
   * `str` on one row: each grapheme is written at the running column, which
   * advances by the grapheme's width; a grapheme whose column is outside the
   * row is dropped and does not advance it.  Returns the new row and the
   * total advance.
   */
  function WriteRow(row: seq<Cell>, x: int, gs: seq<Grapheme>, fmt: Format): (r: (seq<Cell>, int))
    ensures |r.0| == |row|
    decreases |gs|
  {
    if gs == [] then (row, 0)
    else if 0 <= x < |row| then
      var a := Advance(gs[0].width);
      var rest := WriteRow(row[x := Written(gs[0].text, gs[0].width, fmt)], x + a, gs[1..], fmt);
      (rest.0, a + rest.1)
    else WriteRow(row, x, gs[1..], fmt)
  }

  /**
   * `vstr`: each grapheme is written at the running row, which advances by
   * one for every grapheme actually written.
   */
  function WriteColumn(rows: seq<seq<Cell>>, w: nat, x: int, y: int, gs: seq<Grapheme>, fmt: Format)
    : (r: (seq<seq<Cell>>, int))
    requires IsGrid(rows, w)
    ensures |r.0| == |rows| && IsGrid(r.0, w)
    decreases |gs|
  {
    if gs == [] then (rows, 0)
    else if 0 <= x < w && 0 <= y < |rows| then
      var rest := WriteColumn(rows[y := rows[y][x := Written(gs[0].text, gs[0].width, fmt)]],
                              w, x, y + 1, gs[1..], fmt);
      (rest.0, 1 + rest.1)
    else WriteColumn(rows, w, x, y, gs[1..], fmt)
  }

  /**
   * Two shifts of the same band compose: shifting by `m` and then by one more
   * row in the same direction is shifting by `m + 1`, as long as `m + 1` does
   * not exceed `y1 - y0` (beyond that `_shift_rows` caps the amount).
   */
  lemma ShiftedStep(rows: seq<seq<Cell>>, y0: int, y1: int, m: int, blank: seq<Cell>)
    requires 0 <= y0 <= y1 < |rows| && m != 0 && Abs(m) + 1 <= y1 - y0
    ensures var unit := if m > 0 then 1 else -1;
            Shifted(Shifted(rows, y0, y1, m, blank), y0, y1, unit, blank)
              == Shifted(rows, y0, y1, m + unit, blank)
  {
  }

  /** `k` unit shifts of the band, upwards when `up` holds and downwards otherwise. */
  function UnitShifts(rows: seq<seq<Cell>>, y0: int, y1: int, up: bool, k: nat, blank: seq<Cell>)
    : (r: seq<seq<Cell>>)
    requires 0 <= y0 <= y1 < |rows|
    ensures |r| == |rows|
    ensures forall i :: 0 <= i < |rows| && (i < y0 || y1 < i) ==> r[i] == rows[i]
    ensures IsGrid(rows, |blank|) ==> IsGrid(r, |blank|)
    decreases k
  {
    if k == 0 then rows
    else Shifted(UnitShifts(rows, y0, y1, up, k - 1, blank), y0, y1, if up then 1 else -1, blank)
  }

  /**
   * Replaying a hint as `k` unit shifts gives the same rows as the single
   * shift by `k` (or `-k`) that recorded it, whenever `k` is at most `y1 - y0`.
   */
  lemma {:induction false} UnitShiftsAgree(rows: seq<seq<Cell>>, y0: int, y1: int, up: bool, k: nat, blank: seq<Cell>)
    requires 0 <= y0 <= y1 < |rows| && 1 <= k <= y1 - y0
    ensures UnitShifts(rows, y0, y1, up, k, blank) == Shifted(rows, y0, y1, if up then k else -(k as int), blank)
    decreases k
  {
    if k > 1 {
      UnitShiftsAgree(rows, y0, y1, up, k - 1, blank);
      ShiftedStep(rows, y0, y1, if up then k - 1 else -(k - 1), blank);
    }
  }

  /**
   * The cap on the shift amount: shifting a band by its full height keeps its
   * last row (moved to the top, or its first row moved to the bottom) instead
   * of blanking the whole band.
   */
  lemma ShiftByBandHeightKeepsOneRow(rows: seq<seq<Cell>>, y0: int, y1: int, blank: seq<Cell>)
    requires 0 <= y0 <= y1 < |rows|
    ensures Shifted(rows, y0, y1, y1 - y0 + 1, blank)[y0] == rows[y1]
    ensures Shifted(rows, y0, y1, -(y1 - y0 + 1), blank)[y1] == rows[y0]
  {
  }

  /**
   * Two shifts of the same rows at the same width leave one hint, carrying the
   * sum of the amounts, exactly as if a single shift by the sum were recorded.
   */
  lemma RecordHintCoalesces(hints: seq<Hint>, w: int, y0: int, y1: int, n1: int, n2: int)
    ensures RecordHint(RecordHint(hints, Hint(w, y0, y1, n1)), Hint(w, y0, y1, n2))
            == RecordHint(hints, Hint(w, y0, y1, n1 + n2))
  {
    var h1 := RecordHint(hints, Hint(w, y0, y1, n1));
    assert h1[..|h1| - 1] + [h1[|h1| - 1]] == h1;
  }

  /** A hint for a different band or width is pushed: the stack grows by one and keeps the old entries. */
  lemma RecordHintPushes(hints: seq<Hint>, h: Hint)
    requires hints == [] || hints[|hints| - 1].width != h.width
             || hints[|hints| - 1].y0 != h.y0 || hints[|hints| - 1].y1 != h.y1
    ensures RecordHint(hints, h) == hints + [h]
  {
  }

  /** Resizing to the dimensions a grid already has gives the same grid. */
  lemma ResizedSameSize(rows: seq<seq<Cell>>, w: nat, h: nat)
    requires |rows| == h && IsGrid(rows, w)
    ensures Resized(rows, w, h) == rows
  {
    forall y | 0 <= y < h
      ensures Resized(rows, w, h)[y] == rows[y]
    {
    }
  }

  /**
   * Growing a grid and shrinking it back gives the original grid: the overlap
   * is never disturbed.
   */
  lemma ResizedGrowShrink(rows: seq<seq<Cell>>, w: nat, h: nat, w2: nat, h2: nat)
    requires |rows| == h && IsGrid(rows, w) && w <= w2 && h <= h2
    ensures Resized(Resized(rows, w2, h2), w, h) == rows
  {
    var big := Resized(rows, w2, h2);
    forall y | 0 <= y < h
      ensures Resized(big, w, h)[y] == rows[y]
    {
      assert |big[y]| == w2;
    }
  }

  /** Resizing twice to the same dimensions is the same as resizing once. */
  lemma ResizedIdempotent(rows: seq<seq<Cell>>, w: nat, h: nat)
    ensures Resized(Resized(rows, w, h), w, h) == Resized(rows, w, h)
  {
    ResizedSameSize(Resized(rows, w, h), w, h);
  }

  /** Narrow graphemes: every measured width is 1, or 0 or -1 (shown as a one-column picture). */
  predicate AllNarrow(gs: seq<Grapheme>)
  {
    forall i :: 0 <= i < |gs| ==> -1 <= gs[i].width <= 1
  }

  /**
   * `str` of narrow graphemes from a column `x >= 0` writes one column per
   * grapheme until the row ends, so it returns how many fitted.
   */
  lemma {:induction false} WriteRowNarrow(row: seq<Cell>, x: int, gs: seq<Grapheme>, fmt: Format)
    requires 0 <= x && AllNarrow(gs)
    ensures WriteRow(row, x, gs, fmt).1 == Min(|gs|, Max(|row| - x, 0))
    decreases |gs|
  {
    if gs != [] {
      assert AllNarrow(gs[1..]) by {
        forall i | 0 <= i < |gs[1..]| ensures -1 <= gs[1..][i].width <= 1 {
          assert gs[1..][i] == gs[i + 1];
        }
      }
      if x < |row| {
        var row' := row[x := Written(gs[0].text, gs[0].width, fmt)];
        WriteRowNarrow(row', x + 1, gs[1..], fmt);
      } else {
        WriteRowNarrow(row, x, gs[1..], fmt);
      }
    }
  }

  /**
   * Narrow graphemes written from a column `x >= 0` land one per column: each
   * column `k` they reach shows grapheme `k - x`, and every other cell of the
   * row is left as it was.
   */
  lemma {:induction false} WriteRowNarrowCells(row: seq<Cell>, x: int, gs: seq<Grapheme>, fmt: Format)
    requires 0 <= x && AllNarrow(gs)
    ensures forall k :: 0 <= k < |row| ==>
              WriteRow(row, x, gs, fmt).0[k]
              == (if x <= k < x + |gs| then Written(gs[k - x].text, gs[k - x].width, fmt) else row[k])
    decreases |gs|
  {
    if gs != [] {
      assert AllNarrow(gs[1..]) by {
        forall i | 0 <= i < |gs[1..]| ensures -1 <= gs[1..][i].width <= 1 {
          assert gs[1..][i] == gs[i + 1];
        }
      }
      if x < |row| {
        var row' := row[x := Written(gs[0].text, gs[0].width, fmt)];
        WriteRowNarrowCells(row', x + 1, gs[1..], fmt);
      } else {
        WriteRowNarrowCells(row, x, gs[1..], fmt);
      }
    }
  }

  /** The columns `str` from column `x` writes in a row `n` cells wide. */
  function Touched(n: nat, x: int, gs: seq<Grapheme>): set<int>
    decreases |gs|
  {
    if gs == [] then {}
    else if 0 <= x < n then {x} + Touched(n, x + Advance(gs[0].width), gs[1..])
    else Touched(n, x, gs[1..])
  }

  /**
   * Where `str` writes, and what it writes there, does not depend on what the
   * row held: two rows of one length come out equal on the columns written
   * and unchanged on the others.
   */
  lemma {:induction false} WriteRowFrame(r1: seq<Cell>, r2: seq<Cell>, x: int, gs: seq<Grapheme>, fmt: Format)
    requires |r1| == |r2|
    ensures forall k :: 0 <= k < |r1| ==>
              if k in Touched(|r1|, x, gs) then WriteRow(r1, x, gs, fmt).0[k] == WriteRow(r2, x, gs, fmt).0[k]
              else WriteRow(r1, x, gs, fmt).0[k] == r1[k] && WriteRow(r2, x, gs, fmt).0[k] == r2[k]
    decreases |gs|
  {
    if gs != [] {
      if 0 <= x < |r1| {
        var c := Written(gs[0].text, gs[0].width, fmt);
        WriteRowFrame(r1[x := c], r2[x := c], x + Advance(gs[0].width), gs[1..], fmt);
      } else {
        WriteRowFrame(r1, r2, x, gs[1..], fmt);
      }
    }
  }

  /** Writing the same graphemes at the same place a second time changes nothing. */
  lemma WriteRowTwice(row: seq<Cell>, x: int, gs: seq<Grapheme>, fmt: Format)
    ensures WriteRow(WriteRow(row, x, gs, fmt).0, x, gs, fmt).0 == WriteRow(row, x, gs, fmt).0
  {
    var once := WriteRow(row, x, gs, fmt).0;
    WriteRowFrame(once, row, x, gs, fmt);
  }

  /** The row a line of text is drawn into: written from column 0 over a cleared row. */
  function LineRow(line: string, segment: string -> seq<Grapheme>, fmt: Format, w: nat): (r: seq<Cell>)
    ensures |r| == w
  {
    WriteRow(BlankRow(w), 0, segment(line), fmt).0
  }

  /** Widths as `wcswidth` measures them: -1 for unprintable clusters, otherwise at least 0. */
  predicate Measured(gs: seq<Grapheme>)
  {
    forall i :: 0 <= i < |gs| ==> gs[i].width >= -1
  }

  /** Cells left of the starting column are never written by `str`. */
  lemma {:induction false} WriteRowKeepsLeft(row: seq<Cell>, x: int, gs: seq<Grapheme>, fmt: Format)
    requires Measured(gs)
    ensures forall i :: 0 <= i < |row| && i < x ==> WriteRow(row, x, gs, fmt).0[i] == row[i]
    decreases |gs|
  {
    if gs != [] {
      assert Measured(gs[1..]) by {
        forall i | 0 <= i < |gs[1..]| ensures gs[1..][i].width >= -1 {
          assert gs[1..][i] == gs[i + 1];
        }
      }
      if 0 <= x < |row| {
        var row' := row[x := Written(gs[0].text, gs[0].width, fmt)];
        WriteRowKeepsLeft(row', x + Advance(gs[0].width), gs[1..], fmt);
      } else {
        WriteRowKeepsLeft(row, x, gs[1..], fmt);
      }
    }
  }

  /**
   * `vstr` from a column inside the grid and a row `y >= 0` writes one
   * grapheme per row until the grid ends, so it returns how many fitted.
   */
  lemma {:induction false} WriteColumnCount(rows: seq<seq<Cell>>, w: nat, x: int, y: int, gs: seq<Grapheme>, fmt: Format)
    requires IsGrid(rows, w) && 0 <= x < w && 0 <= y
    ensures WriteColumn(rows, w, x, y, gs, fmt).1 == Min(|gs|, Max(|rows| - y, 0))
    decreases |gs|
  {
    if gs != [] {
      if y < |rows| {
        var rows' := rows[y := rows[y][x := Written(gs[0].text, gs[0].width, fmt)]];
        WriteColumnCount(rows', w, x, y + 1, gs[1..], fmt);
      } else {
        WriteColumnCount(rows, w, x, y, gs[1..], fmt);
      }
    }
  }

  /** `vstr` outside the columns of the grid writes nothing. */
  lemma {:induction false} WriteColumnOutside(rows: seq<seq<Cell>>, w: nat, x: int, y: int, gs: seq<Grapheme>, fmt: Format)
    requires IsGrid(rows, w) && !(0 <= x < w)
    ensures WriteColumn(rows, w, x, y, gs, fmt) == (rows, 0)
    decreases |gs|
  {
    if gs != [] {
      WriteColumnOutside(rows, w, x, y, gs[1..], fmt);
    }
  }

  /**
   * Four control characters (each measured -1 wide) written from column 0 of
   * a row wide enough advance four columns, one picture each.
   */
  lemma StrOfFourControls(row: seq<Cell>, fmt: Format)
    requires |row| >= 4
    ensures WriteRow(row, 0, seq(4, i => Grapheme(['\U{01}'], -1)), fmt).1 == 4
  {
    WriteRowNarrow(row, 0, seq(4, i => Grapheme(['\U{01}'], -1)), fmt);
  }

  class Region {
    var width: nat
    var height: nat
    /** `r_rows`: `height` rows of `width` cells each. */
    var rows: seq<seq<Cell>>
    /** `r_hints`: the hint stack, most recent last. */
    var hints: seq<Hint>

    ghost predicate Valid()
      reads this
    {
      |rows| == height && IsGrid(rows, width)
      && forall i :: 0 <= i < |hints| ==> HintFits(hints[i], width, height)
    }

    /**
     * `new Region({ width: w, height: h })`, where 0 stands for an absent or
     * zero option: either dimension then defaults to 1.
     */
    constructor (w: nat, h: nat)
      ensures Valid()
      ensures width == (if w == 0 then 1 else w) && height == (if h == 0 then 1 else h)
      ensures rows == BlankGrid(width, height) && hints == []
    {
      var cw: nat := if w == 0 then 1 else w;
      var ch: nat := if h == 0 then 1 else h;
      var rs: seq<seq<Cell>> := [];
      while |rs| < ch
        invariant |rs| <= ch
        invariant forall y :: 0 <= y < |rs| ==> rs[y] == BlankRow(cw)
      {
        var col := NewBlankRow(cw);
        rs := rs + [col];
      }
      width, height := cw, ch;
      hints := [];
      rows := rs;
    }

    /** `pop_hint`: remove and return the most recently recorded hint, if any. */
    method PopHint() returns (r: Option<Hint>)
      requires Valid()
      modifies this`hints
      ensures Valid()
      ensures old(hints) == [] ==> r.None? && hints == []
      ensures old(hints) != [] ==> r == Some(old(hints)[|old(hints)| - 1])
                                   && hints == old(hints)[..|old(hints)| - 1]
    {
      if |hints| == 0 {
        r := None;
      } else {
        r := Some(hints[|hints| - 1]);
        hints := hints[..|hints| - 1];
      }
    }

    /** A row of `w` fresh cleared cells (`new Array(w)` filled with `new Cell()`). */
    static method NewBlankRow(w: nat) returns (row: seq<Cell>)
      ensures row == BlankRow(w)
    {
      row := [];
      var j := 0;
      while j < w
        invariant 0 <= j <= w && |row| == j
        invariant forall k :: 0 <= k < j ==> row[k] == Blank
      {
        row := row + [NewCell(None)];
        j := j + 1;
      }
    }

    /** `_shift_rows`: rebuild the row list with the band `y0..y1` shifted by `n`. */
    method ShiftRowsRaw(y0: int, y1: int, n: int)
      requires Valid() && 0 <= y0 <= y1 < height
      modifies this`rows
      ensures Valid()
      ensures rows == Shifted(old(rows), y0, y1, n, BlankRow(width))
    {
      var an := Min(y1 - y0, Abs(n));
      var rs := rows;
      ghost var s := Shifted(rs, y0, y1, n, BlankRow(width));
      var acc: seq<seq<Cell>> := [];
      var src := 0;
      while src < y0
        invariant 0 <= src <= y0 && |acc| == src
        invariant forall k :: 0 <= k < |acc| ==> acc[k] == s[k]
      {
        acc := acc + [rs[src]];
        src := src + 1;
      }
      if n > 0 {
        // Shifting up: skip the top rows of the band and copy until y1.
        src := y0 + an;
        while src <= y1
          invariant y0 + an <= src <= y1 + 1 && |acc| == src - an
          invariant forall k :: 0 <= k < |acc| ==> acc[k] == s[k]
        {
          acc := acc + [rs[src]];
          src := src + 1;
        }
      }
      var i := 0;
      while i < an
        invariant 0 <= i <= an
        invariant |acc| == (if n > 0 then y1 - an + 1 else y0) + i
        invariant forall k :: 0 <= k < |acc| ==> acc[k] == s[k]
      {
        // The newly visible rows.
        var newRow := NewBlankRow(width);
        acc := acc + [newRow];
        i := i + 1;
      }
      if n < 0 {
        // Shifting down: copy up to the rows that drop off the band.
        while src <= y1 - an
          invariant y0 <= src <= y1 - an + 1 && |acc| == src + an
          invariant forall k :: 0 <= k < |acc| ==> acc[k] == s[k]
        {
          acc := acc + [rs[src]];
          src := src + 1;
        }
        src := y1 + 1;
      }
      while src < |rs|
        invariant (if n > 0 || n < 0 then y1 + 1 else y0) <= src <= |rs| && |acc| == src
        invariant forall k :: 0 <= k < |acc| ==> acc[k] == s[k]
      {
        acc := acc + [rs[src]];
        src := src + 1;
      }
      rows := acc;
    }

    /**
     * `shift_rows(y0, y1, n)`: pin the band to the grid, then (unless n is 0)
     * record or merge a hint and shift the rows.  The source asserts that the
     * row count is unchanged afterwards, which fails exactly when the pinned
     * band is empty.
     */
    method ShiftRows(y0: int, y1: int, n: int)
      requires Valid()
      requires n != 0 ==> Max(y0, 0) <= Min(y1, height - 1)
      modifies this`rows, this`hints
      ensures Valid()
      ensures n == 0 ==> rows == old(rows) && hints == old(hints)
      ensures n != 0 ==> rows == Shifted(old(rows), Max(y0, 0), Min(y1, height - 1), n, BlankRow(width))
      ensures n != 0 ==> hints == RecordHint(old(hints), Hint(width, Max(y0, 0), Min(y1, height - 1), n))
    {
      var lo := Max(y0, 0);
      var hi := Min(y1, height - 1);
      if n == 0 {
        return;
      }
      hints := RecordHint(hints, Hint(width, lo, hi, n));
      ShiftRowsRaw(lo, hi, n);
    }

    /** `get_cell`: the cell at (x, y), or none outside the grid. */
    function GetCell(x: nat, y: nat): (c: Option<Cell>)
      requires Valid()
      reads this
      ensures c.None? <==> (x >= width || y >= height)
      ensures c.Some? ==> c.value == rows[y][x]
    {
      if x >= width || y >= height then None else Some(rows[y][x])
    }

    /** `get_cursor`: a plain region never asks for the terminal cursor. */
    function GetCursor(): (p: Option<Point>)
      ensures p.None?
    {
      None
    }

    /**
     * `resize(w, h)`: with unchanged dimensions nothing happens and no
     * 'resize' event fires (`changed` is false); otherwise the hints are
     * dropped, rows and columns are popped or pushed until the grid is h x w,
     * and the event fires.
     */
    method Resize(w: nat, h: nat) returns (changed: bool)
      requires Valid()
      modifies this
      ensures Valid()
      ensures width == w && height == h
      ensures changed <==> (w != old(width) || h != old(height))
      ensures !changed ==> rows == old(rows) && hints == old(hints)
      ensures changed ==> hints == [] && rows == Resized(old(rows), w, h)
    {
      if height == h && width == w {
        return false;
      }
      ghost var r0 := rows;
      hints := [];
      height, width := h, w;
      var rs := rows;
      while |rs| != h
        invariant Min(|r0|, h) <= |rs| <= Max(|r0|, h)
        invariant forall y :: 0 <= y < |rs| ==> rs[y] == (if y < |r0| then r0[y] else [])
        decreases if |rs| < h then h - |rs| else |rs| - h
      {
        if |rs| < h {
          rs := rs + [[]];
        } else {
          rs := rs[..|rs| - 1];
        }
      }
      var i := 0;
      while i < |rs|
        invariant 0 <= i <= |rs| == h
        invariant forall y :: 0 <= y < i ==> rs[y] == Resized(r0, w, h)[y]
        invariant forall y :: i <= y < h ==> rs[y] == (if y < |r0| then r0[y] else [])
      {
        var col := rs[i];
        ghost var c0 := col;
        while |col| != w
          invariant Min(|c0|, w) <= |col| <= Max(|c0|, w)
          invariant forall x :: 0 <= x < |col| ==> col[x] == (if x < |c0| then c0[x] else Blank)
          decreases if |col| < w then w - |col| else |col| - w
        {
          if |col| < w {
            col := col + [NewCell(None)];
          } else {
            col := col[..|col| - 1];
          }
        }
        assert col == Resized(r0, w, h)[i];
        rs := rs[i := col];
        i := i + 1;
      }
      rows := rs;
      changed := true;
    }

    /** `clear`: every cell of the grid goes back to the cleared state. */
    method Clear()
      requires Valid()
      modifies this`rows
      ensures Valid()
      ensures rows == BlankGrid(width, height)
    {
      var y := 0;
      while y < |rows|
        invariant 0 <= y <= |rows| == height && IsGrid(rows, width)
        invariant forall k :: 0 <= k < y ==> rows[k] == BlankRow(width)
      {
        var x := 0;
        while x < |rows[y]|
          invariant |rows| == height && IsGrid(rows, width) && 0 <= y < |rows|
          invariant 0 <= x <= |rows[y]| == width
          invariant forall k :: 0 <= k < y ==> rows[k] == BlankRow(width)
          invariant forall k :: 0 <= k < x ==> rows[y][k] == Blank
        {
          rows := rows[y := rows[y][x := Cells.Clear(rows[y][x])]];
          x := x + 1;
        }
        assert rows[y] == BlankRow(width);
        y := y + 1;
      }
    }

    /**
     * `_chr(x, y, ch, w, fmt)`: outside the grid (negative coordinates
     * included) nothing changes and 0 is returned; inside, the cell is cleared,
     * formatted and given the glyph, and the columns it takes are returned.
     */
    method Chr(x: int, y: int, ch: string, w: int, fmt: Format) returns (adv: int)
      requires Valid()
      modifies this`rows
      ensures Valid()
      ensures (x < 0 || y < 0 || x >= width || y >= height) ==> adv == 0 && rows == old(rows)
      ensures (0 <= x < width && 0 <= y < height) ==>
                adv == Advance(w) && adv != 0
                && rows == old(rows)[y := old(rows)[y][x := Written(ch, w, fmt)]]
    {
      if x < 0 || y < 0 || x >= width || y >= height {
        return 0;
      }
      var c := ApplyFormat(Cells.Clear(rows[y][x]), fmt);
      var put := PutGlyph(c, ch, w);
      rows := rows[y := rows[y][x := put.0]];
      adv := put.1;
    }

    /**
     * `str(x, y, graphemes, fmt)`: write the graphemes left to right from
     * (x, y), clipping at the edges, and return the columns advanced.
     */
    method Str(x: int, y: int, gs: seq<Grapheme>, fmt: Format) returns (adv: int)
      requires Valid()
      modifies this`rows
      ensures Valid()
      ensures !(0 <= y < height) ==> adv == 0 && rows == old(rows)
      ensures 0 <= y < height ==>
                adv == WriteRow(old(rows)[y], x, gs, fmt).1
                && rows == old(rows)[y := WriteRow(old(rows)[y], x, gs, fmt).0]
    {
      var cx := x;
      var i := 0;
      while i < |gs|
        invariant 0 <= i <= |gs| && Valid()
        invariant !(0 <= y < height) ==> cx == x && rows == old(rows)
        invariant 0 <= y < height ==>
                    rows == old(rows)[y := rows[y]]
                    && WriteRow(old(rows)[y], x, gs, fmt)
                       == (WriteRow(rows[y], cx, gs[i..], fmt).0, (cx - x) + WriteRow(rows[y], cx, gs[i..], fmt).1)
      {
        assert gs[i..][1..] == gs[i + 1..];
        var a := Chr(cx, y, gs[i].text, gs[i].width, fmt);
        cx := cx + a;
        i := i + 1;
      }
      adv := cx - x;
    }

    /**
     * `vstr(x, y, graphemes, fmt)`: write the graphemes downwards from (x, y),
     * moving down one row per grapheme written, and return the rows advanced.
     */
    method VStr(x: int, y: int, gs: seq<Grapheme>, fmt: Format) returns (adv: int)
      requires Valid()
      modifies this`rows
      ensures Valid()
      ensures (rows, adv) == WriteColumn(old(rows), width, x, y, gs, fmt)
    {
      var cy := y;
      var i := 0;
      while i < |gs|
        invariant 0 <= i <= |gs| && Valid()
        invariant WriteColumn(old(rows), width, x, y, gs, fmt)
                  == (WriteColumn(rows, width, x, cy, gs[i..], fmt).0,
                      (cy - y) + WriteColumn(rows, width, x, cy, gs[i..], fmt).1)
      {
        assert gs[i..][1..] == gs[i + 1..];
        var a := Chr(x, cy, gs[i].text, gs[i].width, fmt);
        if a != 0 {
          cy := cy + 1;
        }
        i := i + 1;
      }
      adv := cy - y;
    }
  }
}
