/**
 * The cell-by-cell comparison of `Draw.prototype.redraw` (lib/draw.js), as
 * facts about values: the cached screen before (`g0`) and now (`cur`), the
 * target's cells (`want`), what the loop remembers between cells, and the
 * terminal the output has been sent to.  The loops of `Screens.DiffRow` and
 * `Screens.DiffAll` keep the three predicates below; each lemma is one kind
 * of step, and `Visit` is one step as a whole.
 */
module Diffing {
  import opened Wrappers
  import opened Strings
  import opened Cells
  import opened Regions
  import opened Terminal

  /** What the loop remembers between cells: `last_attr`, `last_row`, `last_col`, `contig` and `redo`. */
  datatype Trackers = Trackers(lastAttr: Option<bv8>, lastRow: Option<int>, lastCol: Option<int>,
                               contig: bool, redo: bool)

  const START: Trackers := Trackers(None, None, None, false, false)

  /** Cell (yy, xx) comes before (y, x) in row-major order. */
  predicate Before(yy: int, xx: int, y: int, x: int)
  {
    yy < y || (yy == y && xx < x)
  }

  /** A cell that needs no output: it equals the target's and no refresh was asked for. */
  predicate Quiet(before: Cell, want: Cell, refresh: bool)
  {
    !refresh && Equals(before, want)
  }

  /** A visited cell: now the target's, or left alone because it was quiet. */
  predicate Settled(before: Cell, after: Cell, want: Cell, refresh: bool)
  {
    after == want || (after == before && Quiet(before, want, refresh))
  }

  /** Every cell of `after`, the cache once `before` was diffed against `want`, is settled. */
  ghost predicate AllSettled(before: seq<seq<Cell>>, after: seq<seq<Cell>>, want: seq<seq<Cell>>, w: nat, refresh: bool)
  {
    && Shapes(before, after, want, w)
    && forall y, x :: 0 <= y < |before| && 0 <= x < w ==> Settled(before[y][x], after[y][x], want[y][x], refresh)
  }

  /** Every cell of the cache `before` is quiet against `want`: the diff has nothing to send. */
  ghost predicate AllQuiet(before: seq<seq<Cell>>, want: seq<seq<Cell>>, w: nat, refresh: bool)
  {
    && Shapes(before, before, want, w)
    && forall y, x :: 0 <= y < |before| && 0 <= x < w ==> Quiet(before[y][x], want[y][x], refresh)
  }

  ghost predicate Shapes(g0: seq<seq<Cell>>, cur: seq<seq<Cell>>, want: seq<seq<Cell>>, w: nat)
  {
    |cur| == |g0| && |want| == |g0| && IsGrid(g0, w) && IsGrid(cur, w) && IsGrid(want, w)
  }

  /** The trackers agree with the position (y, x) the loop has reached in a w x h screen. */
  ghost predicate TrackOk(w: nat, h: nat, y: int, x: int, t: Trackers)
  {
    && 0 <= y <= h && 0 <= x <= w
    && (t.lastAttr.Some? <==> t.lastRow.Some?)
    && (t.lastRow.Some? <==> t.lastCol.Some?)
    && (t.lastRow.Some? ==>
          0 <= t.lastRow.value < h && 0 <= t.lastCol.value < w && Before(t.lastRow.value, t.lastCol.value, y, x))
    // `contig`: the last glyph written is the cell just before (y, x).
    && (t.contig ==>
          && t.lastRow.Some?
          && if x > 0 then t.lastRow.value == y && t.lastCol.value == x - 1
             else t.lastRow.value == y - 1 && t.lastCol.value == w - 1)
    // Not contiguous on the row of the last write: at least one cell was passed over.
    && (!t.contig && t.lastRow == Some(y) ==> t.lastCol.value + 1 < x)
    && (t.redo ==> t.contig && 0 < x < w)
  }

  /**
   * The cache: visited cells are settled, the rest untouched; the cells passed
   * over since the last write on this row are quiet and untouched; and nothing
   * has been written exactly when every visited cell was quiet.
   */
  ghost predicate CacheOk(g0: seq<seq<Cell>>, cur: seq<seq<Cell>>, want: seq<seq<Cell>>, refresh: bool,
                          w: nat, y: int, x: int, t: Trackers)
  {
    && Shapes(g0, cur, want, w)
    && (forall yy, xx :: 0 <= yy < |g0| && 0 <= xx < w ==>
          if Before(yy, xx, y, x) then Settled(g0[yy][xx], cur[yy][xx], want[yy][xx], refresh)
          else cur[yy][xx] == g0[yy][xx])
    && (0 <= y < |g0| && t.lastRow == Some(y) && t.lastCol.Some? ==>
          forall xx :: 0 <= xx < w && t.lastCol.value < xx < x ==>
            cur[y][xx] == g0[y][xx] && Quiet(g0[y][xx], want[y][xx], refresh))
    && (t.lastAttr.None? <==>
          forall yy, xx :: 0 <= yy < |g0| && 0 <= xx < w && Before(yy, xx, y, x) ==>
            Quiet(g0[yy][xx], want[yy][xx], refresh))
  }

  /**
   * The terminal shows the cache, scrolls over the whole screen, has its
   * cursor just past the last glyph written and prints with the last
   * attributes sent.
   */
  ghost predicate TermOk(vt: Vt, cur: seq<seq<Cell>>, w: nat, t: Trackers)
  {
    && VtValid(vt) && vt.width == w && |vt.rows| == |cur|
    && vt.top == 0 && vt.bottom == |cur| - 1
    && LooksGrid(vt.rows, cur)
    && (t.lastRow.Some? && t.lastCol.Some? ==> CursorAfter(vt, t.lastRow.value, t.lastCol.value))
    && (t.lastAttr.Some? ==> vt.pen == t.lastAttr.value & SHOWN_ATTRS)
  }

  /** The cursor movement sent before a glyph, as `redraw` chooses it (the backtrack aside). */
  function Moves(t: Trackers, y: int, x: int): seq<Control>
  {
    if t.contig then []
    else if t.lastRow == Some(y) then
      (if t.lastCol.Some? then [CursorForward(x - t.lastCol.value - 1)] else [CursorColumn(x)])
    else [CursorTo(y, x)]
  }

  /** The renditions sent before a glyph: a reset before the first one, then the glyph's attributes if they differ. */
  function Pens(last: Option<bv8>, attr: bv8): seq<Control>
  {
    (if last.None? then [Rendition(0)] else [])
      + (if (if last.None? then 0 else last.value) != attr then [Rendition(attr)] else [])
  }

  /** The gap of one that `redraw` fills by going back and writing the skipped cell. */
  predicate Backtracks(t: Trackers, y: int, x: int)
  {
    !t.contig && t.lastRow == Some(y) && t.lastCol.Some? && x - t.lastCol.value - 1 == 1
  }

  /* ---------- The start ---------- */

  lemma Start(g0: seq<seq<Cell>>, want: seq<seq<Cell>>, refresh: bool, w: nat)
    requires Shapes(g0, g0, want, w)
    ensures TrackOk(w, |g0|, 0, 0, START)
    ensures CacheOk(g0, g0, want, refresh, w, 0, 0, START)
  {
  }

  /* ---------- A quiet cell: passed over ---------- */

  lemma Skip(g0: seq<seq<Cell>>, cur: seq<seq<Cell>>, want: seq<seq<Cell>>, refresh: bool,
             w: nat, y: int, x: int, t: Trackers)
    requires TrackOk(w, |g0|, y, x, t) && CacheOk(g0, cur, want, refresh, w, y, x, t)
    requires y < |g0| && x < w && !t.redo && Quiet(cur[y][x], want[y][x], refresh)
    ensures TrackOk(w, |g0|, y, x + 1, t.(contig := false))
    ensures CacheOk(g0, cur, want, refresh, w, y, x + 1, t.(contig := false))
  {
    assert cur[y][x] == g0[y][x];
    var t' := t.(contig := false);
    forall yy, xx | 0 <= yy < |g0| && 0 <= xx < w
      ensures if Before(yy, xx, y, x + 1) then Settled(g0[yy][xx], cur[yy][xx], want[yy][xx], refresh)
              else cur[yy][xx] == g0[yy][xx]
    {
      if yy == y && xx == x {
      } else {
        assert Before(yy, xx, y, x + 1) <==> Before(yy, xx, y, x);
      }
    }
    assert (forall yy, xx :: 0 <= yy < |g0| && 0 <= xx < w && Before(yy, xx, y, x + 1) ==>
              Quiet(g0[yy][xx], want[yy][xx], refresh))
       <==> (forall yy, xx :: 0 <= yy < |g0| && 0 <= xx < w && Before(yy, xx, y, x) ==>
              Quiet(g0[yy][xx], want[yy][xx], refresh));
  }

  /* ---------- A gap of one: back up and write the skipped cell ---------- */

  lemma Back(g0: seq<seq<Cell>>, cur: seq<seq<Cell>>, want: seq<seq<Cell>>, refresh: bool,
             w: nat, y: int, x: int, t: Trackers)
    requires TrackOk(w, |g0|, y, x, t) && CacheOk(g0, cur, want, refresh, w, y, x, t)
    requires y < |g0| && x < w && Backtracks(t, y, x)
    ensures TrackOk(w, |g0|, y, x - 1, t.(contig := true, redo := true))
    ensures CacheOk(g0, cur, want, refresh, w, y, x - 1, t.(contig := true, redo := true))
  {
    // The cell passed over, x - 1, is quiet and untouched: it becomes unvisited again.
    assert cur[y][x - 1] == g0[y][x - 1] && Quiet(g0[y][x - 1], want[y][x - 1], refresh);
    forall yy, xx | 0 <= yy < |g0| && 0 <= xx < w
      ensures if Before(yy, xx, y, x - 1) then Settled(g0[yy][xx], cur[yy][xx], want[yy][xx], refresh)
              else cur[yy][xx] == g0[yy][xx]
    {
      if yy == y && xx == x - 1 {
      } else {
        assert Before(yy, xx, y, x - 1) <==> Before(yy, xx, y, x);
      }
    }
    // Something was written, so some visited cell other than x - 1 was not quiet.
    var yy, xx :| 0 <= yy < |g0| && 0 <= xx < w && Before(yy, xx, y, x) && !Quiet(g0[yy][xx], want[yy][xx], refresh);
    assert Before(yy, xx, y, x - 1);
  }

  /* ---------- Writing a cell ---------- */

  /** After the movement, the next glyph lands on (y, x); nothing shown has changed. */
  lemma MovesReady(w: nat, h: nat, y: int, x: int, t: Trackers, vt: Vt)
    requires TrackOk(w, h, y, x, t) && y < h && x < w && !Backtracks(t, y, x)
    requires VtValid(vt) && vt.width == w && |vt.rows| == h && vt.top == 0 && vt.bottom == h - 1
    requires t.lastRow.Some? && t.lastCol.Some? ==> CursorAfter(vt, t.lastRow.value, t.lastCol.value)
    ensures var r := Run(vt, Moves(t, y, x));
            && ReadyAt(r, y, x) && r.rows == vt.rows && r.pen == vt.pen && r.top == vt.top && r.bottom == vt.bottom
  {
    var ms := Moves(t, y, x);
    if ms != [] {
      assert ms[..0] == [];
      assert Run(vt, ms) == Apply(vt, ms[0]);
    }
  }

  /** After the renditions, the terminal prints with the glyph's attributes. */
  lemma PensSet(last: Option<bv8>, attr: bv8, vt: Vt)
    requires VtValid(vt) && (last.Some? ==> vt.pen == last.value & SHOWN_ATTRS)
    ensures var r := Run(vt, Pens(last, attr));
            && r == vt.(pen := r.pen) && r.pen == attr & SHOWN_ATTRS
  {
    var a := if last.None? then [Rendition(0)] else [];
    var b := if (if last.None? then 0 else last.value) != attr then [Rendition(attr)] else [];
    RunAppend(vt, a, b);
    if a != [] {
      assert a[..0] == [];
    }
    var m := Run(vt, a);
    assert m == vt.(pen := m.pen);
    assert m.pen == (if last.None? then 0 else last.value) & SHOWN_ATTRS;
    if b != [] {
      assert b[..0] == [];
    }
  }

  /** The controls sent for one written cell. */
  function Writes(t: Trackers, y: int, x: int, c: Cell): seq<Control>
  {
    Moves(t, y, x) + Pens(t.lastAttr, c.attr) + [Print(c.glyph)]
  }

  /** What the terminal does with them: the target's cell appears at (y, x) and the cursor is just past it. */
  lemma WritesOnTerminal(w: nat, h: nat, y: int, x: int, t: Trackers, vt: Vt, c: Cell)
    requires TrackOk(w, h, y, x, t) && y < h && x < w && !Backtracks(t, y, x)
    requires VtValid(vt) && vt.width == w && |vt.rows| == h && vt.top == 0 && vt.bottom == h - 1
    requires t.lastRow.Some? && t.lastCol.Some? ==> CursorAfter(vt, t.lastRow.value, t.lastCol.value)
    requires t.lastAttr.Some? ==> vt.pen == t.lastAttr.value & SHOWN_ATTRS
    ensures var r := Run(vt, Writes(t, y, x, c));
            && r.rows == vt.rows[y := vt.rows[y][x := Printed(c.glyph, c.attr & SHOWN_ATTRS)]]
            && CursorAfter(r, y, x) && r.pen == c.attr & SHOWN_ATTRS
            && VtValid(r) && r.width == w && r.top == 0 && r.bottom == h - 1
  {
    var ms, ps := Moves(t, y, x), Pens(t.lastAttr, c.attr);
    MovesReady(w, h, y, x, t, vt);
    var m := Run(vt, ms);
    PensSet(t.lastAttr, c.attr, m);
    var p := Run(m, ps);
    RunAppend(vt, ms, ps);
    RunAppend(vt, ms + ps, [Print(c.glyph)]);
    assert [Print(c.glyph)][..0] == [];
    assert Run(p, [Print(c.glyph)]) == Apply(p, Print(c.glyph));
    PrintAt(p, y, x, c.glyph);
  }

  /** Writing the target's cell at (y, x) into the cache keeps the trackers and the cache in order. */
  lemma WriteCache(g0: seq<seq<Cell>>, cur: seq<seq<Cell>>, want: seq<seq<Cell>>, refresh: bool,
                   w: nat, y: int, x: int, t: Trackers)
    requires TrackOk(w, |g0|, y, x, t) && CacheOk(g0, cur, want, refresh, w, y, x, t)
    requires y < |g0| && x < w
    requires t.redo || !Quiet(cur[y][x], want[y][x], refresh)
    ensures var c := want[y][x];
            var t' := Trackers(Some(c.attr), Some(y), Some(x), true, false);
            && TrackOk(w, |g0|, y, x + 1, t')
            && CacheOk(g0, cur[y := cur[y][x := c]], want, refresh, w, y, x + 1, t')
  {
    var c := want[y][x];
    var cur' := cur[y := cur[y][x := c]];
    forall yy, xx | 0 <= yy < |g0| && 0 <= xx < w
      ensures if Before(yy, xx, y, x + 1) then Settled(g0[yy][xx], cur'[yy][xx], want[yy][xx], refresh)
              else cur'[yy][xx] == g0[yy][xx]
    {
      if yy == y && xx == x {
      } else {
        assert cur'[yy][xx] == cur[yy][xx];
        assert Before(yy, xx, y, x + 1) <==> Before(yy, xx, y, x);
      }
    }
    // Some visited cell was not quiet: this one, or (after a backtrack) an earlier one.
    if t.redo {
      var yy, xx :| 0 <= yy < |g0| && 0 <= xx < w && Before(yy, xx, y, x) && !Quiet(g0[yy][xx], want[yy][xx], refresh);
      assert Before(yy, xx, y, x + 1);
    } else {
      assert cur[y][x] == g0[y][x];
      assert Before(y, x, y, x + 1);
    }
    assert Shapes(g0, cur', want, w);
  }

  /** Sending the controls for that cell keeps the terminal showing the cache. */
  lemma WriteTerm(cur: seq<seq<Cell>>, w: nat, y: int, x: int, t: Trackers, vt: Vt, c: Cell)
    requires TrackOk(w, |cur|, y, x, t) && TermOk(vt, cur, w, t) && IsGrid(cur, w)
    requires y < |cur| && x < w && !Backtracks(t, y, x)
    ensures TermOk(Run(vt, Writes(t, y, x, c)), cur[y := cur[y][x := c]], w,
                   Trackers(Some(c.attr), Some(y), Some(x), true, false))
  {
    var cur' := cur[y := cur[y][x := c]];
    WritesOnTerminal(w, |cur|, y, x, t, vt, c);
    var r := Run(vt, Writes(t, y, x, c));
    assert Looks(Printed(c.glyph, c.attr & SHOWN_ATTRS), c);
    forall yy, xx | 0 <= yy < |r.rows| && 0 <= xx < |r.rows[yy]|
      ensures Looks(r.rows[yy][xx], cur'[yy][xx])
    {
      if yy != y || xx != x {
        assert r.rows[yy][xx] == vt.rows[yy][xx];
        assert cur'[yy][xx] == cur[yy][xx];
      }
    }
  }

  /* ---------- One visit ---------- */

  /** Where one visit of the cell loop leaves the cache, the column, the trackers and the controls sent. */
  datatype Step = Step(cur: seq<seq<Cell>>, x: int, t: Trackers, cs: seq<Control>)

  /**
   * What the cell loop keeps whatever the screens hold: the column is not
   * left of the screen, `redo` only follows a write, and the last column
   * written is on the screen.
   */
  predicate InOrder(x: int, t: Trackers)
  {
    0 <= x && (t.redo ==> t.contig) && (t.lastCol.Some? ==> 0 <= t.lastCol.value)
  }

  /** A measure that every visit lowers: going back one cell is paid for by `redo`. */
  function Rank(w: nat, x: int, t: Trackers): int
  {
    3 * (w - (if t.redo then x + 1 else x)) + (if t.redo then 1 else if t.contig then 0 else 2)
  }

  /**
   * One visit at (x, y) whose target cell is `c`: pass over a quiet cell,
   * go back over a gap of one, or send the controls for `c` and cache it.
   * Only row y changes, and the loop always moves on.
   */
  function Visit(cur: seq<seq<Cell>>, c: Cell, refresh: bool, y: int, x: int, t: Trackers): (v: Step)
    requires 0 <= y < |cur| && 0 <= x < |cur[y]|
    ensures |v.cur| == |cur| && |v.cur[y]| == |cur[y]| && v.cur == cur[y := v.cur[y]]
    ensures InOrder(x, t) ==> InOrder(v.x, v.t) && 0 <= Rank(|cur[y]|, v.x, v.t) < Rank(|cur[y]|, x, t)
    ensures t.lastAttr.Some? ==> v.t.lastAttr.Some?
  {
    if !t.redo && Quiet(cur[y][x], c, refresh) then Step(cur, x + 1, t.(contig := false), [])
    else if Backtracks(t, y, x) then Step(cur, x - 1, t.(contig := true, redo := true), [])
    else Step(cur[y := cur[y][x := c]], x + 1, Trackers(Some(c.attr), Some(y), Some(x), true, false),
              Writes(t, y, x, c))
  }

  /** The rest of row y from column x on: visit cells until the column leaves the screen. */
  function RowRun(cur: seq<seq<Cell>>, wr: seq<Cell>, refresh: bool, y: int, x: int, t: Trackers): (s: Step)
    requires 0 <= y < |cur| && |wr| == |cur[y]| && InOrder(x, t)
    ensures |s.cur| == |cur| && |s.cur[y]| == |cur[y]| && s.cur == cur[y := s.cur[y]]
    ensures InOrder(0, s.t) && (t.lastAttr.Some? ==> s.t.lastAttr.Some?)
    decreases Rank(|wr|, x, t)
  {
    if x >= |wr| then Step(cur, x, t, [])
    else
      var v := Visit(cur, wr[x], refresh, y, x, t);
      var rest := RowRun(v.cur, wr, refresh, y, v.x, v.t);
      Step(rest.cur, rest.x, rest.t, v.cs + rest.cs)
  }

  /**
   * Where a row's loop stands: `cs` sent so far, and the rest of the row
   * from (x, t) on `cur` ends where the whole row `whole` ends.
   */
  predicate RowLeft(cur: seq<seq<Cell>>, wr: seq<Cell>, refresh: bool, y: int, x: int, t: Trackers,
                    cs: seq<Control>, whole: Step)
  {
    && 0 <= y < |cur| && |wr| == |cur[y]| && InOrder(x, t)
    && var s := RowRun(cur, wr, refresh, y, x, t);
       s.cur == whole.cur && s.t == whole.t && cs + s.cs == whole.cs
  }

  /** One visit keeps the row's loop where it stands. */
  lemma RowLeftVisit(cur: seq<seq<Cell>>, wr: seq<Cell>, refresh: bool, y: int, x: int, t: Trackers,
                     cs: seq<Control>, whole: Step, v: Step)
    requires RowLeft(cur, wr, refresh, y, x, t, cs, whole) && x < |wr|
    requires v == Visit(cur, wr[x], refresh, y, x, t)
    ensures RowLeft(v.cur, wr, refresh, y, v.x, v.t, cs + v.cs, whole)
  {
    var rest := RowRun(v.cur, wr, refresh, y, v.x, v.t);
    assert cs + v.cs + rest.cs == cs + (v.cs + rest.cs);
  }

  /** The rest of the screen from row y on, each row from its first column. */
  function ScreenRun(cur: seq<seq<Cell>>, want: seq<seq<Cell>>, refresh: bool, w: nat, y: nat, t: Trackers): (s: Step)
    requires IsGrid(cur, w) && IsGrid(want, w) && |want| == |cur| && InOrder(0, t)
    ensures IsGrid(s.cur, w) && |s.cur| == |cur| && s.x == 0
    decreases |cur| - y
  {
    if y >= |cur| then Step(cur, 0, t, [])
    else
      var r := RowRun(cur, want[y], refresh, y, 0, t);
      var rest := ScreenRun(r.cur, want, refresh, w, y + 1, r.t);
      Step(rest.cur, rest.x, rest.t, r.cs + rest.cs)
  }

  /** What is left of the screen from row `y` on still yields `whole` once appended to `ops`. */
  predicate ScreenLeft(cur: seq<seq<Cell>>, want: seq<seq<Cell>>, refresh: bool, w: nat, y: nat, t: Trackers,
                       ops: seq<Control>, whole: Step)
  {
    && IsGrid(cur, w) && IsGrid(want, w) && |want| == |cur| && InOrder(0, t) && y <= |cur|
    && var s := ScreenRun(cur, want, refresh, w, y, t);
       s.cur == whole.cur && s.t == whole.t && ops + s.cs == whole.cs
  }

  /** Running row `y` moves the rest of the screen on by one row. */
  lemma ScreenLeftRow(cur: seq<seq<Cell>>, want: seq<seq<Cell>>, refresh: bool, w: nat, y: nat, t: Trackers,
                      ops: seq<Control>, whole: Step, next: seq<seq<Cell>>, nt: Trackers, cs: seq<Control>)
    requires ScreenLeft(cur, want, refresh, w, y, t, ops, whole) && y < |cur|
    requires var r := RowRun(cur, want[y], refresh, y, 0, t); next == r.cur && nt == r.t && cs == r.cs
    ensures ScreenLeft(next, want, refresh, w, y + 1, nt, ops + cs, whole)
  {
    var rest := ScreenRun(next, want, refresh, w, y + 1, nt);
    assert ops + cs + rest.cs == ops + (cs + rest.cs);
  }

  /** Past the last row nothing is left: the state reached is the whole run's. */
  lemma ScreenLeftDone(cur: seq<seq<Cell>>, want: seq<seq<Cell>>, refresh: bool, w: nat, y: nat, t: Trackers,
                       ops: seq<Control>, whole: Step)
    requires ScreenLeft(cur, want, refresh, w, y, t, ops, whole) && y >= |cur|
    ensures cur == whole.cur && t == whole.t && ops == whole.cs
  {
    assert ScreenRun(cur, want, refresh, w, y, t) == Step(cur, 0, t, []);
    assert ops + [] == ops;
  }

  /** Every visit keeps the trackers and the cache in order. */
  lemma VisitCache(g0: seq<seq<Cell>>, cur: seq<seq<Cell>>, want: seq<seq<Cell>>, refresh: bool,
                   w: nat, y: int, x: int, t: Trackers)
    requires TrackOk(w, |g0|, y, x, t) && CacheOk(g0, cur, want, refresh, w, y, x, t)
    requires y < |g0| && x < w
    ensures var v := Visit(cur, want[y][x], refresh, y, x, t);
            TrackOk(w, |g0|, y, v.x, v.t) && CacheOk(g0, v.cur, want, refresh, w, y, v.x, v.t)
  {
    var c := want[y][x];
    if !t.redo && Quiet(cur[y][x], c, refresh) {
      Skip(g0, cur, want, refresh, w, y, x, t);
    } else if Backtracks(t, y, x) {
      Back(g0, cur, want, refresh, w, y, x, t);
    } else {
      WriteCache(g0, cur, want, refresh, w, y, x, t);
    }
  }

  /** Every visit keeps a terminal that showed the cache showing it, with the cursor and pen the trackers expect. */
  lemma VisitTerm(cur: seq<seq<Cell>>, c: Cell, refresh: bool, w: nat, y: int, x: int, t: Trackers, vt: Vt)
    requires TrackOk(w, |cur|, y, x, t) && TermOk(vt, cur, w, t) && IsGrid(cur, w)
    requires y < |cur| && x < w
    ensures var v := Visit(cur, c, refresh, y, x, t);
            TermOk(Run(vt, v.cs), v.cur, w, v.t)
  {
    if !(!t.redo && Quiet(cur[y][x], c, refresh)) && !Backtracks(t, y, x) {
      WriteTerm(cur, w, y, x, t, vt, c);
    }
  }

  /** The rest of a row keeps the cache and the terminal in order and ends at the row's end. */
  lemma {:induction false} RowRunOk(g0: seq<seq<Cell>>, cur: seq<seq<Cell>>, want: seq<seq<Cell>>, refresh: bool,
                                    w: nat, y: int, x: int, t: Trackers, vt: Vt)
    requires TrackOk(w, |g0|, y, x, t) && CacheOk(g0, cur, want, refresh, w, y, x, t) && y < |g0|
    ensures var s := RowRun(cur, want[y], refresh, y, x, t);
            && TrackOk(w, |g0|, y, w, s.t) && CacheOk(g0, s.cur, want, refresh, w, y, w, s.t)
            && (TermOk(vt, cur, w, t) ==> TermOk(Run(vt, s.cs), s.cur, w, s.t))
    decreases Rank(w, x, t)
  {
    if x < w {
      var v := Visit(cur, want[y][x], refresh, y, x, t);
      VisitCache(g0, cur, want, refresh, w, y, x, t);
      if TermOk(vt, cur, w, t) {
        VisitTerm(cur, want[y][x], refresh, w, y, x, t, vt);
        RowRunOk(g0, v.cur, want, refresh, w, y, v.x, v.t, Run(vt, v.cs));
        var rest := RowRun(v.cur, want[y], refresh, y, v.x, v.t);
        RunAppend(vt, v.cs, rest.cs);
      } else {
        RowRunOk(g0, v.cur, want, refresh, w, y, v.x, v.t, vt);
      }
    }
  }

  /** A whole row takes the loop from the start of row y to the start of row y + 1. */
  lemma WholeRow(g0: seq<seq<Cell>>, cur: seq<seq<Cell>>, want: seq<seq<Cell>>, refresh: bool,
                 w: nat, y: nat, t: Trackers, vt: Vt)
    requires TrackOk(w, |g0|, y, 0, t) && CacheOk(g0, cur, want, refresh, w, y, 0, t) && y < |g0|
    ensures var r := RowRun(cur, want[y], refresh, y, 0, t);
            && TrackOk(w, |g0|, y + 1, 0, r.t) && CacheOk(g0, r.cur, want, refresh, w, y + 1, 0, r.t)
            && (TermOk(vt, cur, w, t) ==> TermOk(Run(vt, r.cs), r.cur, w, r.t))
  {
    RowRunOk(g0, cur, want, refresh, w, y, 0, t, vt);
    var r := RowRun(cur, want[y], refresh, y, 0, t);
    NextRow(g0, r.cur, want, refresh, w, y, r.t);
  }

  /**
   * From the start of row y to the end of the screen, the trackers and the
   * cache stay in order up to `whole`, the state the whole run reaches.
   */
  lemma {:induction false} CacheFrom(g0: seq<seq<Cell>>, cur: seq<seq<Cell>>, want: seq<seq<Cell>>, refresh: bool,
                                     w: nat, y: nat, t: Trackers, ops: seq<Control>, whole: Step)
    requires ScreenLeft(cur, want, refresh, w, y, t, ops, whole)
    requires TrackOk(w, |g0|, y, 0, t) && CacheOk(g0, cur, want, refresh, w, y, 0, t)
    ensures TrackOk(w, |g0|, |g0|, 0, whole.t) && CacheOk(g0, whole.cur, want, refresh, w, |g0|, 0, whole.t)
    decreases |g0| - y
  {
    if y < |g0| {
      var r := RowRun(cur, want[y], refresh, y, 0, t);
      // Only the cache half of `WholeRow` is needed here; any terminal will do.
      WholeRow(g0, cur, want, refresh, w, y, t, Vt(1, [], 0, 0, 0, 0, false, 0));
      ScreenLeftRow(cur, want, refresh, w, y, t, ops, whole, r.cur, r.t, r.cs);
      CacheFrom(g0, r.cur, want, refresh, w, y + 1, r.t, ops + r.cs, whole);
    } else {
      ScreenLeftDone(cur, want, refresh, w, y, t, ops, whole);
    }
  }

  /**
   * From the start of row y, where the run so far sent `ops` to a terminal
   * that was `vt0`, to the end of the screen: the terminal stays in order up
   * to `whole`, the state the whole run reaches.
   */
  lemma {:induction false} TermFrom(g0: seq<seq<Cell>>, cur: seq<seq<Cell>>, want: seq<seq<Cell>>, refresh: bool,
                                    w: nat, y: nat, t: Trackers, ops: seq<Control>, whole: Step, vt0: Vt)
    requires ScreenLeft(cur, want, refresh, w, y, t, ops, whole)
    requires TrackOk(w, |g0|, y, 0, t) && CacheOk(g0, cur, want, refresh, w, y, 0, t)
    requires VtValid(vt0) && TermOk(Run(vt0, ops), cur, w, t)
    ensures TermOk(Run(vt0, whole.cs), whole.cur, w, whole.t)
    decreases |g0| - y
  {
    if y < |g0| {
      var r := RowRun(cur, want[y], refresh, y, 0, t);
      WholeRow(g0, cur, want, refresh, w, y, t, Run(vt0, ops));
      RunAppend(vt0, ops, r.cs);
      ScreenLeftRow(cur, want, refresh, w, y, t, ops, whole, r.cur, r.t, r.cs);
      TermFrom(g0, r.cur, want, refresh, w, y + 1, r.t, ops + r.cs, whole, vt0);
    } else {
      ScreenLeftDone(cur, want, refresh, w, y, t, ops, whole);
    }
  }

  /* ---------- The next row ---------- */

  lemma NextRow(g0: seq<seq<Cell>>, cur: seq<seq<Cell>>, want: seq<seq<Cell>>, refresh: bool,
                w: nat, y: int, t: Trackers)
    requires TrackOk(w, |g0|, y, w, t) && CacheOk(g0, cur, want, refresh, w, y, w, t)
    requires y < |g0|
    ensures TrackOk(w, |g0|, y + 1, 0, t)
    ensures CacheOk(g0, cur, want, refresh, w, y + 1, 0, t)
  {
    assert forall yy, xx :: 0 <= xx < w ==> (Before(yy, xx, y + 1, 0) <==> Before(yy, xx, y, w));
  }

  /* ---------- The end ---------- */

  /**
   * Once every row is visited: every cell of the cache is settled, so equal
   * to the target's; nothing was written exactly when every cell was quiet;
   * and the terminal shows the target's cells.
   */
  lemma Finish(g0: seq<seq<Cell>>, cur: seq<seq<Cell>>, want: seq<seq<Cell>>, refresh: bool,
               w: nat, t: Trackers, vt: Vt)
    requires TrackOk(w, |g0|, |g0|, 0, t) && CacheOk(g0, cur, want, refresh, w, |g0|, 0, t)
    ensures forall y, x :: 0 <= y < |g0| && 0 <= x < w ==> Settled(g0[y][x], cur[y][x], want[y][x], refresh)
    ensures forall y, x :: 0 <= y < |g0| && 0 <= x < w ==> Equals(cur[y][x], want[y][x])
    ensures t.lastAttr.None? <==> forall y, x :: 0 <= y < |g0| && 0 <= x < w ==> Quiet(g0[y][x], want[y][x], refresh)
    ensures TermOk(vt, cur, w, t) ==>
              forall y, x :: 0 <= y < |g0| && 0 <= x < w ==> Looks(vt.rows[y][x], want[y][x])
  {
    assert forall y, x :: 0 <= y < |g0| ==> Before(y, x, |g0|, 0);
    if TermOk(vt, cur, w, t) {
      forall y, x | 0 <= y < |g0| && 0 <= x < w
        ensures Looks(vt.rows[y][x], want[y][x])
      {
        assert Looks(vt.rows[y][x], cur[y][x]);
      }
    }
  }

  /**
   * The whole cell loop, from the start: every cell of the cache ends settled
   * against the target's, nothing is sent exactly when every cell was quiet,
   * and a terminal that showed the cache shows the target's cells with the
   * cursor and pen where the trackers say.
   */
  lemma Diffed(g0: seq<seq<Cell>>, want: seq<seq<Cell>>, refresh: bool, w: nat, vt: Vt)
    requires Shapes(g0, g0, want, w)
    ensures var s := ScreenRun(g0, want, refresh, w, 0, START);
            && AllSettled(g0, s.cur, want, w, refresh)
            && (s.t.lastAttr.None? <==> AllQuiet(g0, want, w, refresh))
            && (TermOk(vt, g0, w, START) ==> TermOk(Run(vt, s.cs), s.cur, w, s.t) && LooksGrid(Run(vt, s.cs).rows, want))
  {
    Start(g0, want, refresh, w);
    var s := ScreenRun(g0, want, refresh, w, 0, START);
    assert [] + s.cs == s.cs;
    CacheFrom(g0, g0, want, refresh, w, 0, START, [], s);
    if TermOk(vt, g0, w, START) {
      TermFrom(g0, g0, want, refresh, w, 0, START, [], s, vt);
    }
    if TermOk(vt, g0, w, START) {
      Finish(g0, s.cur, want, refresh, w, s.t, Run(vt, s.cs));
    } else {
      Finish(g0, s.cur, want, refresh, w, s.t, vt);
    }
  }

  /** Once every cell is settled, the cache equals the target cell by cell. */
  lemma SettledEquals(before: seq<seq<Cell>>, after: seq<seq<Cell>>, want: seq<seq<Cell>>, w: nat, refresh: bool)
    requires AllSettled(before, after, want, w, refresh)
    ensures forall y, x :: 0 <= y < |after| && 0 <= x < w ==> Equals(after[y][x], want[y][x])
  {
    forall y, x | 0 <= y < |after| && 0 <= x < w
      ensures Equals(after[y][x], want[y][x])
    {
      assert Settled(before[y][x], after[y][x], want[y][x], refresh);
    }
  }
}
