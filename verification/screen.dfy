/**
 * `Draw` (lib/draw.js): the cached screen, the closed flag and `redraw`.
 * The terminal is outside the model; alongside the cache a ghost `term`
 * follows what the text returned by `Redraw` does to it, so that the
 * contracts can say what the terminal shows afterwards.
 */
module Screens {
  import opened Wrappers
  import opened Strings
  import opened Cells
  import opened Regions
  import opened Terminal
  import opened Drawing
  import opened Diffing
  import opened Surfaces

  /** A terminal just cleared: blank cells, the whole screen as the scrolling region, the cursor home. */
  function Cleared(w: nat, h: nat): (t: Vt)
    requires w >= 1 && h >= 1
    ensures VtValid(t) && t.width == w && |t.rows| == h && t.top == 0 && t.bottom == h - 1
    ensures LooksGrid(t.rows, BlankGrid(w, h))
  {
    Vt(w, BlankGrid(w, h), 0, h - 1, 0, 0, false, 0)
  }

  /** Every queued shift with a count has a band that meets a screen of `h` rows, as `shift_rows` there demands. */
  predicate Fits(ps: seq<Hint>, h: int)
  {
    forall i :: 0 <= i < |ps| ==> Meets(ps[i], h)
  }

  /** Every queued band lies inside a screen of `h` rows. */
  predicate Inside(ps: seq<Hint>, h: int)
  {
    forall i :: 0 <= i < |ps| ==> 0 <= ps[i].y0 <= ps[i].y1 < h
  }

  /** A shift by `h` is possible on a screen of `ht` rows: it has no count or its band meets a row. */
  predicate Meets(h: Hint, ht: int)
  {
    h.n != 0 ==> Max(h.y0, 0) <= Min(h.y1, ht - 1)
  }

  /**
   * The rows and hints of the screen after `draw_region_shift` for each of
   * `ps` in turn.  A hint whose band meets no row, which `shift_rows` rejects,
   * is passed over here; the contracts only apply this where every band fits.
   */
  function Replayed(rows: seq<seq<Cell>>, hints: seq<Hint>, w: nat, ps: seq<Hint>): (r: (seq<seq<Cell>>, seq<Hint>))
    ensures |r.0| == |rows|
    ensures IsGrid(rows, w) ==> IsGrid(r.0, w)
    decreases |ps|
  {
    if ps == [] then (rows, hints)
    else
      var s := Replayed(rows, hints, w, ps[..|ps| - 1]);
      var p := ps[|ps| - 1];
      if Meets(p, |s.0|) then ShiftedScreen(s.0, s.1, w, p.y0, p.y1, p.n) else s
  }

  /** The text sent for one hint. */
  function EscapeOf(h: Hint): string
  {
    BandShiftEscape(h.y0, h.y1, h.n)
  }

  /** The text sent for the hints `ps`, one after the other. */
  function ReplayText(ps: seq<Hint>): string
  {
    ConcatMap(EscapeOf, ps)
  }

  /** The cursor movement `redraw` sends before writing (x, y), when it does not go back instead. */
  method MoveText(t: Trackers, y: int, x: int) returns (piece: string, ghost cs: seq<Control>)
    ensures cs == Moves(t, y, x) && piece == WireAll(cs)
  {
    if t.contig {
      return "", [];
    }
    var c;
    if t.lastRow == Some(y) {
      if t.lastCol.Some? {
        // A short relative jump to the right.
        var skip := x - t.lastCol.value - 1;
        piece, c := Forward(skip), CursorForward(skip);
      } else {
        // An absolute column address.
        piece, c := ToColumn(x), CursorColumn(x);
      }
    } else {
      piece, c := MoveTo(y, x), CursorTo(y, x);
    }
    cs := [c];
    WireAllSnoc([], c);
    assert [] + [c] == cs;
  }

  /** The renditions `redraw` sends before a glyph with attributes `attr`, after `last`. */
  method PenText(last: Option<bv8>, attr: bv8) returns (piece: string, ghost cs: seq<Control>)
    ensures cs == Pens(last, attr) && piece == WireAll(cs)
    ensures last.None? ==> piece != ""
  {
    piece, cs := "", [];
    var lastAttr := last;
    if lastAttr.None? {
      lastAttr := Some(0);
      WireAllSnoc([], Rendition(0));
      assert Wire(Rendition(0)) == SGR_RESET && [] + [Rendition(0)] == [Rendition(0)];
      piece, cs := SGR_RESET, [Rendition(0)];
    }
    if lastAttr.value != attr {
      WireAllSnoc(cs, Rendition(attr));
      piece, cs := piece + Sgr(attr), cs + [Rendition(attr)];
    }
  }

  /**
   * The text of one written cell, as the body of `redraw`'s loop builds it
   * once it has decided to write (x, y) without going back: the cursor
   * movement, the renditions, then the glyph.
   */
  method CellText(t: Trackers, y: int, x: int, nc: Cell) returns (piece: string, ghost cs: seq<Control>)
    ensures cs == Writes(t, y, x, nc) && piece == WireAll(cs)
    ensures t.lastAttr.None? ==> piece != ""
  {
    var move, ms := MoveText(t, y, x);
    var pen, ps := PenText(t.lastAttr, nc.attr);
    ConcatMapAppend(Wire, ms, ps);
    WireAllSnoc(ms + ps, Print(nc.glyph));
    piece, cs := move + pen + nc.glyph, ms + ps + [Print(nc.glyph)];
  }

  /** A terminal that shows `rows` and scrolls over all of them. */
  ghost predicate Mirrors(t: Vt, rows: seq<seq<Cell>>)
  {
    && VtValid(t) && |t.rows| == |rows|
    && t.top == 0 && t.bottom == |rows| - 1
    && LooksGrid(t.rows, rows)
  }

  /** The controls sent for the hints `ps`, one after the other. */
  function ReplayControls(ps: seq<Hint>): (cs: seq<Control>)
    decreases |ps|
  {
    if ps == [] then []
    else
      var p := ps[|ps| - 1];
      ReplayControls(ps[..|ps| - 1]) + BandControls(p.y0, p.y1, p.n)
  }

  /** The replay text is the text of the replay controls. */
  lemma {:induction false} ReplayControlsText(ps: seq<Hint>)
    ensures WireAll(ReplayControls(ps)) == ReplayText(ps)
    decreases |ps|
  {
    if ps != [] {
      var p := ps[|ps| - 1];
      ReplayControlsText(ps[..|ps| - 1]);
      WireAllAppend(ReplayControls(ps[..|ps| - 1]), BandControls(p.y0, p.y1, p.n));
      BandShiftEscapeIsControls(p.y0, p.y1, p.n);
    }
  }

  /** One hint whose band lies inside the screen: a terminal that mirrors the cache still does after its controls. */
  lemma ShiftMirrored(t: Vt, rows: seq<seq<Cell>>, hints: seq<Hint>, h: Hint)
    requires Mirrors(t, rows) && 0 <= h.y0 <= h.y1 < |rows|
    ensures Mirrors(Run(t, BandControls(h.y0, h.y1, h.n)), ShiftedScreen(rows, hints, t.width, h.y0, h.y1, h.n).0)
  {
    BandControlsOnTerminal(t, h.y0, h.y1, h.n);
    LooksUnitShifts(t.rows, rows, h.y0, h.y1, h.n > 0, Abs(h.n), BlankRow(t.width));
  }

  /**
   * Hints whose bands all lie inside the screen: replaying them keeps a
   * terminal that mirrors the cache in step with it.
   */
  lemma {:induction false} ReplayMirrored(t: Vt, rows: seq<seq<Cell>>, hints: seq<Hint>, ps: seq<Hint>)
    requires Mirrors(t, rows) && Inside(ps, |rows|)
    ensures Mirrors(Run(t, ReplayControls(ps)), Replayed(rows, hints, t.width, ps).0)
    decreases |ps|
  {
    if ps != [] {
      var prev, p := ps[..|ps| - 1], ps[|ps| - 1];
      ReplayMirrored(t, rows, hints, prev);
      var u := Run(t, ReplayControls(prev));
      var s := Replayed(rows, hints, t.width, prev);
      RunAppend(t, ReplayControls(prev), BandControls(p.y0, p.y1, p.n));
      ShiftMirrored(u, s.0, s.1, p);
    }
  }

  /**
   * `draw_region_shift` for one hint on the cache `r`; the surface being
   * drawn, which does not hold `r`, is left as it was.
   */
  method ShiftOn(r: Region, h: Hint, ghost target: Surface) returns (s: string)
    requires r.Valid() && Meets(h, r.height)
    requires SurfaceValid(target) && r !in Repr(target)
    modifies r`rows, r`hints
    ensures r.Valid()
    ensures (r.rows, r.hints) == ShiftedScreen(old(r.rows), old(r.hints), r.width, h.y0, h.y1, h.n)
    ensures s == EscapeOf(h)
    ensures SurfaceValid(target) && Repr(target) == old(Repr(target)) && Pending(target) == old(Pending(target))
  {
    s := RegionShift(r, h.y0, h.y1, h.n);
    SurfaceKept(target);
  }

  /**
   * One turn of `redraw`'s hint loop: pop the target's next hint and, when
   * there is one, replay it on the cache `r`.
   */
  method ReplayNext(r: Region, target: Surface, ghost ps: seq<Hint>) returns (h: Option<Hint>, s: string)
    requires r.Valid() && SurfaceValid(target) && r !in Repr(target)
    requires Pending(target) == ps && Fits(ps, r.height)
    modifies r`rows, r`hints, Holders(target)`hints
    ensures r.Valid() && SurfaceValid(target) && Repr(target) == old(Repr(target))
    ensures h.None? <==> ps == []
    ensures h.None? ==> Pending(target) == [] && r.rows == old(r.rows) && r.hints == old(r.hints)
    ensures h.Some? ==>
              && h.value == ps[0] && Pending(target) == ps[1..] && Fits(ps[1..], r.height)
              && (r.rows, r.hints) == ShiftedScreen(old(r.rows), old(r.hints), r.width, h.value.y0, h.value.y1, h.value.n)
              && s == EscapeOf(h.value)
  {
    h := PopSurfaceHint(target);
    if h.None? {
      return h, "";
    }
    assert ps[0] == h.value && Meets(ps[0], r.height);
    s := ShiftOn(r, h.value, target);
  }

  /** One more hint that fits: the replay and its text extend by one shift. */
  lemma ReplaySnoc(rows: seq<seq<Cell>>, hints: seq<Hint>, w: nat, ps: seq<Hint>, i: nat)
    requires i < |ps| && Meets(ps[i], |rows|)
    ensures var prev := Replayed(rows, hints, w, ps[..i]);
            var p := ps[i];
            && Replayed(rows, hints, w, ps[..i + 1]) == ShiftedScreen(prev.0, prev.1, w, p.y0, p.y1, p.n)
            && ReplayText(ps[..i + 1]) == ReplayText(ps[..i]) + EscapeOf(p)
  {
    assert ps[..i + 1][..i] == ps[..i];
  }

  /** `redraw`'s hint loop: pop the target's hints until none is left and replay each on the cache `r`. */
  method ReplayAll(r: Region, target: Surface) returns (out: string)
    requires r.Valid() && SurfaceValid(target) && r !in Repr(target)
    requires Fits(Pending(target), r.height)
    modifies r`rows, r`hints, Holders(target)`hints
    ensures r.Valid() && SurfaceValid(target) && Repr(target) == old(Repr(target)) && Pending(target) == []
    ensures (r.rows, r.hints) == Replayed(old(r.rows), old(r.hints), r.width, old(Pending(target)))
    ensures out == ReplayText(old(Pending(target)))
  {
    ghost var P := Pending(target);
    ghost var rows0, hints0, R := r.rows, r.hints, Repr(target);
    ghost var i := 0;
    out := "";
    while true
      invariant 0 <= i <= |P| && Pending(target) == P[i..] && |rows0| == r.height
      invariant r.Valid() && SurfaceValid(target) && Repr(target) == R && Fits(P[i..], r.height)
      invariant (r.rows, r.hints) == Replayed(rows0, hints0, r.width, P[..i])
      invariant out == ReplayText(P[..i])
      decreases |P| - i
    {
      var h, s := ReplayNext(r, target, P[i..]);
      if h.None? {
        assert P[..i] == P;
        break;
      }
      assert P[i..][1..] == P[i + 1..];
      ReplaySnoc(rows0, hints0, r.width, P, i);
      out := out + s;
      i := i + 1;
    }
  }

  /**
   * One visit of `redraw`'s cell loop at (x, y) of the cache `cur`, whose
   * target cell is `nc`: the cache, column, trackers and controls become
   * those of `Visit`, and the text sent is the wire form of the controls.
   */
  method DiffStep(cur: seq<seq<Cell>>, nc: Cell, refresh: bool, y: nat, x: nat, t: Trackers)
    returns (piece: string, next: seq<seq<Cell>>, nx: int, nt: Trackers, ghost cs: seq<Control>)
    requires y < |cur| && x < |cur[y]|
    ensures Step(next, nx, nt, cs) == Visit(cur, nc, refresh, y, x, t)
    ensures piece == WireAll(cs)
    ensures t.lastAttr.None? ==> (piece == "" <==> nt.lastAttr.None?)
  {
    var oc := cur[y][x];
    next := cur;
    if !t.redo && Equals(oc, nc) && !refresh {
      piece, nx, nt, cs := "", x + 1, t.(contig := false), [];
    } else if !t.contig && t.lastRow == Some(y) && t.lastCol.Some? && x - t.lastCol.value - 1 == 1 {
      // Skipping a single cell: go back and write it instead.
      piece, nx, nt, cs := "", x - 1, t.(redo := true, contig := true), [];
    } else {
      piece, cs := CellText(t, y, x, nc);
      next := cur[y := cur[y][x := SetFrom(oc, nc)]];
      nx, nt := x + 1, Trackers(Some(nc.attr), Some(y), Some(x), true, false);
    }
  }

  /**
   * One row of `redraw`'s cell loop over the cache `cur`: visit (x, y) for
   * x from 0 until the row is done, as `RowRun` says.
   */
  method DiffRow(cur: seq<seq<Cell>>, target: Surface, refresh: bool, y: nat, t0: Trackers, ghost wr: seq<Cell>)
    returns (piece: string, next: seq<seq<Cell>>, t: Trackers, ghost cs: seq<Control>)
    requires SurfaceReadable(target) && y < |cur|
    requires |wr| == |cur[y]| && RowOf(target, y, wr)
    requires InOrder(0, t0)
    ensures var r := RowRun(cur, wr, refresh, y, 0, t0); next == r.cur && t == r.t && cs == r.cs
    ensures piece == WireAll(cs)
    ensures t0.lastAttr.None? ==> (piece == "" <==> t.lastAttr.None?)
    ensures t0.lastAttr.Some? ==> t.lastAttr.Some?
  {
    ghost var F := RowRun(cur, wr, refresh, y, 0, t0);
    piece, next, t, cs := "", cur, t0, [];
    var x: int := 0;
    while x < |cur[y]|
      invariant |next| == |cur| && |next[y]| == |cur[y]| && RowLeft(next, wr, refresh, y, x, t, cs, F)
      invariant piece == WireAll(cs)
      invariant t0.lastAttr.None? ==> (piece == "" <==> t.lastAttr.None?)
      invariant t0.lastAttr.Some? ==> t.lastAttr.Some?
      decreases Rank(|wr|, x, t)
    {
      RowOfKept(target, y, wr);
      var nc := RowCell(target, x, y, wr);
      var p, n, nx, nt, c := DiffStep(next, nc, refresh, y, x, t);
      RowLeftVisit(next, wr, refresh, y, x, t, cs, F, Step(n, nx, nt, c));
      WireAllAppend(cs, c);
      piece, next, x, t, cs := piece + p, n, nx, nt, cs + c;
    }
  }

  /**
   * `redraw`'s cell loop over the cache `cur`, row by row, as `ScreenRun`
   * says from the first cell with nothing remembered.
   */
  method DiffCells(cur: seq<seq<Cell>>, target: Surface, refresh: bool, w: nat, ghost want: seq<seq<Cell>>)
    returns (out: string, next: seq<seq<Cell>>, t: Trackers, ghost ops: seq<Control>)
    requires SurfaceReadable(target) && IsGrid(cur, w) && IsGrid(want, w) && |want| == |cur|
    requires GridOf(target, want)
    ensures Step(next, 0, t, ops) == ScreenRun(cur, want, refresh, w, 0, START)
    ensures out == WireAll(ops)
    ensures out == "" <==> t.lastAttr.None?
  {
    ghost var F := ScreenRun(cur, want, refresh, w, 0, START);
    next, t, out, ops := cur, START, "", [];
    var y: nat := 0;
    while y < |cur|
      invariant |next| == |cur| && ScreenLeft(next, want, refresh, w, y, t, ops, F)
      invariant out == WireAll(ops)
      invariant out == "" <==> t.lastAttr.None?
    {
      var piece, n, nt;
      ghost var cs;
      GridRowKept(target, want, y);
      piece, n, nt, cs := DiffRow(next, target, refresh, y, t, want[y]);
      ScreenLeftRow(next, want, refresh, w, y, t, ops, F, n, nt, cs);
      WireAllAppend(ops, cs);
      out, ops, next, t := out + piece, ops + cs, n, nt;
      y := y + 1;
    }
    ScreenLeftDone(next, want, refresh, w, y, t, ops, F);
  }

  /**
   * The whole cell loop on the cache `cur` towards the grid `want`, which the
   * target shows: every cell ends up settled, something is sent exactly when
   * some cell was not quiet, and a terminal that mirrored the cache shows the
   * target's cells after the text.
   */
  method DiffGrid(cur: seq<seq<Cell>>, target: Surface, refresh: bool, w: nat, ghost want: seq<seq<Cell>>,
                  ghost vt: Vt, ghost sync: bool)
    returns (out: string, next: seq<seq<Cell>>, ghost ops: seq<Control>)
    requires SurfaceReadable(target) && IsGrid(cur, w) && IsGrid(want, w) && |want| == |cur|
    requires GridOf(target, want)
    requires sync ==> Mirrors(vt, cur) && vt.width == w
    ensures AllSettled(cur, next, want, w, refresh)
    ensures out == "" <==> AllQuiet(cur, want, w, refresh)
    ensures out == WireAll(ops)
    ensures sync ==> Mirrors(Run(vt, ops), next) && LooksGrid(Run(vt, ops).rows, want)
  {
    var t;
    out, next, t, ops := DiffCells(cur, target, refresh, w, want);
    Diffed(cur, want, refresh, w, vt);
    if sync {
      assert TermOk(vt, cur, w, START);
    }
  }

  /** The cache takes the rows the cell loop settled on; the target, which does not hold it, is untouched. */
  method WriteBack(r: Region, target: Surface, cur: seq<seq<Cell>>)
    requires r.Valid() && SurfaceValid(target) && r !in Repr(target)
    requires |cur| == r.height && IsGrid(cur, r.width)
    modifies r`rows
    ensures r.Valid() && r.rows == cur
    ensures SurfaceValid(target) && Repr(target) == old(Repr(target)) && Pending(target) == old(Pending(target))
    ensures WantGrid(target, r.width, r.height) == old(WantGrid(target, r.width, r.height))
  {
    r.rows := cur;
  }

  /**
   * The cell loop on the cache `r`: every cell ends up settled against the
   * target's, and something is sent exactly when some cell was not quiet.
   * A terminal that mirrored the cache shows the target's cells after the
   * text.
   */
  method DiffAll(r: Region, target: Surface, refresh: bool, ghost vt: Vt, ghost sync: bool)
    returns (out: string, ghost ops: seq<Control>)
    requires r.Valid() && SurfaceValid(target) && r !in Repr(target)
    requires sync ==> Mirrors(vt, r.rows) && vt.width == r.width
    modifies r`rows
    ensures r.Valid() && SurfaceValid(target) && Repr(target) == old(Repr(target))
    ensures Pending(target) == old(Pending(target))
    ensures var want := WantGrid(target, r.width, r.height);
            && want == old(WantGrid(target, r.width, r.height))
            && AllSettled(old(r.rows), r.rows, want, r.width, refresh)
            && (out == "" <==> AllQuiet(old(r.rows), want, r.width, refresh))
            && (sync ==> Mirrors(Run(vt, ops), r.rows) && LooksGrid(Run(vt, ops).rows, want))
    ensures out == WireAll(ops)
  {
    ghost var want := WantGrid(target, r.width, r.height);
    GridOfWant(target, r.width, r.height);
    var cur;
    out, cur, ops := DiffGrid(r.rows, target, refresh, r.width, want, vt, sync);
    GridKept(target, r.width, r.height);
    WriteBack(r, target, cur);
  }

  /**
   * `redraw` on an open screen whose cache is `r`: the target's pending hints
   * are replayed on the cache and their text sent, then the cell loop runs.
   * `vt` is the terminal before, as far as `sync` says it mirrors the cache.
   */
  method RedrawOn(r: Region, target: Surface, refresh: bool, ghost vt: Vt, ghost sync: bool)
    returns (out: string, ghost ops: seq<Control>)
    requires r.Valid() && SurfaceValid(target) && r !in Repr(target)
    requires Fits(Pending(target), r.height) && VtValid(vt)
    requires sync ==> Mirrors(vt, r.rows) && vt.width == r.width && Inside(Pending(target), r.height)
    modifies r`rows, r`hints, Holders(target)`hints
    ensures r.Valid() && SurfaceValid(target) && Pending(target) == []
    ensures var shifted := Replayed(old(r.rows), old(r.hints), r.width, old(Pending(target)));
            var want := WantGrid(target, r.width, r.height);
            && r.hints == shifted.1
            && AllSettled(shifted.0, r.rows, want, r.width, refresh)
            && ReplayText(old(Pending(target))) <= out
            && (|out| == |ReplayText(old(Pending(target)))| <==> AllQuiet(shifted.0, want, r.width, refresh))
            && (sync ==> Mirrors(Run(vt, ops), r.rows) && LooksGrid(Run(vt, ops).rows, want))
    ensures out == WireAll(ops)
  {
    ghost var P := Pending(target);
    ghost var rows0, hints0 := r.rows, r.hints;
    var shifts := ReplayAll(r, target);
    ghost var shifted := Replayed(rows0, hints0, r.width, P);
    assert r.rows == shifted.0 && r.hints == shifted.1;
    ghost var ops1 := ReplayControls(P);
    ReplayControlsText(P);
    if sync {
      ReplayMirrored(vt, rows0, hints0, P);
    }
    ghost var mid := Run(vt, ops1);
    var cells, ops2 := DiffAll(r, target, refresh, mid, sync);
    assert r.hints == shifted.1;
    WireAllAppend(ops1, ops2);
    RunAppend(vt, ops1, ops2);
    out, ops := shifts + cells, ops1 + ops2;
    assert |out| == |shifts| <==> cells == "";
  }

  class Draw {
    /** `draw_closed`. */
    var closed: bool
    /** `draw_screen`: what the terminal is believed to show. */
    var screen: Region
    /** The terminal, as far as the text sent to it determines it. */
    ghost var term: Vt

    ghost predicate Valid()
      reads this, screen
    {
      && screen.Valid() && screen.width >= 1 && screen.height >= 1
      && VtValid(term) && term.width == screen.width && |term.rows| == screen.height
    }

    /** The terminal shows the cache and scrolls over the whole screen. */
    ghost predicate InSync()
      reads this, screen
    {
      && Valid() && Mirrors(term, screen.rows)
    }

    /**
     * `new Draw()` on a terminal of w x h cells, which it clears: the cache is
     * a blank region of that size (1 for a zero dimension).
     */
    constructor (w: nat, h: nat)
      ensures Valid() && InSync() && !closed && fresh(screen)
      ensures screen.width == (if w == 0 then 1 else w) && screen.height == (if h == 0 then 1 else h)
      ensures screen.rows == BlankGrid(screen.width, screen.height) && screen.hints == []
    {
      closed := false;
      screen := new Region(w, h);
      term := Cleared(if w == 0 then 1 else w, if h == 0 then 1 else h);
    }

    /** `close`: only the first call acts, clearing the terminal; `acted` says whether it did. */
    method Close() returns (acted: bool)
      requires Valid()
      modifies this`closed, this`term
      ensures Valid() && closed
      ensures acted <==> !old(closed)
      ensures !acted ==> term == old(term)
      ensures acted ==> term == Cleared(screen.width, screen.height)
    {
      if closed {
        return false;
      }
      closed := true;
      term := Cleared(screen.width, screen.height);
      acted := true;
    }

    /** `width()`: the screen's width, which is the terminal's. */
    function Width(): (w: nat)
      requires Valid()
      reads this, screen
      ensures w >= 1 && w == term.width
    {
      screen.width
    }

    /** `height()`: the screen's height, which is the terminal's. */
    function Height(): (h: nat)
      requires Valid()
      reads this, screen
      ensures h >= 1 && h == |term.rows|
    {
      screen.height
    }

    /**
     * The 'resize' handler: unless closed, the terminal is cleared and the
     * cache replaced by a blank region of the new size.
     */
    method OnResize(w: nat, h: nat)
      requires Valid()
      modifies this`screen, this`term
      ensures Valid()
      ensures old(closed) ==> screen == old(screen) && term == old(term)
      ensures !old(closed) ==> && fresh(screen) && InSync()
                               && screen.width == (if w == 0 then 1 else w) && screen.height == (if h == 0 then 1 else h)
                               && screen.rows == BlankGrid(screen.width, screen.height) && screen.hints == []
    {
      if closed {
        return;
      }
      term := Cleared(if w == 0 then 1 else w, if h == 0 then 1 else h);
      screen := new Region(w, h);
    }

    /**
     * `redraw(target, refresh)`.  Closed: nothing is sent and nothing
     * changes.  Otherwise every pending hint of the target is replayed on the
     * screen and its text sent, then every cell of the screen that is not
     * quiet is written, so that the cache equals the target cell by cell.
     * When the terminal showed the cache beforehand and every hint's band lies
     * inside the screen, the terminal shows the target afterwards.
     */
    method Redraw(target: Surface, refresh: bool) returns (out: string, ghost ops: seq<Control>)
      requires Valid() && SurfaceValid(target) && screen !in Repr(target)
      requires !closed ==> Fits(Pending(target), screen.height)
      modifies screen`rows, screen`hints, this`term, Holders(target)`hints
      ensures Valid() && SurfaceValid(target)
      ensures old(closed) ==> out == "" && unchanged(this, screen) && unchanged(Holders(target))
      ensures !old(closed) ==> Pending(target) == []
      ensures !old(closed) ==>
                var shifted := Replayed(old(screen.rows), old(screen.hints), screen.width, old(Pending(target)));
                var want := WantGrid(target, screen.width, screen.height);
                && screen.hints == shifted.1
                && AllSettled(shifted.0, screen.rows, want, screen.width, refresh)
                && ReplayText(old(Pending(target))) <= out
                && (|out| == |ReplayText(old(Pending(target)))| <==> AllQuiet(shifted.0, want, screen.width, refresh))
      ensures out == WireAll(ops) && term == Run(old(term), ops)
      ensures !old(closed) && old(InSync()) && Inside(old(Pending(target)), screen.height) ==>
                InSync() && LooksGrid(term.rows, WantGrid(target, screen.width, screen.height))
    {
      if closed {
        return "", [];
      }
      ghost var sync := InSync() && Inside(Pending(target), screen.height);
      assert this !in Repr(target);
      out, ops := RedrawOn(screen, target, refresh, term, sync);
      Sent(Run(term, ops), target);
    }

    /** The terminal becomes `t` once the text is sent; the target, which does not hold this object, is untouched. */
    ghost method Sent(t: Vt, target: Surface)
      requires SurfaceValid(target) && this !in Repr(target)
      modifies this`term
      ensures term == t
      ensures SurfaceValid(target) && Repr(target) == old(Repr(target)) && Pending(target) == old(Pending(target))
      ensures WantGrid(target, screen.width, screen.height) == old(WantGrid(target, screen.width, screen.height))
    {
      term := t;
    }
  }
}
