/**
 * LogBox (lib/controls/logbox.js): a region showing the tail of a growing
 * list of log lines.  Each line is wrapped to the box's width into rendered
 * rows, continuation rows starting with the marker "~ ".  The box shows the
 * newest rows at the bottom, unless it has been scrolled back by `offset` or
 * `moveto('top')`; when only the set of lines grows it scrolls the grid with
 * `shift_rows` and draws just the rows that came into view.
 *
 * Grapheme segmentation and `wcswidth` are external: the box is handed the
 * function that splits a string into measured graphemes.
 */
module LogBoxes {
  import opened Wrappers
  import opened Cells
  import opened Strings
  import opened Regions

  // ---------------------------------------------------------------------------
  // Wrapping one line (`_renderLine`)

  /** The columns a grapheme takes when wrapping: its width, but at least one. */
  function Cols(g: Grapheme): int
  {
    Max(g.width, 1)
  }

  predicate IsNewline(g: Grapheme)
  {
    g.text == "\n"
  }

  /**
   * One rendered row of a line: the graphemes it holds, and whether it
   * continues the row before it, in which case it starts with "~ ".
   */
  datatype Row = Row(cont: bool, body: seq<Grapheme>)

  /** The text of some graphemes, one after the other. */
  function Texts(gs: seq<Grapheme>): string
    decreases |gs|
  {
    if gs == [] then "" else Texts(gs[..|gs| - 1]) + gs[|gs| - 1].text
  }

  /** The columns some graphemes take when wrapping. */
  function BodyCols(gs: seq<Grapheme>): int
    decreases |gs|
  {
    if gs == [] then 0 else BodyCols(gs[..|gs| - 1]) + Cols(gs[|gs| - 1])
  }

  /** The string a row is stored as in `lb_rendered`. */
  function RowText(r: Row): string
  {
    (if r.cont then "~ " else "") + Texts(r.body)
  }

  /** The columns a row takes (`rl`): two for the marker, then its graphemes. */
  function RowCols(r: Row): int
  {
    (if r.cont then 2 else 0) + BodyCols(r.body)
  }

  /** `commit()`: the row under construction, if there is one, is stored. */
  function Commit(cur: Option<Row>): seq<Row>
  {
    if cur.Some? then [cur.value] else []
  }

  /** `addc(g, w)`: the grapheme joins the row under construction, starting one if needed. */
  function Extend(cur: Option<Row>, g: Grapheme): Row
  {
    if cur.Some? then cur.value.(body := cur.value.body + [g]) else Row(false, [g])
  }

  /**
   * The rows `_renderLine` produces for graphemes `gs` at width `bw`, with
   * `cur` the row under construction: a newline ends the row and is dropped;
   * a grapheme that would make a non-empty row reach `bw` columns ends it and
   * starts a continuation row; any other grapheme joins the row.
   */
  function WrapFrom(gs: seq<Grapheme>, bw: int, cur: Option<Row>): seq<Row>
    decreases |gs|
  {
    if gs == [] then Commit(cur)
    else if IsNewline(gs[0]) then Commit(cur) + WrapFrom(gs[1..], bw, None)
    else if cur.Some? && RowCols(cur.value) + Cols(gs[0]) >= bw then
      [cur.value] + WrapFrom(gs[1..], bw, Some(Row(true, [gs[0]])))
    else WrapFrom(gs[1..], bw, Some(Extend(cur, gs[0])))
  }

  /** The rows of one line wrapped to width `bw`. */
  function Wrap(gs: seq<Grapheme>, bw: int): seq<Row>
  {
    WrapFrom(gs, bw, None)
  }

  function RowTexts(rows: seq<Row>): (ts: seq<string>)
    ensures |ts| == |rows| && forall i :: 0 <= i < |rows| ==> ts[i] == RowText(rows[i])
  {
    seq(|rows|, i requires 0 <= i < |rows| => RowText(rows[i]))
  }

  /** `lb_rendered` for `lines` wrapped to width `bw`: the rows of each line in turn. */
  function RenderedAll(lines: seq<string>, segment: string -> seq<Grapheme>, bw: int): seq<string>
    decreases |lines|
  {
    if lines == [] then []
    else RenderedAll(lines[..|lines| - 1], segment, bw) + RowTexts(Wrap(segment(lines[|lines| - 1]), bw))
  }

  /** Whether grapheme `g` ends the non-empty row under construction and starts a continuation row. */
  predicate Wraps(cur: Option<Row>, g: Grapheme, bw: int)
  {
    !IsNewline(g) && cur.Some? && RowCols(cur.value) + Cols(g) >= bw
  }

  /** The rows one grapheme commits. */
  function Emitted(cur: Option<Row>, g: Grapheme, bw: int): seq<Row>
  {
    if IsNewline(g) then Commit(cur) else if Wraps(cur, g, bw) then [cur.value] else []
  }

  /** The row under construction after one grapheme. */
  function Next(cur: Option<Row>, g: Grapheme, bw: int): Option<Row>
  {
    if IsNewline(g) then None else if Wraps(cur, g, bw) then Some(Row(true, [g])) else Some(Extend(cur, g))
  }

  /** One step of `WrapFrom` at grapheme `i`. */
  lemma WrapFromStep(gs: seq<Grapheme>, i: nat, bw: int, cur: Option<Row>)
    requires i < |gs|
    ensures WrapFrom(gs[i..], bw, cur) == Emitted(cur, gs[i], bw) + WrapFrom(gs[i + 1..], bw, Next(cur, gs[i], bw))
  {
    assert gs[i..][1..] == gs[i + 1..];
    if !IsNewline(gs[i]) && !Wraps(cur, gs[i], bw) {
      assert Emitted(cur, gs[i], bw) == [];
    }
  }

  /**
   * `rs` and `rl` after one grapheme: none after a newline, the marker and the
   * grapheme after a wrap, and otherwise the row so far and the grapheme.
   */
  lemma NextText(cur: Option<Row>, g: Grapheme, bw: int)
    requires !IsNewline(g)
    ensures var n := Next(cur, g, bw).value;
            if Wraps(cur, g, bw) then RowText(n) == "~ " + g.text && RowCols(n) == 2 + Cols(g)
            else RowText(n) == (if cur.Some? then RowText(cur.value) else "") + g.text
                 && RowCols(n) == (if cur.Some? then RowCols(cur.value) else 0) + Cols(g)
  {
    if Wraps(cur, g, bw) {
      ExtendText(Some(Row(true, [])), g);
      assert Extend(Some(Row(true, [])), g) == Row(true, [g]);
    } else {
      ExtendText(cur, g);
    }
  }

  /** One pass of `_renderLine`'s loop: the rows emitted so far plus the wrapping of the rest stay the whole wrapping. */
  lemma WrapDoneStep(gs: seq<Grapheme>, i: nat, bw: int, cur: Option<Row>, done: seq<Row>, whole: seq<Row>,
                      base: seq<string>, sofar: seq<string>)
    requires i < |gs| && done + WrapFrom(gs[i..], bw, cur) == whole
    requires sofar == base + RowTexts(done)
    ensures var out := Emitted(cur, gs[i], bw);
            (done + out) + WrapFrom(gs[i + 1..], bw, Next(cur, gs[i], bw)) == whole
            && sofar + RowTexts(out) == base + RowTexts(done + out)
  {
    WrapFromStep(gs, i, bw, cur);
    RowTextsAppend(done, Emitted(cur, gs[i], bw));
  }

  /** The final `commit()` of `_renderLine` emits the last rows of the wrapping. */
  lemma WrapDoneEnd(rest: seq<Grapheme>, bw: int, cur: Option<Row>, done: seq<Row>, whole: seq<Row>,
                     base: seq<string>, sofar: seq<string>)
    requires rest == [] && done + WrapFrom(rest, bw, cur) == whole
    requires sofar == base + RowTexts(done)
    ensures (if cur.Some? then sofar + [RowText(cur.value)] else sofar) == base + RowTexts(whole)
  {
    RowTextsAppend(done, Commit(cur));
  }

  lemma RowTextsAppend(a: seq<Row>, b: seq<Row>)
    ensures RowTexts(a + b) == RowTexts(a) + RowTexts(b)
  {
  }

  /** The graphemes of a line other than newlines. */
  function Printing(gs: seq<Grapheme>): seq<Grapheme>
    decreases |gs|
  {
    if gs == [] then [] else (if IsNewline(gs[0]) then [] else [gs[0]]) + Printing(gs[1..])
  }

  /** The graphemes of some rows, one row after the other. */
  function Flatten(rows: seq<Row>): seq<Grapheme>
    decreases |rows|
  {
    if rows == [] then [] else rows[0].body + Flatten(rows[1..])
  }

  function Body(cur: Option<Row>): seq<Grapheme>
  {
    if cur.Some? then cur.value.body else []
  }

  /** A row holds at least one grapheme, and stays below `bw` columns unless it holds only one. */
  predicate RowFits(r: Row, bw: int)
  {
    |r.body| >= 1 && (|r.body| == 1 || RowCols(r) < bw)
  }

  lemma BodyAppend(b: seq<Grapheme>, g: Grapheme)
    ensures Texts(b + [g]) == Texts(b) + g.text
    ensures BodyCols(b + [g]) == BodyCols(b) + Cols(g)
  {
    assert (b + [g])[..|b|] == b;
  }

  /** `addc(g, w)` on the text and the columns of the row under construction. */
  lemma ExtendText(cur: Option<Row>, g: Grapheme)
    ensures RowText(Extend(cur, g)) == (if cur.Some? then RowText(cur.value) else "") + g.text
    ensures RowCols(Extend(cur, g)) == (if cur.Some? then RowCols(cur.value) else 0) + Cols(g)
  {
    var b := if cur.Some? then cur.value.body else [];
    BodyAppend(b, g);
    if cur.None? {
      assert b + [g] == [g];
    }
  }

  lemma FlattenCons(r: Row, rows: seq<Row>)
    ensures Flatten([r] + rows) == r.body + Flatten(rows)
  {
    assert ([r] + rows)[1..] == rows;
  }

  /** Wrapping loses no grapheme but the newlines, and keeps their order. */
  lemma {:induction false} WrapFromKeepsGraphemes(gs: seq<Grapheme>, bw: int, cur: Option<Row>)
    ensures Flatten(WrapFrom(gs, bw, cur)) == Body(cur) + Printing(gs)
    decreases |gs|
  {
    if gs == [] {
      if cur.Some? {
        FlattenCons(cur.value, []);
      }
    } else if IsNewline(gs[0]) {
      var rest := WrapFrom(gs[1..], bw, None);
      WrapFromKeepsGraphemes(gs[1..], bw, None);
      assert Printing(gs) == Printing(gs[1..]);
      if cur.Some? {
        assert Commit(cur) + rest == [cur.value] + rest;
        FlattenCons(cur.value, rest);
      } else {
        assert Commit(cur) + rest == rest;
      }
    } else if cur.Some? && RowCols(cur.value) + Cols(gs[0]) >= bw {
      WrapFromKeepsGraphemes(gs[1..], bw, Some(Row(true, [gs[0]])));
      FlattenCons(cur.value, WrapFrom(gs[1..], bw, Some(Row(true, [gs[0]]))));
    } else {
      WrapFromKeepsGraphemes(gs[1..], bw, Some(Extend(cur, gs[0])));
    }
  }

  lemma WrapKeepsGraphemes(gs: seq<Grapheme>, bw: int)
    ensures Flatten(Wrap(gs, bw)) == Printing(gs)
  {
    WrapFromKeepsGraphemes(gs, bw, None);
  }

  /** Every row wrapping produces is non-empty and narrower than `bw`, unless it holds a single grapheme. */
  lemma {:induction false} WrapFromRowsFit(gs: seq<Grapheme>, bw: int, cur: Option<Row>)
    requires cur.Some? ==> RowFits(cur.value, bw)
    ensures forall i :: 0 <= i < |WrapFrom(gs, bw, cur)| ==> RowFits(WrapFrom(gs, bw, cur)[i], bw)
    decreases |gs|
  {
    if gs != [] {
      if IsNewline(gs[0]) {
        WrapFromRowsFit(gs[1..], bw, None);
      } else if cur.Some? && RowCols(cur.value) + Cols(gs[0]) >= bw {
        WrapFromRowsFit(gs[1..], bw, Some(Row(true, [gs[0]])));
      } else {
        if cur.Some? {
          BodyAppend(cur.value.body, gs[0]);
        }
        WrapFromRowsFit(gs[1..], bw, Some(Extend(cur, gs[0])));
      }
    }
  }

  lemma WrapRowsFit(gs: seq<Grapheme>, bw: int)
    ensures forall i :: 0 <= i < |Wrap(gs, bw)| ==> RowFits(Wrap(gs, bw)[i], bw)
  {
    WrapFromRowsFit(gs, bw, None);
  }

  /** Only graphemes that are not newlines make rows: a line of newlines, or the empty line, adds none. */
  lemma WrapEmpty(gs: seq<Grapheme>, bw: int)
    ensures Wrap(gs, bw) == [] <==> Printing(gs) == []
  {
    WrapKeepsGraphemes(gs, bw);
    WrapRowsFit(gs, bw);
    var rows := Wrap(gs, bw);
    if rows != [] {
      assert RowFits(rows[0], bw);
      assert Flatten(rows) == rows[0].body + Flatten(rows[1..]);
    }
  }

  lemma {:induction false} WrapFromHead(gs: seq<Grapheme>, bw: int, r: Row)
    ensures WrapFrom(gs, bw, Some(r)) != [] && WrapFrom(gs, bw, Some(r))[0].cont == r.cont
    decreases |gs|
  {
    if gs != [] && !IsNewline(gs[0]) && RowCols(r) + Cols(gs[0]) < bw {
      WrapFromHead(gs[1..], bw, Extend(Some(r), gs[0]));
    }
  }

  /** The first row of a line is never a continuation row. */
  lemma {:induction false} WrapFirstNotContinued(gs: seq<Grapheme>, bw: int)
    ensures Wrap(gs, bw) != [] ==> !Wrap(gs, bw)[0].cont
    decreases |gs|
  {
    if gs != [] {
      if IsNewline(gs[0]) {
        WrapFirstNotContinued(gs[1..], bw);
      } else {
        WrapFromHead(gs[1..], bw, Row(false, [gs[0]]));
      }
    }
  }

  // ---------------------------------------------------------------------------
  // What the box shows (`_redo`)

  /**
   * `_redo`'s placement: `yoffset` is the first row of the box drawn on,
   * `roffset` the first rendered row shown there, and `requested` what is left
   * of the requested scroll-back offset (none: follow the newest rows).
   */
  datatype Place = Place(yoffset: nat, roffset: nat, requested: Option<nat>)

  /**
   * Where `_redo` puts `n` rendered rows in a box `h` rows high: rows shorter
   * than the box sit at its bottom; otherwise the box is full, showing the
   * requested offset while it is below the newest possible one, and the
   * newest rows (dropping the request) when it is not.
   */
  function Placement(n: nat, h: nat, requested: Option<nat>): (p: Place)
    requires h > 0
    ensures p.yoffset <= h && p.roffset + (h - p.yoffset) <= n
    ensures n < h ==> p.yoffset == h - n && p.roffset == 0 && p.requested == requested
    ensures n >= h ==> p.yoffset == 0 && p.roffset + h <= n
    ensures p.requested.None? ==> p.roffset + (h - p.yoffset) == n
    ensures n > h && requested.Some? && requested.value < n - h ==> p.roffset == requested.value && p.requested == requested
    ensures n > h && (requested.None? || requested.value >= n - h) ==> p.requested.None?
  {
    if n < h then Place(h - n, 0, requested)
    else if n > h then
      (if requested.Some? && requested.value < n - h then Place(0, requested.value, requested)
       else Place(0, n - h, None))
    else Place(0, 0, requested)
  }

  /**
   * The box `w` x `h` showing rendered rows `rs` with rendered row `k` on box
   * row `k + curr` (`curr` is `yoffset - roffset`); rows with no rendered row
   * are cleared.
   */
  function Window(rs: seq<string>, segment: string -> seq<Grapheme>, curr: int, w: nat, h: nat)
    : (g: seq<seq<Cell>>)
    ensures |g| == h && IsGrid(g, w)
    ensures forall i :: 0 <= i < h ==> g[i] == Shown(rs, segment, i - curr, w)
  {
    var g := seq(h, i => Shown(rs, segment, i - curr, w));
    assert forall i :: 0 <= i < h ==> g[i] == Shown(rs, segment, i - curr, w);
    g
  }

  /** The box row showing rendered row `k`: cleared when there is no such row. */
  function Shown(rs: seq<string>, segment: string -> seq<Grapheme>, k: int, w: nat): (r: seq<Cell>)
    ensures |r| == w
  {
    if 0 <= k < |rs| then LineRow(rs[k], segment, Plain, w) else BlankRow(w)
  }

  /** After a completed `_redo` of a box of height `h`: every box row at or below the rendered rows has one. */
  predicate Seated(curr: int, n: nat, h: nat)
  {
    curr <= h <= curr + n
  }

  /**
   * Rows `lo .. hi - 1` of `rows` with rendered row `i - curr` written over
   * row `i` from column 0 (the `str` calls of `_redo`'s loop).
   */
  function Overlay(rows: seq<seq<Cell>>, rs: seq<string>, segment: string -> seq<Grapheme>, curr: int, lo: int, hi: int)
    : (g: seq<seq<Cell>>)
    requires curr <= lo && hi <= curr + |rs|
    ensures |g| == |rows|
    ensures forall i :: 0 <= i < |rows| ==> g[i] == Drawn(rows[i], rs, segment, i, curr, lo, hi)
  {
    var g := seq(|rows|, i requires 0 <= i < |rows| => Drawn(rows[i], rs, segment, i, curr, lo, hi));
    assert forall i :: 0 <= i < |rows| ==> g[i] == Drawn(rows[i], rs, segment, i, curr, lo, hi);
    g
  }

  /** Box row `i` after the loop: drawn over when it is one of rows `lo .. hi - 1`. */
  function Drawn(row: seq<Cell>, rs: seq<string>, segment: string -> seq<Grapheme>, i: int, curr: int, lo: int, hi: int)
    : (r: seq<Cell>)
    requires curr <= lo && hi <= curr + |rs|
    ensures |r| == |row|
  {
    if lo <= i < hi then WriteRow(row, 0, segment(rs[i - curr]), Plain).0 else row
  }

  lemma OverlayStep(rows: seq<seq<Cell>>, rs: seq<string>, segment: string -> seq<Grapheme>, curr: int, lo: int, hi: int)
    requires curr <= lo <= hi && hi + 1 <= curr + |rs|
    ensures var o := Overlay(rows, rs, segment, curr, lo, hi);
            Overlay(rows, rs, segment, curr, lo, hi + 1)
            == if 0 <= hi < |rows| then o[hi := WriteRow(o[hi], 0, segment(rs[hi - curr]), Plain).0] else o
  {
  }

  /** Writing the shown rows over a cleared grid gives the window. */
  lemma WindowFromClear(rs: seq<string>, segment: string -> seq<Grapheme>, yoff: nat, roff: nat, w: nat, h: nat)
    requires yoff <= h && roff + (h - yoff) <= |rs| && (yoff > 0 ==> roff == 0)
    ensures Overlay(BlankGrid(w, h), rs, segment, yoff - roff, yoff, h) == Window(rs, segment, yoff - roff, w, h)
  {
    var curr := yoff - roff;
    var a, b := Overlay(BlankGrid(w, h), rs, segment, curr, yoff, h), Window(rs, segment, curr, w, h);
    forall i | 0 <= i < h
      ensures a[i] == b[i]
    {
      if i < yoff {
        assert i - curr < 0;
      } else {
        assert 0 <= i - curr < |rs|;
      }
    }
  }

  /** Drawing the shown rows again over the window leaves it as it is. */
  lemma WindowRedrawn(rs: seq<string>, segment: string -> seq<Grapheme>, curr: int, yoff: int, w: nat, h: nat)
    requires curr <= yoff && h <= curr + |rs|
    ensures Overlay(Window(rs, segment, curr, w, h), rs, segment, curr, yoff, h) == Window(rs, segment, curr, w, h)
  {
    var v := Window(rs, segment, curr, w, h);
    forall i | 0 <= i < h && yoff <= i
      ensures WriteRow(v[i], 0, segment(rs[i - curr]), Plain).0 == v[i]
    {
      WriteRowTwice(BlankRow(w), 0, segment(rs[i - curr]), Plain);
    }
  }

  /**
   * A window moved up by `d` rows (newer rows coming into view at the bottom)
   * is the old window shifted up, with the `d` exposed bottom rows drawn.
   */
  lemma WindowScrolledUp(rs: seq<string>, segment: string -> seq<Grapheme>, last: int, d: int, w: nat, h: nat)
    requires 0 < d < h && last <= h && h <= last - d + |rs|
    ensures Overlay(Shifted(Window(rs, segment, last, w, h), 0, h - 1, d, BlankRow(w)), rs, segment, last - d, h - d, h)
            == Window(rs, segment, last - d, w, h)
  {
    var v := Window(rs, segment, last, w, h);
    var sh := Shifted(v, 0, h - 1, d, BlankRow(w));
    var a := Overlay(sh, rs, segment, last - d, h - d, h);
    var b := Window(rs, segment, last - d, w, h);
    forall i | 0 <= i < h
      ensures a[i] == b[i]
    {
      if i < h - d {
        assert sh[i] == v[i + d];
      } else {
        assert sh[i] == BlankRow(w);
        assert 0 <= i - (last - d) < |rs|;
      }
    }
  }

  /**
   * A window moved down by `d` rows (older rows coming into view at the top)
   * is the old window shifted down, with the `d` exposed top rows drawn.
   */
  lemma WindowScrolledDown(rs: seq<string>, segment: string -> seq<Grapheme>, last: int, d: int, w: nat, h: nat)
    requires 0 < d < h && last + d <= 0 && -last <= |rs|
    ensures Overlay(Shifted(Window(rs, segment, last, w, h), 0, h - 1, -d, BlankRow(w)), rs, segment, last + d, 0, d)
            == Window(rs, segment, last + d, w, h)
  {
    var v := Window(rs, segment, last, w, h);
    var sh := Shifted(v, 0, h - 1, -d, BlankRow(w));
    var a := Overlay(sh, rs, segment, last + d, 0, d);
    var b := Window(rs, segment, last + d, w, h);
    forall i | 0 <= i < h
      ensures a[i] == b[i]
    {
      if i < d {
        assert sh[i] == BlankRow(w);
        assert 0 <= i - (last + d) < |rs|;
      } else {
        assert sh[i] == v[i - d];
      }
    }
  }

  /** Rows added after the rendered rows of a settled box are not in view until it is redrawn. */
  lemma WindowGrows(rs: seq<string>, more: seq<string>, segment: string -> seq<Grapheme>, curr: int, w: nat, h: nat)
    requires Seated(curr, |rs|, h)
    ensures Window(rs + more, segment, curr, w, h) == Window(rs, segment, curr, w, h)
    ensures Seated(curr, |rs + more|, h)
  {
    var a, b := Window(rs + more, segment, curr, w, h), Window(rs, segment, curr, w, h);
    forall i | 0 <= i < h
      ensures a[i] == b[i]
    {
      if 0 <= i - curr < |rs| {
        assert (rs + more)[i - curr] == rs[i - curr];
      }
    }
  }

  /** A box that follows the newest rows shows the newest one in its bottom row. */
  lemma FollowShowsNewest(rs: seq<string>, segment: string -> seq<Grapheme>, requested: Option<nat>, w: nat, h: nat)
    requires h > 0 && |rs| > 0 && Placement(|rs|, h, requested).requested.None?
    ensures var p := Placement(|rs|, h, requested);
            Window(rs, segment, p.yoffset - p.roffset, w, h)[h - 1] == LineRow(rs[|rs| - 1], segment, Plain, w)
  {
  }

  /**
   * `_redo`'s incremental path as the source writes it: shift the whole box by
   * `diff`, then draw the rows the shift exposed at the top (`diff < 0`) or
   * the bottom (`diff > 0`), or every shown row when `diff` is 0.
   */
  function ScrolledAsWritten(rows: seq<seq<Cell>>, rs: seq<string>, segment: string -> seq<Grapheme>,
                             yoff: nat, roff: nat, last: int, w: nat): (g: seq<seq<Cell>>)
    requires |rows| > 0 && IsGrid(rows, w)
    requires yoff <= |rows| && roff + (|rows| - yoff) <= |rs|
    requires last <= |rows| && (last < yoff - roff ==> yoff == 0 && -last <= |rs|)
    ensures |g| == |rows|
  {
    var h, curr := |rows|, yoff - roff;
    if last < curr then Overlay(Shifted(rows, 0, h - 1, last - curr, BlankRow(w)), rs, segment, curr, yoff, yoff + (curr - last))
    else if last > curr then Overlay(Shifted(rows, 0, h - 1, last - curr, BlankRow(w)), rs, segment, curr, h - (last - curr), h)
    else Overlay(rows, rs, segment, curr, yoff, h)
  }

  /** Drawing the rows between the bounds `_redo` computes over the shifted rows gives `ScrolledAsWritten`. */
  lemma ScrolledFrom(rows: seq<seq<Cell>>, shifted: seq<seq<Cell>>, drawn: seq<seq<Cell>>, rs: seq<string>,
                     segment: string -> seq<Grapheme>, yoff: nat, roff: nat, last: int, w: nat, lo: int, hi: int)
    requires |rows| > 0 && IsGrid(rows, w)
    requires yoff <= |rows| && roff + (|rows| - yoff) <= |rs|
    requires last <= |rows| && (last < yoff - roff ==> yoff == 0 && -last <= |rs|)
    requires last - (yoff - roff) == 0 ==> shifted == rows && lo == yoff && hi == |rows|
    requires last - (yoff - roff) != 0 ==> shifted == Shifted(rows, 0, |rows| - 1, last - (yoff - roff), BlankRow(w))
    requires last < yoff - roff ==> lo == yoff && hi == yoff + ((yoff - roff) - last)
    requires last > yoff - roff ==> lo == |rows| - (last - (yoff - roff)) && hi == |rows|
    requires yoff - roff <= lo && hi <= yoff - roff + |rs|
    requires drawn == Overlay(shifted, rs, segment, yoff - roff, lo, hi)
    ensures drawn == ScrolledAsWritten(rows, rs, segment, yoff, roff, last, w)
  {
    var h, curr := |rows|, yoff - roff;
    if last < curr {
    } else if last > curr {
    } else {
    }
  }

  /** While the move is shorter than the box, the incremental path shows exactly the window. */
  lemma ScrolledAsWrittenShort(rs: seq<string>, segment: string -> seq<Grapheme>, yoff: nat, roff: nat, last: int, w: nat, h: nat)
    requires h > 0 && yoff <= h && roff + (h - yoff) <= |rs| && Seated(last, |rs|, h)
    requires last < yoff - roff ==> yoff == 0
    requires Abs(last - (yoff - roff)) < h
    ensures ScrolledAsWritten(Window(rs, segment, last, w, h), rs, segment, yoff, roff, last, w)
            == Window(rs, segment, yoff - roff, w, h)
  {
    if last > yoff - roff {
      ScrolledUpShort(rs, segment, yoff, roff, last, w, h);
    } else if last < yoff - roff {
      ScrolledDownShort(rs, segment, yoff, roff, last, w, h);
    } else {
      WindowRedrawn(rs, segment, last, yoff, w, h);
    }
  }

  /** `ScrolledAsWrittenShort` for newer rows coming into view. */
  lemma ScrolledUpShort(rs: seq<string>, segment: string -> seq<Grapheme>, yoff: nat, roff: nat, last: int, w: nat, h: nat)
    requires h > 0 && yoff <= h && roff + (h - yoff) <= |rs| && Seated(last, |rs|, h)
    requires last < yoff - roff ==> yoff == 0
    requires yoff - roff < last < yoff - roff + h
    ensures ScrolledAsWritten(Window(rs, segment, last, w, h), rs, segment, yoff, roff, last, w)
            == Window(rs, segment, yoff - roff, w, h)
  {
    var curr, v := yoff - roff, Window(rs, segment, last, w, h);
    var d := last - curr;
    assert ScrolledAsWritten(v, rs, segment, yoff, roff, last, w)
           == Overlay(Shifted(v, 0, h - 1, d, BlankRow(w)), rs, segment, curr, h - d, h);
    WindowScrolledUp(rs, segment, last, d, w, h);
    assert last - d == curr;
  }

  /** `ScrolledAsWrittenShort` for older rows coming into view. */
  lemma ScrolledDownShort(rs: seq<string>, segment: string -> seq<Grapheme>, yoff: nat, roff: nat, last: int, w: nat, h: nat)
    requires h > 0 && yoff <= h && roff + (h - yoff) <= |rs| && Seated(last, |rs|, h)
    requires last < yoff - roff ==> yoff == 0
    requires yoff - roff - h < last < yoff - roff
    ensures ScrolledAsWritten(Window(rs, segment, last, w, h), rs, segment, yoff, roff, last, w)
            == Window(rs, segment, yoff - roff, w, h)
  {
    var curr, v := yoff - roff, Window(rs, segment, last, w, h);
    var d := curr - last;
    assert ScrolledAsWritten(v, rs, segment, yoff, roff, last, w)
           == Overlay(Shifted(v, 0, h - 1, -d, BlankRow(w)), rs, segment, curr, 0, d);
    WindowScrolledDown(rs, segment, last, d, w, h);
    assert last + d == curr;
  }

  /** Splits a string into one-column graphemes, one per character. */
  function Narrow(s: string): seq<Grapheme>
  {
    seq(|s|, i requires 0 <= i < |s| => Grapheme([s[i]], 1))
  }

  /** "ab" and "x" are one rendered row each at width 3. */
  lemma RenderedShortLines()
    ensures RenderedAll(["ab"], Narrow, 3) == ["ab"] && RenderedAll(["ab", "x"], Narrow, 3) == ["ab", "x"]
  {
    var ab, x := RowTexts(Wrap(Narrow("ab"), 3)), RowTexts(Wrap(Narrow("x"), 3));
    WrapAbAtThree();
    WrapXAtThree();
    assert ["ab"][..0] == [] && ["ab", "x"][..1] == ["ab"];
    assert RenderedAll(["ab"], Narrow, 3) == RenderedAll([], Narrow, 3) + ab;
    assert RenderedAll(["ab", "x"], Narrow, 3) == RenderedAll(["ab"], Narrow, 3) + x;
  }

  /** "ab" fits one row at width 3. */
  lemma WrapAbAtThree()
    ensures RowTexts(Wrap(Narrow("ab"), 3)) == ["ab"]
  {
    var a, b := Grapheme("a", 1), Grapheme("b", 1);
    assert Narrow("ab") == [a, b];
    assert [a, b][1..] == [b] && [b][1..] == [];
    assert [a] + [b] == [a, b] && [a, b][..1] == [a] && [a][..0] == [];
    assert BodyCols([a]) == 1;
    assert WrapFrom([b], 3, Some(Row(false, [a]))) == [Row(false, [a, b])];
    assert Wrap([a, b], 3) == [Row(false, [a, b])];
    TextsAb();
    assert RowText(Row(false, [a, b])) == "ab";
  }

  /** The graphemes of "ab" join back into "ab". */
  lemma TextsAb()
    ensures Texts([Grapheme("a", 1), Grapheme("b", 1)]) == "ab"
  {
    var a, b := Grapheme("a", 1), Grapheme("b", 1);
    assert [a, b][..1] == [a] && [a][..0] == [];
    assert Texts([a]) == "a";
    assert Texts([a, b]) == "a" + "b" == "ab";
  }

  /** "x" fits one row at width 3. */
  lemma WrapXAtThree()
    ensures RowTexts(Wrap(Narrow("x"), 3)) == ["x"]
  {
    var x := Grapheme("x", 1);
    assert Narrow("x") == [x];
    assert Wrap([x], 3) == [Row(false, [x])];
    assert [x][..0] == [];
    assert RowText(Row(false, [x])) == "x";
  }

  /**
   * A one-row, three-column box that was given the line "ab" and is then given
   * the line "x": both lines fit a row, so the placement moves by one row, as
   * high as the box, `_shift_rows` moves nothing, and "x" is drawn over "ab",
   * leaving "xb" where the window shows "x" alone.
   */
  lemma LongScrollLeavesStaleCells()
    ensures RenderedAll(["ab"], Narrow, 3) == ["ab"] && RenderedAll(["ab", "x"], Narrow, 3) == ["ab", "x"]
    ensures Placement(1, 1, None) == Place(0, 0, None) && Placement(2, 1, None) == Place(0, 1, None)
    ensures var before := Window(["ab"], Narrow, 0, 3, 1);
            ScrolledAsWritten(before, ["ab", "x"], Narrow, 0, 1, 0, 3)[0][1] == Written("b", 1, Plain)
            && Window(["ab", "x"], Narrow, -1, 3, 1)[0][1] == Blank
            && Written("b", 1, Plain) != Blank
  {
    var ab, x := Narrow("ab"), Narrow("x");
    RenderedShortLines();
    assert AllNarrow(ab) && AllNarrow(x);
    WriteRowNarrowCells(BlankRow(3), 0, ab, Plain);
    var before := Window(["ab"], Narrow, 0, 3, 1);
    assert before[0] == LineRow("ab", Narrow, Plain, 3);
    assert Shifted(before, 0, 0, 1, BlankRow(3)) == before;
    WriteRowNarrowCells(before[0], 0, x, Plain);
    WriteRowNarrowCells(BlankRow(3), 0, x, Plain);
    assert Written("b", 1, Plain).glyph == "b";
  }

  class LogBox {
    const grid: Region
    /** `forEachGrapheme` with `wcswidth`: a string cut into measured graphemes. */
    const segment: string -> seq<Grapheme>
    /** `lb_lines`: every line added, oldest first. */
    var lines: seq<string>
    /** `lb_rendered`: the lines wrapped to `lastw` columns. */
    var rendered: seq<string>
    /** `lb_lastw` and `lb_lasth`: the size at the last `_renderAll` (-1 before the first). */
    var lastw: int
    var lasth: int
    /** `lb_roffset`: the requested first rendered row, or none to follow the newest rows. */
    var roffset: Option<nat>
    /** `lb_roffset_last` and `lb_yoffset_last`: the placement of the last `_redo`. */
    var roffsetLast: nat
    var yoffsetLast: nat

    /** The rendered rows are the lines wrapped to the width they were last wrapped to. */
    ghost predicate Consistent()
      reads this
    {
      rendered == RenderedAll(lines, segment, lastw)
    }

    /** The box is drawn: the grid shows the window the last `_redo` placed. */
    ghost predicate Valid()
      reads this, grid
    {
      grid.Valid() && Consistent()
      && lastw == grid.width && lasth == grid.height
      && grid.rows == Window(rendered, segment, yoffsetLast - roffsetLast, grid.width, grid.height)
      && (grid.height > 0 ==> Seated(yoffsetLast - roffsetLast, |rendered|, grid.height))
    }

    /**
     * What `_redo` needs: the rendered rows are up to date for their width, and
     * when the size is the one last drawn at, the grid still shows that window.
     */
    ghost predicate Ready()
      reads this, grid
    {
      grid.Valid() && Consistent()
      && (lastw == grid.width && lasth == grid.height && grid.height > 0 ==>
            Seated(yoffsetLast - roffsetLast, |rendered|, grid.height)
            && grid.rows == Window(rendered, segment, yoffsetLast - roffsetLast, grid.width, grid.height))
    }

    /** `new LogBox({ width: w, height: h })`: no lines yet, following the newest. */
    constructor (w: nat, h: nat, segment: string -> seq<Grapheme>)
      ensures Valid() && fresh(grid)
      ensures lines == [] && rendered == [] && roffset.None? && this.segment == segment
      ensures grid.width == (if w == 0 then 1 else w) && grid.height == (if h == 0 then 1 else h)
    {
      grid := new Region(w, h);
      this.segment := segment;
      lines, rendered := [], [];
      lastw, lasth := -1, -1;
      roffset := None;
      roffsetLast, yoffsetLast := 0, 0;
      new;
      Redo();
    }

    /**
     * `addg(g, w)`: a newline commits the row under construction; any other
     * grapheme first commits and starts a `'~ '` continuation row when it
     * would reach the width, then joins the row.
     */
    method AddGrapheme(g: Grapheme, bw: int, rs: Option<string>, rl: int, ghost cur: Option<Row>)
      returns (rs': Option<string>, rl': int)
      requires rs == (if cur.Some? then Some(RowText(cur.value)) else None)
      requires rl == (if cur.Some? then RowCols(cur.value) else 0)
      modifies this`rendered
      ensures rendered == old(rendered) + RowTexts(Emitted(cur, g, bw))
      ensures var n := Next(cur, g, bw);
              rs' == (if n.Some? then Some(RowText(n.value)) else None) && rl' == (if n.Some? then RowCols(n.value) else 0)
    {
      var dw := Max(g.width, 1);
      if g.text == "\n" {
        // commit()
        if rs.Some? {
          rendered := rendered + [rs.value];
        }
        return None, 0;
      }
      NextText(cur, g, bw);
      rs', rl' := rs, rl;
      if rs'.Some? && rl' + dw >= bw {
        // commit(), then addc('~ ', 2)
        rendered := rendered + [rs'.value];
        rs', rl' := Some("~ "), 2;
      }
      // addc(g, dw)
      rs', rl' := Some((if rs'.Some? then rs'.value else "") + g.text), rl' + dw;
    }

    /**
     * `_renderLine(line, bw)`: wrap one line, with `rs` and `rl` the text and
     * columns of the row under construction, and append its rows to
     * `lb_rendered`.
     */
    method RenderLine(line: string, bw: int)
      modifies this`rendered
      ensures rendered == old(rendered) + RowTexts(Wrap(segment(line), bw))
    {
      var gs := segment(line);
      var rs: Option<string> := None;
      var rl := 0;
      ghost var whole, base := Wrap(gs, bw), rendered;
      ghost var cur: Option<Row> := None;
      ghost var done: seq<Row> := [];
      var i := 0;
      while i < |gs|
        invariant 0 <= i <= |gs|
        invariant rs == (if cur.Some? then Some(RowText(cur.value)) else None)
        invariant rl == (if cur.Some? then RowCols(cur.value) else 0)
        invariant rendered == base + RowTexts(done)
        invariant done + WrapFrom(gs[i..], bw, cur) == whole
      {
        WrapDoneStep(gs, i, bw, cur, done, whole, base, rendered);
        rs, rl := AddGrapheme(gs[i], bw, rs, rl, cur);
        done, cur := done + Emitted(cur, gs[i], bw), Next(cur, gs[i], bw);
        i := i + 1;
      }
      // commit()
      WrapDoneEnd(gs[i..], bw, cur, done, whole, base, rendered);
      if rs.Some? {
        rendered := rendered + [rs.value];
      }
    }

    /**
     * `_renderAll`: record the size; with the width unchanged keep the
     * rendered rows and answer whether the height changed, otherwise rewrap
     * every line and answer true (a full redraw is needed).
     */
    method RenderAll() returns (full: bool)
      modifies this`rendered, this`lastw, this`lasth
      ensures lastw == grid.width && lasth == grid.height
      ensures old(lastw) == grid.width ==> rendered == old(rendered) && (full <==> grid.height != old(lasth))
      ensures old(lastw) != grid.width ==> full && rendered == RenderedAll(lines, segment, grid.width)
    {
      var bw, bh := grid.width, grid.height;
      var lw, lh := lastw, lasth;
      lastw, lasth := bw, bh;
      if bw == lw {
        return bh != lh;
      }
      rendered := [];
      var i := 0;
      while i < |lines|
        invariant 0 <= i <= |lines| && rendered == RenderedAll(lines[..i], segment, bw)
        invariant lastw == bw && lasth == bh
      {
        assert lines[..i + 1][..i] == lines[..i];
        RenderLine(lines[i], bw);
        i := i + 1;
      }
      assert lines[..i] == lines;
      return true;
    }

    /** `_redo`'s loop: draw rendered row `roff + idx` on box row `yoff + idx` for each `idx` in `idx0 .. end - 1`. */
    method WriteRows(yoff: int, roff: int, idx0: int, end: int)
      requires grid.Valid() && idx0 <= end && 0 <= roff + idx0 && roff + end <= |rendered|
      modifies grid`rows
      ensures grid.Valid()
      ensures grid.rows == Overlay(old(grid.rows), rendered, segment, yoff - roff, yoff + idx0, yoff + end)
    {
      var idx := idx0;
      while idx < end
        invariant idx0 <= idx <= end && grid.Valid()
        invariant grid.rows == Overlay(old(grid.rows), rendered, segment, yoff - roff, yoff + idx0, yoff + idx)
      {
        OverlayStep(old(grid.rows), rendered, segment, yoff - roff, yoff + idx0, yoff + idx);
        var _ := grid.Str(0, yoff + idx, segment(rendered[roff + idx]), Plain);
        idx := idx + 1;
      }
    }

    /** `_redo`'s full path: clear the grid, then draw every shown row. */
    method RedrawAll(yoff: nat, roff: nat)
      requires grid.Valid() && yoff <= grid.height && roff + (grid.height - yoff) <= |rendered|
      requires yoff > 0 ==> roff == 0
      modifies grid`rows
      ensures grid.Valid()
      ensures grid.rows == Window(rendered, segment, yoff - roff, grid.width, grid.height)
    {
      grid.Clear();
      WindowFromClear(rendered, segment, yoff, roff, grid.width, grid.height);
      WriteRows(yoff, roff, 0, grid.height - yoff);
    }

    /** `shift_rows(0, height - 1, diff)` on the whole box. */
    method ShiftBox(diff: int)
      requires grid.Valid() && grid.height > 0
      modifies grid`rows, grid`hints
      ensures grid.Valid()
      ensures grid.rows == if diff == 0 then old(grid.rows) else Shifted(old(grid.rows), 0, |old(grid.rows)| - 1, diff, BlankRow(grid.width))
    {
      grid.ShiftRows(0, grid.height - 1, diff);
      assert Max(0, 0) == 0 && Min(grid.height - 1, grid.height - 1) == grid.height - 1;
    }

    /**
     * `_redo`'s incremental path: shift the rows by the change in placement
     * and draw the rows that came into view.
     */
    method Scroll(yoff: nat, roff: nat)
      requires grid.Valid() && grid.height > 0
      requires yoff <= grid.height && roff + (grid.height - yoff) <= |rendered|
      requires yoffsetLast - roffsetLast <= grid.height
      requires yoffsetLast - roffsetLast < yoff - roff ==> yoff == 0 && roffsetLast - yoffsetLast <= |rendered|
      modifies grid`rows, grid`hints
      ensures grid.Valid()
      ensures grid.rows == ScrolledAsWritten(old(grid.rows), rendered, segment, yoff, roff,
                                             yoffsetLast - roffsetLast, grid.width)
    {
      var last := yoffsetLast - roffsetLast;
      var diff := last - (yoff - roff);
      ghost var rows0 := grid.rows;
      ShiftBox(diff);
      ghost var shifted := grid.rows;
      var idx, end := DrawExposed(yoff, roff, diff);
      ScrolledFrom(rows0, shifted, grid.rows, rendered, segment, yoff, roff, last, grid.width, yoff + idx, yoff + end);
    }

    /**
     * The second half of `_redo`'s incremental path: after a shift by `diff`,
     * draw the rows exposed at the top (`diff < 0`) or the bottom
     * (`diff > 0`), or every shown row when `diff` is 0.
     */
    method DrawExposed(yoff: nat, roff: nat, diff: int) returns (idx: int, end: int)
      requires grid.Valid() && yoff <= grid.height && roff + (grid.height - yoff) <= |rendered|
      requires 0 <= grid.height - yoff - diff + roff
      requires diff < 0 ==> yoff == 0 && roff - diff <= |rendered|
      modifies grid`rows
      ensures grid.Valid()
      ensures idx == (if diff > 0 then grid.height - yoff - diff else 0)
      ensures end == (if diff < 0 then -diff else grid.height - yoff)
      ensures grid.rows == Overlay(old(grid.rows), rendered, segment, yoff - roff, yoff + idx, yoff + end)
    {
      idx, end := 0, grid.height - yoff;
      if diff < 0 {
        // Draw new text at the top.
        end := -diff;
      } else if diff > 0 {
        // Draw new text at the bottom.
        idx := end - diff;
      }
      WriteRows(yoff, roff, idx, end);
    }

    /**
     * The drawing half of `_redo`: a full redraw, or the incremental path when
     * the grid still shows the last placement.  A change of placement of a
     * whole box height or more is drawn in full: shifting by it would keep one
     * stale row (see `LongScrollLeavesStaleCells`).
     */
    method Paint(full: bool, yoff: nat, roff: nat)
      requires grid.Valid() && grid.height > 0
      requires yoff <= grid.height && roff + (grid.height - yoff) <= |rendered|
      requires yoff > 0 ==> roff == 0 && yoff + |rendered| == grid.height
      requires !full ==> Seated(yoffsetLast - roffsetLast, |rendered|, grid.height)
                         && grid.rows == Window(rendered, segment, yoffsetLast - roffsetLast, grid.width, grid.height)
      modifies grid`rows, grid`hints
      ensures grid.Valid()
      ensures grid.rows == Window(rendered, segment, yoff - roff, grid.width, grid.height)
    {
      var last := yoffsetLast - roffsetLast;
      if full || Abs(last - (yoff - roff)) >= grid.height {
        RedrawAll(yoff, roff);
      } else {
        ScrolledAsWrittenShort(rendered, segment, yoff, roff, last, grid.width, grid.height);
        Scroll(yoff, roff);
      }
    }

    /**
     * `_redo`: rewrap if the size changed; with a height of 0 stop there;
     * otherwise place the rendered rows, dropping a scroll-back request that
     * reaches the newest rows, draw them and remember the placement.
     */
    method Redo()
      requires Ready()
      modifies this`rendered, this`lastw, this`lasth, this`roffset, this`roffsetLast, this`yoffsetLast
      modifies grid`rows, grid`hints
      ensures Valid()
      ensures old(lastw) == grid.width ==> rendered == old(rendered)
      ensures grid.height == 0 ==> roffset == old(roffset)
      ensures grid.height > 0 ==>
                Placement(|rendered|, grid.height, old(roffset)) == Place(yoffsetLast, roffsetLast, roffset)
    {
      var full := RenderAll();
      if grid.height == 0 {
        assert grid.rows == Window(rendered, segment, yoffsetLast - roffsetLast, grid.width, 0);
        return;
      }
      Show(full);
    }

    /** The second half of `_redo`, once the rows are rendered for a box of some height. */
    method Show(full: bool)
      requires grid.Valid() && Consistent() && grid.height > 0
      requires lastw == grid.width && lasth == grid.height
      requires !full ==> Seated(yoffsetLast - roffsetLast, |rendered|, grid.height)
                         && grid.rows == Window(rendered, segment, yoffsetLast - roffsetLast, grid.width, grid.height)
      modifies this`roffset, this`roffsetLast, this`yoffsetLast, grid`rows, grid`hints
      ensures Valid()
      ensures Placement(|rendered|, grid.height, old(roffset)) == Place(yoffsetLast, roffsetLast, roffset)
    {
      var p := Placement(|rendered|, grid.height, roffset);
      roffset := p.requested;
      Paint(full, p.yoffset, p.roffset);
      yoffsetLast, roffsetLast := p.yoffset, p.roffset;
    }

    /**
     * `offset(off)`: scroll back (`off < 0`) or forward from the last
     * placement; the box then shows its rows from `off` rows further on,
     * stopping at the oldest and at the newest rows.
     */
    method Offset(off: int)
      requires Valid()
      modifies this`rendered, this`lastw, this`lasth, this`roffset, this`roffsetLast, this`yoffsetLast
      modifies grid`rows, grid`hints
      ensures Valid() && lines == old(lines) && rendered == old(rendered)
      ensures grid.height > 0 ==>
                roffsetLast == Min(Max(old(roffsetLast) + off, 0), Max(|rendered| - grid.height, 0))
    {
      var r := Max(roffsetLast + off, 0);
      roffset := Some(r);
      Redo();
    }

    /**
     * `moveto(pos)`: 'top' shows the oldest rows, 'bottom' follows the newest;
     * any other position is an error (the source throws) and changes nothing.
     */
    method MoveTo(pos: string) returns (ok: bool)
      requires Valid()
      modifies this`rendered, this`lastw, this`lasth, this`roffset, this`roffsetLast, this`yoffsetLast
      modifies grid`rows, grid`hints
      ensures Valid() && lines == old(lines) && rendered == old(rendered)
      ensures ok <==> pos == "top" || pos == "bottom"
      ensures !ok ==> roffset == old(roffset) && grid.rows == old(grid.rows)
      ensures ok && grid.height > 0 && pos == "top" ==> roffsetLast == 0
      ensures ok && grid.height > 0 && pos == "bottom" ==>
                roffset.None? && roffsetLast + (grid.height - yoffsetLast) == |rendered|
    {
      if pos == "top" {
        roffset := Some(0);
      } else if pos == "bottom" {
        roffset := None;
      } else {
        return false;
      }
      Redo();
      ok := true;
    }

    /** `add(line)`: keep the line, wrap it onto the rendered rows and redraw. */
    method Add(line: string)
      requires Valid()
      modifies this`lines, this`rendered, this`lastw, this`lasth, this`roffset, this`roffsetLast, this`yoffsetLast
      modifies grid`rows, grid`hints
      ensures Valid() && lines == old(lines) + [line]
      ensures rendered == old(rendered) + RowTexts(Wrap(segment(line), grid.width))
      ensures grid.height > 0 && old(roffset).None? ==>
                roffset.None? && roffsetLast + (grid.height - yoffsetLast) == |rendered|
      ensures grid.height > 0 ==>
                Placement(|rendered|, grid.height, old(roffset)) == Place(yoffsetLast, roffsetLast, roffset)
    {
      lines := lines + [line];
      assert lines[..|lines| - 1] == old(lines);
      RenderLine(line, grid.width);
      if grid.height > 0 {
        WindowGrows(old(rendered), rendered[|old(rendered)|..], segment, yoffsetLast - roffsetLast, grid.width, grid.height);
        assert old(rendered) + rendered[|old(rendered)|..] == rendered;
      }
      Redo();
    }

    /** `resize(w, h)`: when the size changes the 'resize' handler redraws the box. */
    method Resize(w: nat, h: nat) returns (changed: bool)
      requires Valid()
      modifies this`rendered, this`lastw, this`lasth, this`roffset, this`roffsetLast, this`yoffsetLast, grid
      ensures Valid() && grid.width == w && grid.height == h && lines == old(lines)
      ensures changed <==> (w != old(grid.width) || h != old(grid.height))
      ensures !changed ==> rendered == old(rendered) && grid.rows == old(grid.rows)
      ensures changed && h > 0 ==>
                Placement(|rendered|, grid.height, old(roffset)) == Place(yoffsetLast, roffsetLast, roffset)
    {
      changed := grid.Resize(w, h);
      if changed {
        Redo();
      }
    }
  }
}
