/**
 * A vertical stack of child regions (lib/controls/layout.js): the layout's
 * height is shared among its children, fixed-height children first and the
 * rest by weight, with optional border rows between and around them.
 *
 * The layout is a Region in the source (prototype inheritance); here it owns
 * its `grid` Region, in which the borders are drawn.
 */
module Layouts {
  import opened Wrappers
  import opened Cells
  import opened Strings
  import opened Regions
  import opened BoxDraw

  /**
   * One entry of `lay_children`: the child's rectangle inside the layout, its
   * label (empty for none), its weight and its fixed height (0 for none).
   */
  datatype Slot = Slot(x: int, y: int, width: nat, height: nat, caption: string,
                       weight: nat, fixedHeight: nat, region: Region)

  /* ---------- The sizing arithmetic of `_redo`, as functions of the children ---------- */

  /** `fhrows`: the rows the fixed-height children take. */
  function FixedRows(cs: seq<Slot>): nat
  {
    if cs == [] then 0 else FixedRows(cs[..|cs| - 1]) + cs[|cs| - 1].fixedHeight
  }

  /** `weights`: the total weight of the children without a fixed height. */
  function Weights(cs: seq<Slot>): nat
  {
    if cs == [] then 0
    else Weights(cs[..|cs| - 1]) + (if cs[|cs| - 1].fixedHeight == 0 then cs[|cs| - 1].weight else 0)
  }

  /** `max_weighted_idx`: the last child without a fixed height, or -1. */
  function LastWeighted(cs: seq<Slot>): (r: int)
    ensures -1 <= r < |cs|
    ensures r >= 0 ==> cs[r].fixedHeight == 0
    ensures forall j :: r < j < |cs| ==> cs[j].fixedHeight > 0
  {
    if cs == [] then -1
    else if cs[|cs| - 1].fixedHeight == 0 then |cs| - 1
    else LastWeighted(cs[..|cs| - 1])
  }

  /**
   * `fixed_height_remainder`: rows (with their border) of the fixed children
   * after the last weighted one; a weighted child resets the running total.
   */
  function FixedRemainder(cs: seq<Slot>, bh: nat): nat
  {
    if cs == [] then 0
    else if cs[|cs| - 1].fixedHeight == 0 then 0
    else FixedRemainder(cs[..|cs| - 1], bh) + cs[|cs| - 1].fixedHeight + bh
  }

  /** The rows left for the weighted children (the numerator of `height_per_weight`). */
  function Avail(cs: seq<Slot>, ht: int, bh: nat): int
  {
    ht - bh - FixedRows(cs) - bh * |cs|
  }

  /**
   * A child's height before the slack is handed out: its fixed height, or
   * floor(weight * height_per_weight), where a negative `height_per_weight`
   * counts as 0.
   */
  function Base(c: Slot, avail: int, weights: nat): nat
  {
    if c.fixedHeight > 0 then c.fixedHeight
    else if avail <= 0 || weights == 0 then 0
    else c.weight * avail / weights
  }

  /**
   * The height `_redo` gives child `i`: its base height, plus, for the last
   * weighted child, whatever rows remain once the fixed children below it
   * are accounted for.
   */
  function HeightAt(cs: seq<Slot>, ht: int, bh: nat, i: nat): nat
    requires i < |cs|
    decreases i, 1
  {
    var b := Base(cs[i], Avail(cs, ht, bh), Weights(cs));
    if i == LastWeighted(cs) then b + Max(0, ht - bh - RowAt(cs, ht, bh, i) - (b + bh) - FixedRemainder(cs, bh))
    else b
  }

  /** The running `y` of `_redo` before child `i`: the rows the children above it take, with their borders. */
  function RowAt(cs: seq<Slot>, ht: int, bh: nat, i: nat): int
    requires i <= |cs|
    decreases i, 0
  {
    if i == 0 then 0 else RowAt(cs, ht, bh, i - 1) + HeightAt(cs, ht, bh, i - 1) + bh
  }

  /* ---------- The partition property ---------- */

  /** The sum of the base heights. */
  function BaseSum(cs: seq<Slot>, avail: int, weights: nat): nat
  {
    if cs == [] then 0 else BaseSum(cs[..|cs| - 1], avail, weights) + Base(cs[|cs| - 1], avail, weights)
  }

  /** The rows, with their border, of a run of fixed-height children. */
  function FixedWithBorders(cs: seq<Slot>, bh: nat): nat
  {
    if cs == [] then 0 else FixedWithBorders(cs[..|cs| - 1], bh) + cs[|cs| - 1].fixedHeight + bh
  }

  lemma FloorTimesDivisor(a: nat, d: nat)
    requires d > 0
    ensures (a / d) * d <= a
  {
  }

  /** Flooring each share never hands out more than the rows available. */
  lemma {:induction false} BaseSumBound(cs: seq<Slot>, avail: int, weights: nat)
    requires avail >= 0 && weights > 0
    ensures BaseSum(cs, avail, weights) * weights <= FixedRows(cs) * weights + Weights(cs) * avail
  {
    if cs != [] {
      var p := cs[..|cs| - 1];
      var c := cs[|cs| - 1];
      BaseSumBound(p, avail, weights);
      var bp, bc := BaseSum(p, avail, weights), Base(c, avail, weights);
      var fp, wp := FixedRows(p), Weights(p);
      var wc := if c.fixedHeight == 0 then c.weight else 0;
      MulAdd(bp, bc, weights);
      MulAdd(fp, c.fixedHeight, weights);
      MulAdd(wp, wc, avail);
      BaseBound(c, avail, weights);
      SumBound(bp * weights, bc * weights, fp * weights, c.fixedHeight * weights, wp * avail, wc * avail);
    }
  }

  /** One child's share: `Base * weights` is its fixed rows times `weights`, or at most `weight * avail`. */
  lemma BaseBound(c: Slot, avail: int, weights: nat)
    requires avail >= 0 && weights > 0
    ensures Base(c, avail, weights) * weights
            <= c.fixedHeight * weights + (if c.fixedHeight == 0 then c.weight else 0) * avail
  {
    if c.fixedHeight == 0 && avail > 0 {
      FloorTimesDivisor(c.weight * avail, weights);
    }
  }

  lemma MulAdd(a: int, b: int, w: int)
    ensures (a + b) * w == a * w + b * w
  {
  }

  lemma SumBound(b1: int, b2: int, f1: int, f2: int, a1: int, a2: int)
    requires b1 <= f1 + a1 && b2 <= f2 + a2
    ensures b1 + b2 <= (f1 + f2) + (a1 + a2)
  {
  }

  /** The running row before child `i` up to the last weighted child is the sum of the base heights above it. */
  lemma {:induction false} RowAtBeforeSlack(cs: seq<Slot>, ht: int, bh: nat, i: nat)
    requires i <= |cs| && i <= LastWeighted(cs)
    ensures RowAt(cs, ht, bh, i) == BaseSum(cs[..i], Avail(cs, ht, bh), Weights(cs)) + bh * i
  {
    if i > 0 {
      RowAtBeforeSlack(cs, ht, bh, i - 1);
      assert cs[..i][..i - 1] == cs[..i - 1];
    }
  }

  /** The fixed-height remainder is the fixed rows, with borders, after the last weighted child. */
  lemma {:induction false} FixedRemainderIsTail(cs: seq<Slot>, bh: nat)
    ensures FixedRemainder(cs, bh) == FixedWithBorders(cs[LastWeighted(cs) + 1..], bh)
  {
    if cs != [] {
      var p := cs[..|cs| - 1];
      if cs[|cs| - 1].fixedHeight != 0 {
        FixedRemainderIsTail(p, bh);
        assert LastWeighted(cs) == LastWeighted(p);
        assert cs[LastWeighted(cs) + 1..][..|cs[LastWeighted(cs) + 1..]| - 1] == p[LastWeighted(p) + 1..];
      }
    }
  }

  /** Past the last weighted child, each fixed child and its border advance the running row. */
  lemma {:induction false} RowAtAfterSlack(cs: seq<Slot>, ht: int, bh: nat, i: nat)
    requires 0 <= LastWeighted(cs) < i <= |cs|
    ensures RowAt(cs, ht, bh, i) == RowAt(cs, ht, bh, LastWeighted(cs) + 1)
                                    + FixedWithBorders(cs[LastWeighted(cs) + 1..i], bh)
  {
    var lw := LastWeighted(cs);
    if i > lw + 1 {
      RowAtAfterSlack(cs, ht, bh, i - 1);
      assert cs[lw + 1..i][..i - 1 - (lw + 1)] == cs[lw + 1..i - 1];
    }
  }

  /** The base heights of children `k..`. */
  function BaseSumFrom(cs: seq<Slot>, k: nat, avail: int, weights: nat): nat
    requires k <= |cs|
    decreases |cs| - k
  {
    if k == |cs| then 0 else Base(cs[k], avail, weights) + BaseSumFrom(cs, k + 1, avail, weights)
  }

  lemma {:induction false} BaseSumSplit(cs: seq<Slot>, k: nat, avail: int, weights: nat)
    requires k <= |cs|
    ensures BaseSum(cs, avail, weights) == BaseSum(cs[..k], avail, weights) + BaseSumFrom(cs, k, avail, weights)
    decreases |cs| - k
  {
    if k < |cs| {
      BaseSumSplit(cs, k + 1, avail, weights);
      assert cs[..k + 1][..k] == cs[..k];
    } else {
      assert cs[..k] == cs;
    }
  }

  /** A run of fixed-height children: their rows with borders are their base heights plus one border each. */
  lemma {:induction false} FixedTail(cs: seq<Slot>, k: nat, avail: int, weights: nat, bh: nat)
    requires k <= |cs| && forall j :: k <= j < |cs| ==> cs[j].fixedHeight > 0
    ensures FixedWithBorders(cs[k..], bh) == BaseSumFrom(cs, k, avail, weights) + bh * (|cs| - k)
    decreases |cs| - k
  {
    if k < |cs| {
      FixedTail(cs, k + 1, avail, weights, bh);
      FixedWithBordersCons(cs[k..], bh);
      assert cs[k..][1..] == cs[k + 1..];
    }
  }

  lemma {:induction false} FixedWithBordersCons(s: seq<Slot>, bh: nat)
    requires s != []
    ensures FixedWithBorders(s, bh) == s[0].fixedHeight + bh + FixedWithBorders(s[1..], bh)
    decreases |s|
  {
    if |s| > 1 {
      FixedWithBordersCons(s[..|s| - 1], bh);
      assert s[..|s| - 1][1..] == s[1..][..|s[1..]| - 1];
    } else {
      assert s[1..] == [];
      assert s[..|s| - 1] == [];
    }
  }

  /** Every child carries a weight of at least 1 (`options.weight || 1`). */
  predicate WeightsValid(cs: seq<Slot>)
  {
    forall j :: 0 <= j < |cs| ==> cs[j].weight >= 1
  }

  /**
   * The partition: when some child is weighted and the fixed children and
   * borders leave no deficit, the children's heights and the border rows
   * between and around them add up to exactly the layout's height.
   */
  lemma HeightsPartition(cs: seq<Slot>, ht: int, bh: nat)
    requires WeightsValid(cs) && LastWeighted(cs) >= 0 && Avail(cs, ht, bh) >= 0
    ensures RowAt(cs, ht, bh, |cs|) + bh == ht
  {
    var n, lw := |cs|, LastWeighted(cs);
    var avail, w := Avail(cs, ht, bh), Weights(cs);
    var b := Base(cs[lw], avail, w);
    var fr := FixedRemainder(cs, bh);
    var head, tail := BaseSum(cs[..lw], avail, w), BaseSumFrom(cs, lw + 1, avail, w);
    var total := BaseSum(cs, avail, w);
    WeightsPositive(cs, lw);
    RowAtBeforeSlack(cs, ht, bh, lw);
    BaseSumSplit(cs, lw, avail, w);
    assert total == head + b + tail;
    FixedTail(cs, lw + 1, avail, w, bh);
    FixedRemainderIsTail(cs, bh);
    assert fr == tail + bh * (n - lw - 1);
    // The floors leave a non-negative slack.
    BaseSumBound(cs, avail, w);
    DivideBound(total, FixedRows(cs), avail, w);
    BorderRows(bh, lw, n);
    assert ht - bh - RowAt(cs, ht, bh, lw) - (b + bh) - fr >= 0;
    assert RowAt(cs, ht, bh, lw + 1) == ht - bh - fr;
    RowAtAfterSlack(cs, ht, bh, n);
    assert cs[lw + 1..n] == cs[lw + 1..];
  }

  lemma BorderRows(bh: nat, lw: nat, n: nat)
    requires lw < n
    ensures bh * lw + bh + bh * (n - lw - 1) == bh * n
  {
  }

  lemma DivideBound(s: nat, f: nat, a: int, w: nat)
    requires w > 0 && a >= 0 && s * w <= f * w + w * a
    ensures s <= f + a
  {
    MulAdd(f, a, w);
    if s > f + a {
      MulStrict(s, f + a, w);
    }
  }

  lemma MulStrict(p: int, q: int, w: nat)
    requires p > q && w > 0
    ensures p * w > q * w
    decreases w
  {
    if w > 1 {
      MulStrict(p, q, w - 1);
      assert p * w == p * (w - 1) + p && q * w == q * (w - 1) + q;
    }
  }

  /** The last weighted child's weight is part of the total, so the total is positive. */
  lemma {:induction false} WeightsPositive(cs: seq<Slot>, i: int)
    requires 0 <= i < |cs| && cs[i].fixedHeight == 0 && cs[i].weight >= 1
    ensures Weights(cs) >= 1
  {
    if i < |cs| - 1 {
      WeightsPositive(cs[..|cs| - 1], i);
    }
  }

  /** The example of a bordered layout ten rows high with two children of weight 1: they get 3 and 4 rows. */
  lemma TwoEqualChildrenInTen(r1: Region, r2: Region)
    ensures var cs := [Slot(0, 0, 0, 0, "", 1, 0, r1), Slot(0, 0, 0, 0, "", 1, 0, r2)];
            HeightAt(cs, 10, 1, 0) == 3 && HeightAt(cs, 10, 1, 1) == 4
  {
    var cs := [Slot(0, 0, 0, 0, "", 1, 0, r1), Slot(0, 0, 0, 0, "", 1, 0, r2)];
    var p := cs[..1];
    assert cs[..|cs| - 1] == p && p[..|p| - 1] == [];
    assert FixedRows(p) == 0 && Weights(p) == 1;
    assert FixedRows(cs) == 0 && Weights(cs) == 2 && LastWeighted(cs) == 1;
    assert FixedRemainder(cs, 1) == 0;
    assert Avail(cs, 10, 1) == 7;
    assert HeightAt(cs, 10, 1, 0) == 3;
    assert RowAt(cs, 10, 1, 1) == 4;
  }

  /* ---------- Geometry after `_redo` ---------- */

  /** The child records with the rectangles `_redo` computes for a layout `w` x `ht`. */
  function Laid(cs: seq<Slot>, w: int, ht: int, border: bool): (r: seq<Slot>)
    ensures |r| == |cs|
  {
    seq(|cs|, i requires 0 <= i < |cs| => LaidAt(cs, w, ht, border, i))
  }

  /** Child `i`'s record after `_redo`: inset by the border, at its running row, with its computed height. */
  function LaidAt(cs: seq<Slot>, w: int, ht: int, border: bool, i: nat): Slot
    requires i < |cs|
  {
    var b: nat := if border then 1 else 0;
    cs[i].(x := b, y := RowAt(cs, ht, b, i) + b, width := Max(0, w - 2 * b) as nat,
           height := HeightAt(cs, ht, b, i))
  }

  /** Two child lists with the same weights and fixed heights, child by child. */
  predicate SameSizing(a: seq<Slot>, b: seq<Slot>)
  {
    |a| == |b| && forall i :: 0 <= i < |a| ==> a[i].weight == b[i].weight && a[i].fixedHeight == b[i].fixedHeight
  }

  lemma {:induction false} SameSizingTotals(a: seq<Slot>, b: seq<Slot>, bh: nat)
    requires SameSizing(a, b)
    ensures FixedRows(a) == FixedRows(b) && Weights(a) == Weights(b)
    ensures LastWeighted(a) == LastWeighted(b) && FixedRemainder(a, bh) == FixedRemainder(b, bh)
    decreases |a|
  {
    if a != [] {
      SameSizingTotals(a[..|a| - 1], b[..|b| - 1], bh);
    }
  }

  lemma {:induction false} SameSizingRows(a: seq<Slot>, b: seq<Slot>, ht: int, bh: nat, i: nat)
    requires SameSizing(a, b) && i <= |a|
    ensures RowAt(a, ht, bh, i) == RowAt(b, ht, bh, i)
    ensures i < |a| ==> HeightAt(a, ht, bh, i) == HeightAt(b, ht, bh, i)
  {
    SameSizingTotals(a, b, bh);
    if i > 0 {
      SameSizingRows(a, b, ht, bh, i - 1);
    }
  }

  /** Laying out the children again changes nothing: `_redo` depends only on weights, fixed heights and size. */
  lemma LaidIdempotent(cs: seq<Slot>, w: int, ht: int, border: bool)
    ensures Laid(Laid(cs, w, ht, border), w, ht, border) == Laid(cs, w, ht, border)
  {
    var l := Laid(cs, w, ht, border);
    var b: nat := if border then 1 else 0;
    assert SameSizing(l, cs);
    forall i | 0 <= i < |cs|
      ensures Laid(l, w, ht, border)[i] == l[i]
    {
      SameSizingRows(l, cs, ht, b, i);
    }
  }

  /**
   * The children are stacked in list order: each child starts one border row
   * below the end of the one before it, and the first one border row below
   * the top.
   */
  lemma LaidStacked(cs: seq<Slot>, w: int, ht: int, border: bool)
    ensures var l, b := Laid(cs, w, ht, border), if border then 1 else 0;
            (|l| > 0 ==> l[0].y == b)
            && forall i :: 0 <= i < |l| - 1 ==> l[i + 1].y == l[i].y + l[i].height + b
  {
  }

  /**
   * With a weighted child and no deficit, the last child ends exactly one
   * border row above the bottom of the layout.
   */
  lemma LaidFillsHeight(cs: seq<Slot>, w: int, ht: int, border: bool)
    requires WeightsValid(cs) && |cs| > 0
    requires LastWeighted(cs) >= 0 && Avail(cs, ht, if border then 1 else 0) >= 0
    ensures var l, b := Laid(cs, w, ht, border), if border then 1 else 0;
            l[|l| - 1].y + l[|l| - 1].height + b == ht
  {
    HeightsPartition(cs, ht, if border then 1 else 0);
  }

  /** The regions of the children. */
  ghost function RegionsOf(cs: seq<Slot>): set<Region>
  {
    set i | 0 <= i < |cs| :: cs[i].region
  }

  /** The separator rows: the running `y` before each child, where its top border line goes. */
  ghost function Seps(cs: seq<Slot>, ht: int, bh: nat): set<int>
  {
    set i | 0 <= i < |cs| :: RowAt(cs, ht, bh, i)
  }

  /** A cell of the outer frame other than the top row: left column, right column, bottom row. */
  predicate OnFrame(x: int, y: int, w: int, ht: int)
  {
    x == 0 || x == w - 1 || y == ht - 1
  }

  /** The cell a box-drawing glyph is drawn as: one column wide, in the empty format. */
  function BoxCell(g: char): Cell
  {
    Written([g], 1, Plain)
  }

  /** `chr` of one cell as a value: the cell at (x, y) replaced, or nothing outside the grid. */
  function Put(rows: seq<seq<Cell>>, x: int, y: int, c: Cell): (r: seq<seq<Cell>>)
    ensures |r| == |rows|
    ensures forall k :: 0 <= k < |rows| && k != y ==> r[k] == rows[k]
    ensures 0 <= y < |rows| && 0 <= x < |rows[y]| ==> r[y] == rows[y][x := c]
    ensures !(0 <= y < |rows| && 0 <= x < |rows[y]|) ==> r == rows
  {
    if 0 <= y < |rows| && 0 <= x < |rows[y]| then rows[y := rows[y][x := c]] else rows
  }

  /**
   * The glyph the outer frame has drawn at (x, y) of a `w` x `ht` grid once
   * the bottom line is drawn up to column `xb` and the sides down to row
   * `ys`: a side, the bottom line, or a corner, the one drawn later winning
   * where corners coincide.
   */
  function FrameStage(x: int, y: int, w: int, ht: int, box: BoxGlyphs, xb: int, ys: int): Option<char>
  {
    if 1 <= y < ht - 1 && y < ys && (x == 0 || x == w - 1) then Some(box.verti)
    else if y == ht - 1 && 1 <= x < w - 1 && x < xb then Some(box.horiz)
    else if x == w - 1 && y == ht - 1 then Some(box.bottomRight)
    else if x == 0 && y == ht - 1 then Some(box.bottomLeft)
    else if x == w - 1 && y == 0 then Some(box.topRight)
    else if x == 0 && y == 0 then Some(box.topLeft)
    else None
  }

  /**
   * The glyph of the finished outer frame at (x, y): exactly the cells
   * `OnFrame` names get one (the top line is left to the first child's
   * separator), with the corner glyphs at the corners, the vertical line on
   * both sides and the horizontal line along the bottom.
   */
  function FrameGlyph(x: int, y: int, w: int, ht: int, box: BoxGlyphs): (g: Option<char>)
    ensures 0 <= x < w && 0 <= y < ht ==> (g.Some? <==> OnFrame(x, y, w, ht))
    ensures 0 < y < ht - 1 && (x == 0 || x == w - 1) ==> g == Some(box.verti)
    ensures y == ht - 1 && 0 < x < w - 1 ==> g == Some(box.horiz)
    ensures x == 0 && y == 0 && 1 < w && 1 < ht ==> g == Some(box.topLeft)
    ensures x == w - 1 && y == 0 && 1 < ht ==> g == Some(box.topRight)
    ensures x == 0 && y == ht - 1 && 1 < w ==> g == Some(box.bottomLeft)
    ensures x == w - 1 && y == ht - 1 ==> g == Some(box.bottomRight)
  {
    FrameStage(x, y, w, ht, box, w, ht)
  }

  function FrameCell(c: Cell, f: Option<char>): Cell
  {
    if f.Some? then BoxCell(f.value) else c
  }

  /** The grid with the frame drawn up to column `xb` of the bottom line and row `ys` of the sides. */
  function Framing(rows: seq<seq<Cell>>, w: nat, box: BoxGlyphs, xb: int, ys: int): (g: seq<seq<Cell>>)
    requires IsGrid(rows, w)
    ensures |g| == |rows| && IsGrid(g, w)
    ensures forall y, x :: 0 <= y < |rows| && 0 <= x < w ==>
              g[y][x] == FrameCell(rows[y][x], FrameStage(x, y, w, |rows|, box, xb, ys))
  {
    var g := seq(|rows|, y requires 0 <= y < |rows| => FramingRow(rows[y], y, |rows|, box, xb, ys));
    assert forall y :: 0 <= y < |rows| ==> g[y] == FramingRow(rows[y], y, |rows|, box, xb, ys);
    g
  }

  function FramingRow(row: seq<Cell>, y: int, ht: int, box: BoxGlyphs, xb: int, ys: int): (r: seq<Cell>)
    ensures |r| == |row|
    ensures forall x :: 0 <= x < |row| ==> r[x] == FrameCell(row[x], FrameStage(x, y, |row|, ht, box, xb, ys))
  {
    seq(|row|, x requires 0 <= x < |row| => FrameCell(row[x], FrameStage(x, y, |row|, ht, box, xb, ys)))
  }

  /** The grid with the whole outer frame drawn. */
  function Framed(rows: seq<seq<Cell>>, w: nat, box: BoxGlyphs): (g: seq<seq<Cell>>)
    requires IsGrid(rows, w)
    ensures |g| == |rows| && IsGrid(g, w)
    ensures forall y, x :: 0 <= y < |rows| && 0 <= x < w ==>
              g[y][x] == FrameCell(rows[y][x], FrameGlyph(x, y, w, |rows|, box))
  {
    Framing(rows, w, box, w, |rows|)
  }

  /** The four corners, drawn first, start the frame. */
  lemma FramingCorners(rows: seq<seq<Cell>>, w: nat, box: BoxGlyphs)
    requires IsGrid(rows, w)
    ensures var h := |rows|;
            Put(Put(Put(Put(rows, 0, 0, BoxCell(box.topLeft)), w - 1, 0, BoxCell(box.topRight)),
                    0, h - 1, BoxCell(box.bottomLeft)), w - 1, h - 1, BoxCell(box.bottomRight))
            == Framing(rows, w, box, 1, 1)
  {
    var h := |rows|;
    var p := Put(Put(Put(Put(rows, 0, 0, BoxCell(box.topLeft)), w - 1, 0, BoxCell(box.topRight)),
                     0, h - 1, BoxCell(box.bottomLeft)), w - 1, h - 1, BoxCell(box.bottomRight));
    var f := Framing(rows, w, box, 1, 1);
    forall y | 0 <= y < h
      ensures p[y] == f[y]
    {
      assert forall x :: 0 <= x < w ==> p[y][x] == f[y][x];
    }
  }

  /** One more cell of the bottom line. */
  lemma FramingBottomStep(rows: seq<seq<Cell>>, w: nat, box: BoxGlyphs, xb: int)
    requires IsGrid(rows, w) && 1 <= xb < w - 1
    ensures Put(Framing(rows, w, box, xb, 1), xb, |rows| - 1, BoxCell(box.horiz)) == Framing(rows, w, box, xb + 1, 1)
  {
    var p := Put(Framing(rows, w, box, xb, 1), xb, |rows| - 1, BoxCell(box.horiz));
    var f := Framing(rows, w, box, xb + 1, 1);
    forall y | 0 <= y < |rows|
      ensures p[y] == f[y]
    {
      assert forall x :: 0 <= x < w ==> p[y][x] == f[y][x];
    }
  }

  /** One more row of both sides. */
  lemma FramingSideStep(rows: seq<seq<Cell>>, w: nat, box: BoxGlyphs, xb: int, ys: int)
    requires IsGrid(rows, w) && 1 <= ys < |rows| - 1
    ensures Put(Put(Framing(rows, w, box, xb, ys), 0, ys, BoxCell(box.verti)), w - 1, ys, BoxCell(box.verti))
            == Framing(rows, w, box, xb, ys + 1)
  {
    var p := Put(Put(Framing(rows, w, box, xb, ys), 0, ys, BoxCell(box.verti)), w - 1, ys, BoxCell(box.verti));
    var f := Framing(rows, w, box, xb, ys + 1);
    forall y | 0 <= y < |rows|
      ensures p[y] == f[y]
    {
      assert forall x :: 0 <= x < w ==> p[y][x] == f[y][x];
    }
  }

  /** Once both loops have run their course the frame is whole. */
  lemma FramingDone(rows: seq<seq<Cell>>, w: nat, box: BoxGlyphs, xb: int, ys: int)
    requires IsGrid(rows, w) && xb >= w - 1 && ys >= |rows| - 1
    ensures Framing(rows, w, box, xb, ys) == Framed(rows, w, box)
  {
    var a, b := Framing(rows, w, box, xb, ys), Framed(rows, w, box);
    forall y | 0 <= y < |rows|
      ensures a[y] == b[y]
    {
      assert forall x :: 0 <= x < w ==> a[y][x] == b[y][x];
    }
  }

  /** The frame leaves every cell off it as it was. */
  lemma FramedOffFrame(rows: seq<seq<Cell>>, w: nat, box: BoxGlyphs)
    requires IsGrid(rows, w)
    ensures forall y, x :: 0 <= y < |rows| && 0 <= x < w && !OnFrame(x, y, w, |rows|)
              ==> Framed(rows, w, box)[y][x] == rows[y][x]
  {
  }

  /**
   * A cell of a separator line: the horizontal line between the ends, drawn
   * up to column `xb`, and after the first child the junction glyphs at both
   * ends (the right one winning in a one-column layout).
   */
  function SepCell(c: Cell, x: int, w: int, notFirst: bool, box: BoxGlyphs, xb: int): Cell
  {
    if 1 <= x < w - 1 && x < xb then BoxCell(box.horiz)
    else if notFirst && x == w - 1 then BoxCell(box.vertiRight)
    else if notFirst && x == 0 then BoxCell(box.vertiLeft)
    else c
  }

  /** Row `y` of the grid with its separator line drawn up to column `xb`. */
  function SepStage(rows: seq<seq<Cell>>, y: int, notFirst: bool, box: BoxGlyphs, xb: int): (g: seq<seq<Cell>>)
    ensures |g| == |rows| && (0 <= y < |rows| ==> |g[y]| == |rows[y]|)
    ensures forall k :: 0 <= k < |rows| && k != y ==> g[k] == rows[k]
  {
    if 0 <= y < |rows| then rows[y := SepLine(rows[y], notFirst, box, xb)] else rows
  }

  function SepLine(row: seq<Cell>, notFirst: bool, box: BoxGlyphs, xb: int): (r: seq<Cell>)
    ensures |r| == |row|
    ensures forall x :: 0 <= x < |row| ==> r[x] == SepCell(row[x], x, |row|, notFirst, box, xb)
  {
    seq(|row|, x requires 0 <= x < |row| => SepCell(row[x], x, |row|, notFirst, box, xb))
  }

  /**
   * The row `_redo` draws above a child: the separator line, then, when the
   * child has a label, the label with a space either side from column 2.
   */
  function SeparatorRow(row: seq<Cell>, notFirst: bool, box: BoxGlyphs, caption: string,
                        segment: string -> seq<Grapheme>): (r: seq<Cell>)
    ensures |r| == |row|
  {
    var line := SepLine(row, notFirst, box, |row|);
    if caption == "" then line else WriteRow(line, 2, segment(" " + caption + " "), Plain).0
  }

  /** The two junction glyphs start a separator line. */
  lemma SepEnds(rows: seq<seq<Cell>>, y: int, notFirst: bool, box: BoxGlyphs, w: nat)
    requires IsGrid(rows, w)
    ensures (if notFirst then Put(Put(rows, 0, y, BoxCell(box.vertiLeft)), w - 1, y, BoxCell(box.vertiRight)) else rows)
            == SepStage(rows, y, notFirst, box, 1)
  {
    if 0 <= y < |rows| {
      var a := if notFirst then Put(Put(rows, 0, y, BoxCell(box.vertiLeft)), w - 1, y, BoxCell(box.vertiRight)) else rows;
      var b := SepStage(rows, y, notFirst, box, 1);
      assert forall x :: 0 <= x < w ==> a[y][x] == b[y][x];
      assert a[y] == b[y];
      assert forall k :: 0 <= k < |rows| ==> a[k] == b[k];
    }
  }

  /** One more cell of the horizontal line (the source draws it twice). */
  lemma SepStep(rows: seq<seq<Cell>>, y: int, notFirst: bool, box: BoxGlyphs, w: nat, xb: int)
    requires IsGrid(rows, w) && 1 <= xb < w - 1
    ensures var s := SepStage(rows, y, notFirst, box, xb);
            Put(Put(s, xb, y, BoxCell(box.horiz)), xb, y, BoxCell(box.horiz)) == SepStage(rows, y, notFirst, box, xb + 1)
  {
    if 0 <= y < |rows| {
      var s := SepStage(rows, y, notFirst, box, xb);
      var a := Put(Put(s, xb, y, BoxCell(box.horiz)), xb, y, BoxCell(box.horiz));
      var b := SepStage(rows, y, notFirst, box, xb + 1);
      assert forall x :: 0 <= x < w ==> a[y][x] == b[y][x];
      assert a[y] == b[y];
      assert forall k :: 0 <= k < |rows| ==> a[k] == b[k];
    }
  }

  /** The loop over the line ends at the right-hand end whatever its bound. */
  lemma SepDone(row: seq<Cell>, notFirst: bool, box: BoxGlyphs, xb: int)
    requires xb >= |row| - 1
    ensures SepLine(row, notFirst, box, xb) == SepLine(row, notFirst, box, |row|)
  {
  }

  /**
   * With one-column graphemes, a separator row holds the label's graphemes
   * from column 2, clipped at the right edge; column 1 keeps the horizontal
   * line and, after the first child, column 0 the left junction glyph.
   */
  lemma SeparatorRowCells(row: seq<Cell>, notFirst: bool, box: BoxGlyphs, caption: string,
                          segment: string -> seq<Grapheme>)
    requires caption != "" && AllNarrow(segment(" " + caption + " "))
    ensures var r, gs := SeparatorRow(row, notFirst, box, caption, segment), segment(" " + caption + " ");
            && (forall x :: 2 <= x < |row| && x < 2 + |gs| ==> r[x] == Written(gs[x - 2].text, gs[x - 2].width, Plain))
            && (2 < |row| ==> r[1] == BoxCell(box.horiz))
            && (notFirst && 1 < |row| ==> r[0] == BoxCell(box.vertiLeft))
  {
    WriteRowNarrowCells(SepLine(row, notFirst, box, |row|), 2, segment(" " + caption + " "), Plain);
  }

  /** Every cell of the grid off the frame and off the separator rows is blank. */
  ghost predicate Confined(rows: seq<seq<Cell>>, w: int, seps: set<int>)
  {
    forall y, x :: 0 <= y < |rows| && 0 <= x < |rows[y]| && !OnFrame(x, y, w, |rows|) && y !in seps
      ==> rows[y][x] == Blank
  }

  /** The sum of a sequence of counts. */
  function Sum(s: seq<nat>): nat
  {
    if s == [] then 0 else Sum(s[..|s| - 1]) + s[|s| - 1]
  }

  /** Taking one from one entry takes one from the sum. */
  lemma {:induction false} SumDecrement(a: seq<nat>, b: seq<nat>, k: nat)
    requires |a| == |b| && k < |a| && a[k] > 0 && b[k] == a[k] - 1
    requires forall j :: 0 <= j < |a| && j != k ==> b[j] == a[j]
    ensures Sum(b) == Sum(a) - 1
    decreases |a|
  {
    if k < |a| - 1 {
      SumDecrement(a[..|a| - 1], b[..|b| - 1], k);
    } else {
      assert a[..|a| - 1] == b[..|b| - 1];
    }
  }

  /** A sum is zero exactly when every entry is. */
  lemma {:induction false} SumZero(a: seq<nat>)
    ensures Sum(a) == 0 <==> forall j :: 0 <= j < |a| ==> a[j] == 0
    decreases |a|
  {
    if a != [] {
      SumZero(a[..|a| - 1]);
      assert forall j :: 0 <= j < |a| - 1 ==> a[..|a| - 1][j] == a[j];
    }
  }

  /** A child hint moved into the layout's coordinates, widened by the two border columns when bordered. */
  function Translate(h: Hint, dy: int, border: bool): (r: Hint)
    ensures r.y1 - r.y0 == h.y1 - h.y0 && r.n == h.n
    ensures r.width == h.width + (if border then 2 else 0)
  {
    Hint(h.width + (if border then 2 else 0), h.y0 + dy, h.y1 + dy, h.n)
  }

  /** The state of a region: its size, cells and hints. */
  datatype RegionState = RegionState(width: nat, height: nat, rows: seq<seq<Cell>>, hints: seq<Hint>)

  function Snapshot(r: Region): RegionState
    reads r
  {
    RegionState(r.width, r.height, r.rows, r.hints)
  }

  /** The state of a region after `resize(w, h)`: a new size drops the hints and refits the cells. */
  function AfterResize(s: RegionState, w: nat, h: nat): (r: RegionState)
    ensures r.width == w && r.height == h
  {
    if w == s.width && h == s.height then s
    else RegionState(w, h, Resized(s.rows, w, h), [])
  }

  /** The index of the first queue at or after `i` holding a hint, or `|ls|` when none does. */
  function FirstFull(ls: seq<seq<Hint>>, i: nat): (k: nat)
    requires i <= |ls|
    ensures i <= k <= |ls|
    ensures forall j :: i <= j < k ==> ls[j] == []
    ensures k < |ls| ==> ls[k] != []
    decreases |ls| - i
  {
    if i == |ls| then i
    else if ls[i] != [] then i
    else FirstFull(ls, i + 1)
  }

  /** The hint queues of the children, in order. */
  ghost function HintLists(cs: seq<Slot>): (ls: seq<seq<Hint>>)
    reads RegionsOf(cs)
    ensures |ls| == |cs| && forall i :: 0 <= i < |cs| ==> ls[i] == cs[i].region.hints
  {
    seq(|cs|, i requires 0 <= i < |cs| reads RegionsOf(cs) => cs[i].region.hints)
  }

  ghost predicate RegionsValid(cs: seq<Slot>)
    reads RegionsOf(cs)
  {
    forall r :: r in RegionsOf(cs) ==> r.Valid()
  }

  /**
   * The loop of the layout's `get_cell` from child `i` on: the first child
   * whose rectangle holds (x, y) and whose region has a cell at the point
   * translated into it.
   */
  ghost function ChildCell(cs: seq<Slot>, i: nat, x: nat, y: nat): (c: Option<Cell>)
    requires i <= |cs| && RegionsValid(cs)
    reads RegionsOf(cs)
    decreases |cs| - i
  {
    if i == |cs| then None
    else
      var rc := cs[i];
      assert rc.region in RegionsOf(cs);
      var rx, ry := x - rc.x, y - rc.y;
      if rx < 0 || ry < 0 || rx >= rc.width || ry >= rc.height then ChildCell(cs, i + 1, x, y)
      else
        var cc := rc.region.GetCell(rx, ry);
        if cc.Some? then cc else ChildCell(cs, i + 1, x, y)
  }

  /** Whether child `c`'s rectangle holds the point (x, y). */
  predicate Holds(c: Slot, x: int, y: int)
  {
    c.x <= x < c.x + c.width && c.y <= y < c.y + c.height
  }

  /**
   * The first cursor a child reports from child `i` on, moved into the
   * layout's coordinates; `cursors[j]` is what child `j`'s `get_cursor` returns.
   */
  function FirstCursor(cs: seq<Slot>, cursors: seq<Option<Point>>, i: nat): (p: Option<Point>)
    requires |cursors| == |cs| && i <= |cs|
    ensures p.None? <==> forall j :: i <= j < |cs| ==> cursors[j].None?
    ensures p.Some? ==> exists j :: i <= j < |cs| && cursors[j].Some?
                          && p == Some(Point(cursors[j].value.x + cs[j].x, cursors[j].value.y + cs[j].y))
                          && forall k :: i <= k < j ==> cursors[k].None?
    decreases |cs| - i
  {
    if i == |cs| then None
    else if cursors[i].Some? then Some(Point(cursors[i].value.x + cs[i].x, cursors[i].value.y + cs[i].y))
    else FirstCursor(cs, cursors, i + 1)
  }

  /** Children whose rectangles miss the point are passed over, and the first that holds it answers. */
  lemma {:induction false} ChildCellFirst(cs: seq<Slot>, i: nat, k: nat, x: nat, y: nat)
    requires i <= k <= |cs| && RegionsValid(cs)
    requires forall j :: i <= j < k ==> !Holds(cs[j], x, y)
    ensures ChildCell(cs, i, x, y) == ChildCell(cs, k, x, y)
    decreases k - i
  {
    if i < k {
      ChildCellFirst(cs, i + 1, k, x, y);
    }
  }

  class Layout {
    /** The layout's own cells, where the borders are drawn. */
    const grid: Region
    const border: bool
    const bold: bool
    /** Grapheme segmentation with measured widths, used to write labels. */
    const segment: string -> seq<Grapheme>
    /** `lay_children`, in stacking order. */
    var children: seq<Slot>

    ghost function Repr(): set<object>
      reads this
    {
      {grid} + RegionsOf(children)
    }

    /** The child records are well formed: distinct regions, none of them the grid, weights positive. */
    ghost predicate Structured()
      reads this, Repr()
    {
      && grid.Valid()
      && WeightsValid(children)
      && (forall i :: 0 <= i < |children| ==> children[i].region != grid && children[i].region.Valid())
      && (forall i, j :: 0 <= i < j < |children| ==> children[i].region != children[j].region)
    }

    /** Laid out: every child's rectangle is the one `_redo` computes, and its region has that size. */
    ghost predicate Valid()
      reads this, Repr()
    {
      && Structured()
      && children == Laid(children, grid.width, grid.height, border)
      && forall i :: 0 <= i < |children| ==>
           children[i].region.width == children[i].width && children[i].region.height == children[i].height
    }

    /** `new Layout({ width, height, border, bold })`: no children yet. */
    constructor (w: nat, h: nat, border: bool, bold: bool, segment: string -> seq<Grapheme>)
      ensures Valid() && fresh(grid)
      ensures grid.width == (if w == 0 then 1 else w) && grid.height == (if h == 0 then 1 else h)
      ensures grid.rows == BlankGrid(grid.width, grid.height) && grid.hints == []
      ensures children == [] && this.border == border && this.bold == bold && this.segment == segment
    {
      grid := new Region(w, h);
      this.border := border;
      this.bold := bold;
      this.segment := segment;
      children := [];
    }

    function BoxTable(): BoxGlyphs
      reads this
    {
      if bold then BOX_DRAW_BOLD else BOX_DRAW_NORMAL
    }

    /** One box glyph at (x, y), one column wide, with the empty format. */
    method Glyph(x: int, y: int, g: char)
      requires grid.Valid()
      modifies grid`rows
      ensures grid.Valid()
      ensures grid.rows == Put(old(grid.rows), x, y, BoxCell(g))
    {
      var _ := grid.Chr(x, y, [g], 1, Plain);
    }

    /**
     * The outer frame: four corners, the bottom line and both sides (the top
     * line comes with the first child); every cell the frame does not reach
     * keeps what it held.
     */
    method DrawFrame()
      requires grid.Valid()
      modifies grid`rows
      ensures grid.Valid()
      ensures grid.rows == Framed(old(grid.rows), grid.width, BoxTable())
      ensures forall y, x :: 0 <= y < grid.height && 0 <= x < grid.width && !OnFrame(x, y, grid.width, grid.height)
                ==> grid.rows[y][x] == old(grid.rows)[y][x]
    {
      var box := BoxTable();
      var w: int, h: int := grid.width, grid.height;
      ghost var g0 := grid.rows;
      DrawCorners();
      var x := 1;
      while x < w - 1
        invariant grid.Valid() && grid.width == w && grid.height == h
        invariant x >= 1 && grid.rows == Framing(g0, w, box, x, 1)
      {
        FramingBottomStep(g0, w, box, x);
        Glyph(x, h - 1, box.horiz);
        x := x + 1;
      }
      var y := 1;
      while y < h - 1
        invariant grid.Valid() && grid.width == w && grid.height == h
        invariant y >= 1 && grid.rows == Framing(g0, w, box, x, y)
      {
        FramingSideStep(g0, w, box, x, y);
        Glyph(0, y, box.verti);
        Glyph(w - 1, y, box.verti);
        y := y + 1;
      }
      FramingDone(g0, w, box, x, y);
      FramedOffFrame(g0, w, box);
    }

    /** The first four glyphs of the frame, one per corner. */
    method DrawCorners()
      requires grid.Valid()
      modifies grid`rows
      ensures grid.Valid()
      ensures grid.rows == Framing(old(grid.rows), grid.width, BoxTable(), 1, 1)
    {
      var box := BoxTable();
      var w: int, h: int := grid.width, grid.height;
      FramingCorners(grid.rows, w, box);
      Glyph(0, 0, box.topLeft);
      Glyph(w - 1, 0, box.topRight);
      Glyph(0, h - 1, box.bottomLeft);
      Glyph(w - 1, h - 1, box.bottomRight);
    }

    /**
     * The border line above a child at row `y`: after the first child the
     * junction glyphs at both ends, the horizontal line between them, and the
     * label from column 2 when the child has one.
     */
    method DrawSeparator(y: int, notFirst: bool, caption: string)
      requires grid.Valid()
      modifies grid`rows
      ensures grid.Valid()
      ensures 0 <= y < grid.height ==>
                grid.rows == old(grid.rows)[y := SeparatorRow(old(grid.rows)[y], notFirst, BoxTable(), caption, segment)]
      ensures !(0 <= y < grid.height) ==> grid.rows == old(grid.rows)
      ensures forall yy :: 0 <= yy < grid.height && yy != y ==> grid.rows[yy] == old(grid.rows)[yy]
    {
      var box := BoxTable();
      var w: int := grid.width;
      ghost var g0 := grid.rows;
      if notFirst {
        Glyph(0, y, box.vertiLeft);
        Glyph(w - 1, y, box.vertiRight);
      }
      SepEnds(g0, y, notFirst, box, w);
      var x := 1;
      while x < w - 1
        invariant grid.Valid() && grid.width == w && x >= 1
        invariant grid.rows == SepStage(g0, y, notFirst, box, x)
      {
        SepStep(g0, y, notFirst, box, w, x);
        Glyph(x, y, box.horiz);
        Glyph(x, y, box.horiz);
        x := x + 1;
      }
      if 0 <= y < grid.height {
        SepDone(g0[y], notFirst, box, x);
      }
      if caption != "" {
        var _ := grid.Str(2, y, segment(" " + caption + " "), Plain);
      }
    }

    /** The pre-pass of `_redo`: fixed rows, total weight, last weighted child and the fixed rows after it. */
    static method Totals(cs: seq<Slot>, bh: nat) returns (fhrows: nat, weights: nat, maxIdx: int, fhr: nat)
      ensures fhrows == FixedRows(cs) && weights == Weights(cs)
      ensures maxIdx == LastWeighted(cs) && fhr == FixedRemainder(cs, bh)
    {
      fhrows, weights, maxIdx, fhr := 0, 0, -1, 0;
      var i := 0;
      while i < |cs|
        invariant 0 <= i <= |cs|
        invariant fhrows == FixedRows(cs[..i]) && weights == Weights(cs[..i])
        invariant maxIdx == LastWeighted(cs[..i]) && fhr == FixedRemainder(cs[..i], bh)
      {
        assert cs[..i + 1][..i] == cs[..i];
        if cs[i].fixedHeight > 0 {
          fhrows := fhrows + cs[i].fixedHeight;
          fhr := fhr + cs[i].fixedHeight + bh;
        } else {
          // Every weight is at least 1, so the source's `weights += 1` branch is never taken.
          maxIdx := i;
          fhr := 0;
          weights := weights + cs[i].weight;
        }
        i := i + 1;
      }
      assert cs[..|cs|] == cs;
    }

    /** The height of child `i`, computed from the pre-pass totals and the running row `y`. */
    static method ChildHeight(cs: seq<Slot>, H: int, bh: nat, i: nat, y: int, avail: int, weights: nat,
                              maxIdx: int, fhr: nat) returns (ch: nat)
      requires i < |cs| && y == RowAt(cs, H, bh, i) && avail == Avail(cs, H, bh)
      requires weights == Weights(cs) && maxIdx == LastWeighted(cs) && fhr == FixedRemainder(cs, bh)
      ensures ch == HeightAt(cs, H, bh, i)
    {
      var rc := cs[i];
      if rc.fixedHeight > 0 {
        ch := rc.fixedHeight;
      } else {
        // floor(weight * height_per_weight), with a negative height_per_weight counted as 0.
        ch := if avail <= 0 || weights == 0 then 0 else rc.weight * avail / weights;
        if i == maxIdx {
          // The last weighted child takes up the slack left by rounding.
          var remh := H - bh - y - (ch + bh) - fhr;
          if remh > 0 {
            ch := ch + remh;
          }
        }
      }
    }

    /** The child regions, each resized to its slot's rectangle. */
    /** Each region of `cs` resized to its slot's rectangle, in order. */
    static method ResizeRegions(cs: seq<Slot>)
      requires forall j :: 0 <= j < |cs| ==> cs[j].region.Valid()
      requires forall j, k :: 0 <= j < k < |cs| ==> cs[j].region != cs[k].region
      modifies RegionsOf(cs)
      ensures forall j :: 0 <= j < |cs| ==>
                cs[j].region.Valid() && Snapshot(cs[j].region) == AfterResize(old(Snapshot(cs[j].region)), cs[j].width, cs[j].height)
    {
      var i := 0;
      while i < |cs|
        invariant 0 <= i <= |cs|
        invariant forall j :: 0 <= j < |cs| ==> cs[j].region.Valid()
        invariant forall j :: 0 <= j < i ==> Snapshot(cs[j].region) == AfterResize(old(Snapshot(cs[j].region)), cs[j].width, cs[j].height)
        invariant forall j :: i <= j < |cs| ==> Snapshot(cs[j].region) == old(Snapshot(cs[j].region))
      {
        var r := cs[i].region;
        assert r in RegionsOf(cs);
        var _ := r.Resize(cs[i].width, cs[i].height);
        i := i + 1;
      }
    }

    /** The child regions resized to their slots; the grid is left alone. */
    method ResizeChildren()
      requires Structured() && children == Laid(children, grid.width, grid.height, border)
      modifies RegionsOf(children)
      ensures Valid()
      ensures grid.rows == old(grid.rows)
      ensures forall j :: 0 <= j < |children| ==>
                Snapshot(children[j].region) == AfterResize(old(Snapshot(children[j].region)), children[j].width, children[j].height)
    {
      ghost var g := Snapshot(grid);
      assert grid !in RegionsOf(children);
      ResizeRegions(children);
      assert Snapshot(grid) == g;
    }

    /**
     * The loop of `_redo`: every child gets its rectangle, and when bordered
     * the separator line above it is drawn with its label.
     */
    method LayChildren()
      requires grid.Valid()
      requires border ==> Confined(grid.rows, grid.width, {})
      modifies grid`rows, this`children
      ensures grid.Valid()
      ensures children == Laid(old(children), grid.width, grid.height, border)
      ensures !border ==> grid.rows == old(grid.rows)
      ensures border ==> Confined(grid.rows, grid.width, Seps(old(children), grid.height, 1))
    {
      var cs := children;
      var W: int, H: int := grid.width, grid.height;
      var bh: nat := if border then 1 else 0;
      var bw := bh;
      var fhrows, weights, maxIdx, fhr := Totals(cs, bh);
      var avail := H - bh - fhrows - bh * |cs|;
      var y := 0;
      var i := 0;
      while i < |cs|
        invariant 0 <= i <= |cs| && y == RowAt(cs, H, bh, i)
        invariant grid.Valid() && grid.width == W && grid.height == H
        invariant |children| == |cs|
        invariant forall j :: 0 <= j < i ==> children[j] == LaidAt(cs, W, H, border, j)
        invariant forall j :: i <= j < |cs| ==> children[j] == cs[j]
        invariant !border ==> grid.rows == old(grid.rows)
        invariant border ==> Confined(grid.rows, W, Seps(cs, H, bh))
      {
        var rc := cs[i];
        var cw: nat := if W - 2 * bw < 0 then 0 else W - 2 * bw;
        var ch := ChildHeight(cs, H, bh, i, y, avail, weights, maxIdx, fhr);
        children := children[i := rc.(x := bw, y := y + bh, width := cw, height := ch)];
        if border {
          assert y in Seps(cs, H, bh);
          DrawSeparator(y, i > 0, rc.caption);
        }
        y := y + ch + bh;
        i := i + 1;
      }
      assert children == Laid(cs, W, H, border);
    }

    /**
     * `_redo` up to the child regions: clear the grid, draw the frame, place
     * every child and draw the separators. The child regions are untouched.
     */
    method Arrange()
      requires Structured()
      modifies grid`rows, this`children
      ensures Structured()
      ensures children == Laid(old(children), grid.width, grid.height, border)
      ensures forall j :: 0 <= j < |children| ==> Snapshot(children[j].region) == old(Snapshot(children[j].region))
      ensures !border ==> grid.rows == BlankGrid(grid.width, grid.height)
      ensures border ==> Confined(grid.rows, grid.width, Seps(old(children), grid.height, 1))
    {
      grid.Clear();
      if border {
        DrawFrame();
      }
      LayChildren();
    }

    /**
     * `_redo`: clear the grid, size and place every child, resize the child
     * regions to their rectangles and, when bordered, draw the frame and the
     * separator lines with their labels.
     */
    method Redo()
      requires Structured()
      modifies grid`rows, this`children, RegionsOf(children)
      ensures Valid()
      ensures children == Laid(old(children), grid.width, grid.height, border)
      ensures forall i :: 0 <= i < |children| ==>
                Snapshot(children[i].region) == AfterResize(old(Snapshot(children[i].region)), children[i].width, children[i].height)
      ensures !border ==> grid.rows == BlankGrid(grid.width, grid.height)
      ensures border ==> Confined(grid.rows, grid.width, Seps(old(children), grid.height, 1))
    {
      Arrange();
      LaidIdempotent(old(children), grid.width, grid.height, border);
      ResizeChildren();
    }

    /**
     * `get_cell(x, y)` as a value: none outside the layout; otherwise the cell
     * of the first child that has one at (x, y), or else the layout's own.
     */
    ghost function CellAt(x: nat, y: nat): (c: Option<Cell>)
      requires Structured()
      reads this, Repr()
      ensures c.None? <==> (x >= grid.width || y >= grid.height)
    {
      if x >= grid.width || y >= grid.height then None
      else
        var cc := ChildCell(children, 0, x, y);
        if cc.Some? then cc else grid.GetCell(x, y)
    }

    /** `get_cell(x, y)`: the children are tried in order, then the layout's own cells. */
    method GetCell(x: nat, y: nat) returns (c: Option<Cell>)
      requires Structured()
      ensures c == CellAt(x, y)
    {
      if x >= grid.width || y >= grid.height {
        return None;
      }
      var i := 0;
      while i < |children|
        invariant 0 <= i <= |children|
        invariant ChildCell(children, 0, x, y) == ChildCell(children, i, x, y)
      {
        var rc := children[i];
        var rx, ry := x - rc.x, y - rc.y;
        if !(rx < 0 || ry < 0 || rx >= rc.width || ry >= rc.height) {
          var cc := rc.region.GetCell(rx, ry);
          if cc.Some? {
            return cc;
          }
        }
        i := i + 1;
      }
      c := grid.GetCell(x, y);
    }

    /** `get_cursor`: the first cursor a child reports, in the layout's coordinates, or none. */
    method GetCursor(cursors: seq<Option<Point>>) returns (p: Option<Point>)
      requires |cursors| == |children|
      ensures p == FirstCursor(children, cursors, 0)
    {
      var i := 0;
      while i < |children|
        invariant 0 <= i <= |children|
        invariant FirstCursor(children, cursors, 0) == FirstCursor(children, cursors, i)
      {
        if cursors[i].Some? {
          var rc := children[i];
          return Some(Point(cursors[i].value.x + rc.x, cursors[i].value.y + rc.y));
        }
        i := i + 1;
      }
      p := None;
    }

    /**
     * The loop of `pop_hint`: each child region in turn is asked for a hint,
     * up to the first that has one; `k` is that child, or `|cs|` when none had
     * one. Asking a region whose queue is empty returns nothing and changes
     * nothing, so the children before `k` are passed over by looking at their
     * queues.
     */
    static method PopChildHint(cs: seq<Slot>) returns (k: nat, h: Option<Hint>)
      requires RegionsValid(cs)
      requires forall i, j :: 0 <= i < j < |cs| ==> cs[i].region != cs[j].region
      modifies RegionsOf(cs)`hints
      ensures RegionsValid(cs)
      ensures k == FirstFull(old(HintLists(cs)), 0)
      ensures k < |cs| ==> var hs := old(HintLists(cs))[k];
                            h == Some(hs[|hs| - 1]) && HintLists(cs) == old(HintLists(cs))[k := hs[..|hs| - 1]]
      ensures k == |cs| ==> h.None? && HintLists(cs) == old(HintLists(cs))
    {
      ghost var ls := HintLists(cs);
      k := 0;
      while k < |cs| && cs[k].region.hints == []
        invariant 0 <= k <= |cs| && FirstFull(ls, k) == FirstFull(ls, 0)
      {
        k := k + 1;
      }
      if k == |cs| {
        return k, None;
      }
      var r := cs[k].region;
      assert r in RegionsOf(cs);
      h := r.PopHint();
      forall j | 0 <= j < |cs| && j != k
        ensures cs[j].region.hints == ls[j]
      {
        assert cs[j].region != r;
      }
      assert HintLists(cs) == ls[k := r.hints];
    }

    /** Only hint queues changed: the children keep the rectangles `_redo` gave them. */
    twostate lemma HintsOnly()
      requires old(Valid()) && unchanged(this)
      requires grid.Valid() && RegionsValid(children)
      requires grid.width == old(grid.width) && grid.height == old(grid.height)
      requires forall i :: 0 <= i < |children| ==> children[i].region.width == old(children[i].region.width)
      requires forall i :: 0 <= i < |children| ==> children[i].region.height == old(children[i].region.height)
      ensures Valid()
    {
    }

    /**
     * `pop_hint`: the first child holding a hint gives up its most recent one,
     * moved down to the child's row (and two columns wider when bordered);
     * only when no child has one does the layout pop its own.
     */
    method PopHint() returns (r: Option<Hint>)
      requires Valid()
      modifies grid`hints, RegionsOf(children)`hints
      ensures Valid()
      ensures var ls := old(HintLists(children));
              var k := FirstFull(ls, 0);
              k < |ls| ==>
                var hs := ls[k];
                && r == Some(Translate(hs[|hs| - 1], children[k].y, border))
                && HintLists(children) == ls[k := hs[..|hs| - 1]]
                && grid.hints == old(grid.hints)
      ensures var ls := old(HintLists(children));
              FirstFull(ls, 0) == |ls| ==>
                && HintLists(children) == ls
                && (old(grid.hints) == [] ==> r.None? && grid.hints == [])
                && (old(grid.hints) != [] ==> r == Some(old(grid.hints)[|old(grid.hints)| - 1])
                                              && grid.hints == old(grid.hints)[..|old(grid.hints)| - 1])
    {
      assert grid !in RegionsOf(children);
      var k, h := PopChildHint(children);
      if h.Some? {
        r := Some(Translate(h.value, children[k].y, border));
      } else {
        r := grid.PopHint();
      }
      HintsOnly();
    }

    /**
     * Inside the layout, the cell at a point held by a child's rectangle is
     * that child's cell, when no earlier child holds the point.
     */
    lemma CellAtChild(x: nat, y: nat, k: nat)
      requires Valid() && x < grid.width && y < grid.height
      requires k < |children| && Holds(children[k], x, y)
      requires forall j :: 0 <= j < k ==> !Holds(children[j], x, y)
      ensures var c := children[k];
              CellAt(x, y) == Some(c.region.rows[y - c.y][x - c.x])
    {
      assert RegionsValid(children);
      ChildCellFirst(children, 0, k, x, y);
      assert children[k].region in RegionsOf(children);
    }

    /** A point no child's rectangle holds shows the layout's own cell. */
    lemma CellAtOwn(x: nat, y: nat)
      requires Valid() && x < grid.width && y < grid.height
      requires forall j :: 0 <= j < |children| ==> !Holds(children[j], x, y)
      ensures CellAt(x, y) == Some(grid.rows[y][x])
    {
      assert RegionsValid(children);
      ChildCellFirst(children, 0, |children|, x, y);
    }

    /**
     * `add(child, { label, weight, fixed_height })`: append the child with a
     * weight of 1 when none (0) is given and no fixed height when 0 is given,
     * then lay the children out again.
     */
    method Add(child: Region, caption: string, weight: nat, fixedHeight: nat)
      requires Valid() && child.Valid() && child != grid && child !in RegionsOf(children)
      modifies grid`rows, this`children, RegionsOf(children), child
      ensures Valid()
      ensures children == Laid(old(children) + [Slot(0, 0, 0, 0, caption, if weight == 0 then 1 else weight, fixedHeight, child)],
                               grid.width, grid.height, border)
      ensures forall i :: 0 <= i < |children| ==>
                var r := children[i].region;
                Snapshot(r) == AfterResize(old(Snapshot(r)), children[i].width, children[i].height)
    {
      Append(Slot(0, 0, 0, 0, caption, if weight == 0 then 1 else weight, fixedHeight, child));
      Redo();
    }

    /** The child list grows by one record whose region is new to the layout. */
    method Append(s: Slot)
      requires Structured() && s.region.Valid() && s.region != grid && s.region !in RegionsOf(children) && s.weight >= 1
      modifies this`children
      ensures Structured() && children == old(children) + [s]
      ensures RegionsOf(children) == old(RegionsOf(children)) + {s.region}
    {
      children := children + [s];
      assert forall j :: 0 <= j < |old(children)| ==> children[j] == old(children)[j];
      assert children[|children| - 1].region == s.region;
      assert RegionsOf(children) == old(RegionsOf(children)) + {s.region};
    }

    /**
     * `resize(w, h)` on the layout: the grid is resized and, when that changed
     * its size, the 'resize' handler lays the children out again.
     */
    method Resize(w: nat, h: nat) returns (changed: bool)
      requires Valid()
      modifies grid, this`children, RegionsOf(children)
      ensures Valid() && grid.width == w && grid.height == h
      ensures changed <==> (w != old(grid.width) || h != old(grid.height))
      ensures !changed ==> grid.rows == old(grid.rows) && grid.hints == old(grid.hints) && children == old(children)
      ensures changed ==> grid.hints == [] && children == Laid(old(children), w, h, border)
      ensures changed ==> forall i :: 0 <= i < |children| ==>
                Snapshot(children[i].region) == AfterResize(old(Snapshot(children[i].region)), children[i].width, children[i].height)
    {
      changed := grid.Resize(w, h);
      if changed {
        Redo();
      }
    }
  }
}
