/**
 * What `Draw.prototype.redraw` is handed: any object with `pop_hint` and
 * `get_cell`.  In this library that is a plain region or a layout whose
 * children are regions; both are modelled, and the two operations are
 * dispatched on the kind of surface.
 */
module Surfaces {
  import opened Wrappers
  import opened Cells
  import opened Regions
  import opened Layouts

  datatype Surface = Plain(region: Region) | Stacked(layout: Layout)

  /** The objects a surface's state lives in. */
  ghost function Repr(s: Surface): set<object>
    reads if s.Stacked? then {s.layout} else {}
  {
    match s
    case Plain(r) => {r}
    case Stacked(l) => {l} + l.Repr()
  }

  /** The regions whose hint queues `pop_hint` drains. */
  ghost function Holders(s: Surface): (rs: set<Region>)
    reads if s.Stacked? then {s.layout} else {}
    ensures rs <= Repr(s)
  {
    match s
    case Plain(r) => {r}
    case Stacked(l) => {l.grid} + RegionsOf(l.children)
  }

  ghost predicate SurfaceValid(s: Surface)
    reads Repr(s)
  {
    match s
    case Plain(r) => r.Valid()
    case Stacked(l) => l.Valid()
  }

  ghost function Width(s: Surface): nat
    reads Repr(s)
  {
    match s
    case Plain(r) => r.width
    case Stacked(l) => l.grid.width
  }

  ghost function Height(s: Surface): nat
    reads Repr(s)
  {
    match s
    case Plain(r) => r.height
    case Stacked(l) => l.grid.height
  }

  /** What reading cells needs: the region, or the layout's grid and children, well formed. */
  ghost predicate SurfaceReadable(s: Surface)
    reads Repr(s)
  {
    match s
    case Plain(r) => r.Valid()
    case Stacked(l) => l.Structured()
  }

  /**
   * The cell `redraw` compares against at (x, y): the surface's `get_cell`,
   * or a cleared cell (`draw_default`) where that gives none.
   */
  ghost function Shown(s: Surface, x: nat, y: nat): (c: Cell)
    requires SurfaceReadable(s)
    reads Repr(s)
    ensures (x >= Width(s) || y >= Height(s)) ==> c == Blank
    ensures s.Plain? && x < Width(s) && y < Height(s) ==> c == s.region.rows[y][x]
  {
    match s
    case Plain(r) => NewCell(r.GetCell(x, y))
    case Stacked(l) => NewCell(l.CellAt(x, y))
  }

  /** The target's cells over a w x h screen, row by row. */
  ghost function WantGrid(s: Surface, w: nat, h: nat): (g: seq<seq<Cell>>)
    requires SurfaceReadable(s)
    reads Repr(s)
    ensures |g| == h && IsGrid(g, w)
  {
    WantRows(s, w, h)
  }

  ghost function WantRows(s: Surface, w: nat, h: nat): (g: seq<seq<Cell>>)
    requires SurfaceReadable(s)
    reads Repr(s)
    ensures |g| == h && IsGrid(g, w)
    decreases h
  {
    if h == 0 then [] else WantRows(s, w, h - 1) + [WantRow(s, w, h - 1)]
  }

  ghost function WantRow(s: Surface, w: nat, y: nat): (row: seq<Cell>)
    requires SurfaceReadable(s)
    reads Repr(s)
    ensures |row| == w
    decreases w
  {
    if w == 0 then [] else WantRow(s, w - 1, y) + [Shown(s, w - 1, y)]
  }

  lemma {:induction false} WantRowCells(s: Surface, w: nat, y: nat)
    requires SurfaceReadable(s)
    ensures forall x :: 0 <= x < w ==> WantRow(s, w, y)[x] == Shown(s, x, y)
    decreases w
  {
    if w > 0 {
      WantRowCells(s, w - 1, y);
    }
  }

  lemma {:induction false} WantGridRows(s: Surface, w: nat, h: nat)
    requires SurfaceReadable(s)
    ensures forall y :: 0 <= y < h ==> WantRows(s, w, h)[y] == WantRow(s, w, y)
    decreases h
  {
    if h > 0 {
      WantGridRows(s, w, h - 1);
    }
  }

  /** Cell (x, y) of the grid is the one the surface shows there. */
  lemma WantGridCells(s: Surface, w: nat, h: nat)
    requires SurfaceReadable(s)
    ensures forall y, x :: 0 <= y < h && 0 <= x < w ==> WantGrid(s, w, h)[y][x] == Shown(s, x, y)
  {
    WantGridRows(s, w, h);
    forall y | 0 <= y < h
      ensures forall x :: 0 <= x < w ==> WantGrid(s, w, h)[y][x] == Shown(s, x, y)
    {
      WantRowCells(s, w, y);
    }
  }

  /** `get_cell(x, y)` on the surface, with the cleared cell standing in for none. */
  method SurfaceCell(s: Surface, x: nat, y: nat) returns (c: Cell)
    requires SurfaceReadable(s)
    ensures c == Shown(s, x, y)
    ensures SurfaceReadable(s) && forall i: nat, j: nat :: Shown(s, i, j) == old(Shown(s, i, j))
  {
    var nc: Option<Cell>;
    match s {
      case Plain(r) => nc := r.GetCell(x, y);
      case Stacked(l) => nc := l.GetCell(x, y);
    }
    c := NewCell(nc);
    CellsKept(s);
  }

  /** The cells of `wr` are what the surface shows on row y. */
  ghost predicate RowOf(s: Surface, y: nat, wr: seq<Cell>)
    requires SurfaceReadable(s)
    reads Repr(s)
  {
    RowUpTo(s, y, wr, |wr|)
  }

  /** The first k cells of `wr` are what the surface shows on row y. */
  ghost predicate RowUpTo(s: Surface, y: nat, wr: seq<Cell>, k: nat)
    requires SurfaceReadable(s) && k <= |wr|
    reads Repr(s)
    decreases k
  {
    k == 0 || (RowUpTo(s, y, wr, k - 1) && wr[k - 1] == Shown(s, k - 1, y))
  }

  /** A row read off the surface holds the surface's cell at each column. */
  lemma {:induction false} RowOfAt(s: Surface, y: nat, wr: seq<Cell>, k: nat, x: nat)
    requires SurfaceReadable(s) && x < k <= |wr| && RowUpTo(s, y, wr, k)
    ensures wr[x] == Shown(s, x, y)
    decreases k
  {
    if x < k - 1 {
      RowOfAt(s, y, wr, k - 1, x);
    }
  }

  /** A row holding the surface's cell at each column is read off the surface. */
  lemma {:induction false} RowOfAll(s: Surface, y: nat, wr: seq<Cell>, k: nat)
    requires SurfaceReadable(s) && k <= |wr|
    requires forall x :: 0 <= x < k ==> wr[x] == Shown(s, x, y)
    ensures RowUpTo(s, y, wr, k)
    decreases k
  {
    if k > 0 {
      RowOfAll(s, y, wr, k - 1);
    }
  }

  /** A surface none of whose objects changed still shows row `wr`. */
  twostate lemma RowOfKept(s: Surface, new y: nat, new wr: seq<Cell>)
    requires old(SurfaceReadable(s)) && unchanged(old(Repr(s))) && old(RowOf(s, y, wr))
    ensures SurfaceReadable(s) && RowOf(s, y, wr)
  {
    forall i | 0 <= i < |wr|
      ensures wr[i] == Shown(s, i, y)
    {
      assert old(wr[i] == Shown(s, i, y)) by { RowOfAt(s, y, wr, |wr|, i); }
    }
    RowOfAll(s, y, wr, |wr|);
  }

  /** The surface shows every row of `want`. */
  ghost predicate GridOf(s: Surface, want: seq<seq<Cell>>)
    requires SurfaceReadable(s)
    reads Repr(s)
  {
    forall y: nat :: y < |want| ==> RowOf(s, y, want[y])
  }

  /** The surface shows every row of its own grid. */
  lemma GridOfWant(s: Surface, w: nat, h: nat)
    requires SurfaceReadable(s)
    ensures GridOf(s, WantGrid(s, w, h))
  {
    var want := WantGrid(s, w, h);
    WantGridCells(s, w, h);
    forall y: nat | y < h
      ensures RowOf(s, y, want[y])
    {
      RowOfAll(s, y, want[y], w);
    }
  }

  /** A surface none of whose objects changed still shows row `y` of `want`. */
  twostate lemma GridRowKept(s: Surface, new want: seq<seq<Cell>>, new y: nat)
    requires old(SurfaceReadable(s)) && unchanged(old(Repr(s))) && old(GridOf(s, want)) && y < |want|
    ensures SurfaceReadable(s) && RowOf(s, y, want[y])
  {
    var wr := want[y];
    forall i | 0 <= i < |wr|
      ensures wr[i] == Shown(s, i, y)
    {
      assert old(wr[i] == Shown(s, i, y)) by { RowOfAt(s, y, wr, |wr|, i); }
    }
    RowOfAll(s, y, wr, |wr|);
  }

  /** `get_cell(x, y)` on a surface whose row y is known to be `wr`. */
  method RowCell(s: Surface, x: nat, y: nat, ghost wr: seq<Cell>) returns (c: Cell)
    requires SurfaceReadable(s) && x < |wr| && RowOf(s, y, wr)
    ensures c == wr[x]
  {
    RowOfAt(s, y, wr, |wr|, x);
    c := SurfaceCell(s, x, y);
  }

  /* ---------- The order in which the hints come out ---------- */

  /** The elements of `hs`, most recent first: the order a LIFO queue gives them up in. */
  function Reversed<T>(hs: seq<T>): (r: seq<T>)
    ensures |r| == |hs| && forall i :: 0 <= i < |hs| ==> r[i] == hs[|hs| - 1 - i]
  {
    if hs == [] then [] else [hs[|hs| - 1]] + Reversed(hs[..|hs| - 1])
  }

  /** A child's hints moved into the layout's coordinates. */
  function TranslatedAll(hs: seq<Hint>, dy: int, border: bool): (r: seq<Hint>)
    ensures |r| == |hs| && forall i :: 0 <= i < |hs| ==> r[i] == Translate(hs[i], dy, border)
  {
    seq(|hs|, i requires 0 <= i < |hs| => Translate(hs[i], dy, border))
  }

  /** Child queues `ls` emptied in the layout's order: child by child, each one's most recent hint first. */
  function Drained(ls: seq<seq<Hint>>, cs: seq<Slot>, border: bool): seq<Hint>
    requires |ls| == |cs|
  {
    if ls == [] then [] else Reversed(TranslatedAll(ls[0], cs[0].y, border)) + Drained(ls[1..], cs[1..], border)
  }

  /** Every hint still queued in the surface, in the order successive `pop_hint` calls return them. */
  ghost function Pending(s: Surface): seq<Hint>
    reads Repr(s)
  {
    match s
    case Plain(r) => Reversed(r.hints)
    case Stacked(l) => Drained(HintLists(l.children), l.children, l.border) + Reversed(l.grid.hints)
  }

  /** A surface none of whose objects changed is as valid as before and holds the same hints. */
  twostate lemma SurfaceKept(s: Surface)
    requires old(SurfaceValid(s)) && unchanged(old(Repr(s)))
    ensures SurfaceValid(s) && Repr(s) == old(Repr(s)) && Pending(s) == old(Pending(s))
    ensures forall x: nat, y: nat :: Shown(s, x, y) == old(Shown(s, x, y))
  {
  }

  /** A surface none of whose objects changed still has the same grid over a w x h screen. */
  twostate lemma GridKept(s: Surface, new w: nat, new h: nat)
    requires old(SurfaceValid(s)) && unchanged(old(Repr(s)))
    ensures SurfaceValid(s) && Repr(s) == old(Repr(s)) && Pending(s) == old(Pending(s))
    ensures WantGrid(s, w, h) == old(WantGrid(s, w, h))
  {
  }

  /** A surface none of whose objects changed can still be read and shows the same cells. */
  twostate lemma CellsKept(s: Surface)
    requires old(SurfaceReadable(s)) && unchanged(old(Repr(s)))
    ensures SurfaceReadable(s) && Repr(s) == old(Repr(s))
    ensures forall x: nat, y: nat :: Shown(s, x, y) == old(Shown(s, x, y))
  {
  }

  /** Children with empty queues give up nothing. */
  lemma {:induction false} DrainedEmptyPrefix(ls: seq<seq<Hint>>, cs: seq<Slot>, border: bool, k: nat)
    requires |ls| == |cs| && k <= |ls|
    requires forall j :: 0 <= j < k ==> ls[j] == []
    ensures Drained(ls, cs, border) == Drained(ls[k..], cs[k..], border)
    decreases k
  {
    if k > 0 {
      DrainedEmptyPrefix(ls[1..], cs[1..], border, k - 1);
      assert ls[1..][k - 1..] == ls[k..] && cs[1..][k - 1..] == cs[k..];
    }
  }

  /** Taking the most recent hint off the first child removes the first drained hint. */
  lemma DrainedHead(ls: seq<seq<Hint>>, cs: seq<Slot>, border: bool, hs': seq<Hint>)
    requires |ls| == |cs| && ls != [] && ls[0] != [] && hs' == ls[0][..|ls[0]| - 1]
    ensures Drained(ls, cs, border)
              == [Translate(ls[0][|ls[0]| - 1], cs[0].y, border)] + Drained([hs'] + ls[1..], cs, border)
  {
    var th := TranslatedAll(ls[0], cs[0].y, border);
    assert ([hs'] + ls[1..])[1..] == ls[1..];
    assert th[..|th| - 1] == TranslatedAll(hs', cs[0].y, border);
  }

  /** Replacing element `k` and dropping what comes before it. */
  lemma UpdateSuffix<T>(xs: seq<T>, k: nat, v: T)
    requires k < |xs|
    ensures xs[k := v][k..] == [v] + xs[k..][1..]
  {
  }

  /** Taking the most recent hint off child `k`, the first with any, removes the first drained hint. */
  lemma DrainedPop(ls: seq<seq<Hint>>, cs: seq<Slot>, border: bool, k: nat)
    requires |ls| == |cs| && k < |ls| && ls[k] != []
    requires forall j :: 0 <= j < k ==> ls[j] == []
    ensures var hs := ls[k];
            Drained(ls, cs, border)
              == [Translate(hs[|hs| - 1], cs[k].y, border)] + Drained(ls[k := hs[..|hs| - 1]], cs, border)
  {
    var hs' := ls[k][..|ls[k]| - 1];
    var ls' := ls[k := hs'];
    DrainedEmptyPrefix(ls, cs, border, k);
    assert forall j :: 0 <= j < k ==> ls'[j] == [];
    DrainedEmptyPrefix(ls', cs, border, k);
    UpdateSuffix(ls, k, hs');
    DrainedHead(ls[k..], cs[k..], border, hs');
  }

  /**
   * The layout's `pop_hint` on values: when child `k`, the first with a hint,
   * gives up its most recent one, translated, or when no child has one and
   * the layout gives up its own, the hint is the first in the drain order and
   * the rest stay in order.
   */
  lemma LayoutPopped(ls: seq<seq<Hint>>, cs: seq<Slot>, border: bool, g: seq<Hint>,
                     h: Option<Hint>, ls': seq<seq<Hint>>, g': seq<Hint>)
    requires |ls| == |cs|
    requires var k := FirstFull(ls, 0);
             k < |ls| ==>
               var hs := ls[k];
               h == Some(Translate(hs[|hs| - 1], cs[k].y, border)) && ls' == ls[k := hs[..|hs| - 1]] && g' == g
    requires FirstFull(ls, 0) == |ls| ==>
               && ls' == ls
               && (g == [] ==> h.None? && g' == [])
               && (g != [] ==> h == Some(g[|g| - 1]) && g' == g[..|g| - 1])
    ensures var p := Drained(ls, cs, border) + Reversed(g);
            var p' := Drained(ls', cs, border) + Reversed(g');
            && (p == [] ==> h.None? && p' == [])
            && (p != [] ==> h == Some(p[0]) && p' == p[1..])
  {
    var k := FirstFull(ls, 0);
    if k < |ls| {
      PopChildValues(ls, cs, border, g, k);
    } else {
      PopOwnValues(ls, cs, border, g);
      PopOwnValues(ls, cs, border, g');
      if g != [] {
        assert Reversed(g) == [g[|g| - 1]] + Reversed(g[..|g| - 1]);
      }
    }
  }

  /** Child `k`, the first with a hint, gives up its most recent one: the first drained hint. */
  lemma PopChildValues(ls: seq<seq<Hint>>, cs: seq<Slot>, border: bool, g: seq<Hint>, k: nat)
    requires |ls| == |cs| && k < |ls| && ls[k] != []
    requires forall j :: 0 <= j < k ==> ls[j] == []
    ensures var hs := ls[k];
            var p := Drained(ls, cs, border) + Reversed(g);
            && p != [] && p[0] == Translate(hs[|hs| - 1], cs[k].y, border)
            && p[1..] == Drained(ls[k := hs[..|hs| - 1]], cs, border) + Reversed(g)
  {
    var hs := ls[k];
    DrainedPop(ls, cs, border, k);
    var d' := Drained(ls[k := hs[..|hs| - 1]], cs, border);
    var t := Translate(hs[|hs| - 1], cs[k].y, border);
    assert Drained(ls, cs, border) + Reversed(g) == [t] + (d' + Reversed(g));
  }

  /** With every child queue empty, only the layout's own hints are drained. */
  lemma PopOwnValues(ls: seq<seq<Hint>>, cs: seq<Slot>, border: bool, g: seq<Hint>)
    requires |ls| == |cs| && forall j :: 0 <= j < |ls| ==> ls[j] == []
    ensures Drained(ls, cs, border) + Reversed(g) == Reversed(g)
  {
    DrainedEmptyPrefix(ls, cs, border, |ls|);
    assert ls[|ls|..] == [] && cs[|cs|..] == [];
  }

  /**
   * `pop_hint` on the surface: the first pending hint comes out and the rest
   * stay pending in the same order; with nothing pending, nothing comes out.
   */
  method PopSurfaceHint(s: Surface) returns (h: Option<Hint>)
    requires SurfaceValid(s)
    modifies Holders(s)`hints
    ensures SurfaceValid(s) && Repr(s) == old(Repr(s))
    ensures old(Pending(s)) == [] ==> h.None? && Pending(s) == []
    ensures old(Pending(s)) != [] ==> h == Some(old(Pending(s))[0]) && Pending(s) == old(Pending(s))[1..]
  {
    match s {
      case Plain(r) =>
        h := r.PopHint();
      case Stacked(l) =>
        h := PopLayout(l);
    }
  }

  /** The drain order of a layout. */
  ghost function LayoutPending(l: Layout): seq<Hint>
    reads l, l.Repr()
  {
    Drained(HintLists(l.children), l.children, l.border) + Reversed(l.grid.hints)
  }

  method PopLayout(l: Layout) returns (h: Option<Hint>)
    requires l.Valid()
    modifies l.grid`hints, RegionsOf(l.children)`hints
    ensures l.Valid()
    ensures old(LayoutPending(l)) == [] ==> h.None? && LayoutPending(l) == []
    ensures old(LayoutPending(l)) != [] ==> h == Some(old(LayoutPending(l))[0]) && LayoutPending(l) == old(LayoutPending(l))[1..]
  {
    ghost var ls := HintLists(l.children);
    ghost var g := l.grid.hints;
    assert old(LayoutPending(l)) == Drained(ls, l.children, l.border) + Reversed(g);
    h := l.PopHint();
    LayoutPopped(ls, l.children, l.border, g, h, HintLists(l.children), l.grid.hints);
  }

  /** A plain region's queued hints all lie inside it. */
  lemma PlainPendingInside(r: Region)
    requires r.Valid()
    ensures forall i :: 0 <= i < |Pending(Plain(r))| ==>
              0 <= Pending(Plain(r))[i].y0 <= Pending(Plain(r))[i].y1 < r.height
  {
  }
}
