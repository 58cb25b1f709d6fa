/**
 * The drawing engine (lib/draw.js): a cached copy of what the terminal shows
 * (the "screen" region) is brought up to date with a target surface by first
 * replaying the target's scroll hints as scrolling-region escapes and then
 * emitting only the cells that differ.  The terminal itself is outside the
 * model: `Redraw` returns the text it would write.
 */
module Drawing {
  import opened Wrappers
  import opened Strings
  import opened Cells
  import opened Regions
  import opened Layouts
  import opened Terminal

  const ESC: string := "\U{1B}"
  const CSI: string := "\U{1B}["

  /** `k` copies of `s`, one after the other. */
  function Repeat(s: string, k: nat): (r: string)
    ensures |r| == k * |s|
  {
    if k == 0 then "" else Repeat(s, k - 1) + s
  }

  // ---------------------------------------------------------------------
  // Escape sequences
  // ---------------------------------------------------------------------

  /** DECSTBM: confine scrolling to rows `y0` to `y1` (numbered from 0 here, from 1 on the wire). */
  function SetMargins(y0: int, y1: int): string
  {
    CSI + IntStr(y0 + 1) + ";" + IntStr(y1 + 1) + "r"
  }

  /** CUP with the column left out: move to the start of row `y`. */
  function RowHome(y: int): string
  {
    CSI + IntStr(y + 1) + "H"
  }

  /** Reverse Index (RI): at the top margin, the region scrolls down one row. */
  const REVERSE_INDEX: string := ESC + "M"

  /** Index (IND): at the bottom margin, the region scrolls up one row. */
  const INDEX: string := ESC + "D"

  /** DECSTBM with no parameters: scrolling covers the whole screen again. */
  const RESET_MARGINS: string := CSI + "r"

  /**
   * What `draw_region_shift(r, y0, y1, n)` writes: nothing for a zero shift;
   * otherwise margins around the band, the cursor to its top row and `|n|`
   * reverse indexes (n < 0, text moves down) or to its bottom row and `n`
   * indexes (n > 0, text moves up), and finally the margins reset.
   */
  function ShiftEscape(y0: int, y1: int, n: int): (out: string)
  {
    if n == 0 then ""
    else if n < 0 then SetMargins(y0, y1) + RowHome(y0) + Repeat(REVERSE_INDEX, -n) + RESET_MARGINS
    else SetMargins(y0, y1) + RowHome(y1) + Repeat(INDEX, n) + RESET_MARGINS
  }

  /** HVP: move to row `y`, column `x`. */
  function MoveTo(y: int, x: int): string
  {
    CSI + IntStr(y + 1) + ";" + IntStr(x + 1) + "f"
  }

  /** CUF: move `n` columns to the right. */
  function Forward(n: int): string
  {
    CSI + IntStr(n) + "C"
  }

  /** CHA: move to column `x` of the current row. */
  function ToColumn(x: int): string
  {
    CSI + IntStr(x + 1) + "G"
  }

  /** SGR 0: every attribute off. */
  const SGR_RESET: string := CSI + "0m"

  /** SGR for an attribute byte: reset, then bold (1) and inverse (7) when their bits are set. */
  function Sgr(attr: bv8): (s: string)
  {
    CSI + "0" + (if attr & ATTR_BOLD != 0 then ";1" else "")
      + (if attr & ATTR_INVERSE != 0 then ";7" else "") + "m"
  }

  // ---------------------------------------------------------------------
  // Properties of the escapes
  // ---------------------------------------------------------------------

  /** The shift escape is empty exactly when there is nothing to shift. */
  lemma ShiftEscapeEmpty(y0: int, y1: int, n: int)
    ensures ShiftEscape(y0, y1, n) == "" <==> n == 0
  {
    if n != 0 {
      assert |ShiftEscape(y0, y1, n)| >= |RESET_MARGINS|;
    }
  }

  /** The text of one control on the wire. */
  function Wire(c: Control): string
  {
    match c
    case Margins(top, bottom) => SetMargins(top, bottom)
    case Home(row) => RowHome(row)
    case Index => INDEX
    case ReverseIndex => REVERSE_INDEX
    case ResetMargins => RESET_MARGINS
    case CursorTo(y, x) => MoveTo(y, x)
    case CursorForward(n) => Forward(n)
    case CursorColumn(x) => ToColumn(x)
    case Rendition(attr) => Sgr(attr)
    case Print(glyph) => glyph
  }

  /** The strings that `f` gives for the elements of `xs`, one after the other. */
  function ConcatMap<T>(f: T -> string, xs: seq<T>): string
  {
    if xs == [] then "" else ConcatMap(f, xs[..|xs| - 1]) + f(xs[|xs| - 1])
  }

  lemma {:induction false} ConcatMapAppend<T>(f: T -> string, a: seq<T>, b: seq<T>)
    ensures ConcatMap(f, a + b) == ConcatMap(f, a) + ConcatMap(f, b)
    decreases |b|
  {
    if b == [] {
      assert a + b == a;
    } else {
      var ab := a + b;
      assert ab[..|ab| - 1] == a + b[..|b| - 1];
      ConcatMapAppend(f, a, b[..|b| - 1]);
    }
  }

  /** The text of a sequence of controls. */
  function WireAll(cs: seq<Control>): string
  {
    ConcatMap(Wire, cs)
  }

  /** The text of two lists of controls, one after the other. */
  lemma WireAllAppend(a: seq<Control>, b: seq<Control>)
    ensures WireAll(a + b) == WireAll(a) + WireAll(b)
  {
    ConcatMapAppend(Wire, a, b);
  }

  /** One more control adds its own text at the end. */
  lemma WireAllSnoc(cs: seq<Control>, c: Control)
    ensures WireAll(cs + [c]) == WireAll(cs) + Wire(c)
  {
    assert (cs + [c])[..|cs|] == cs;
  }

  lemma {:induction false} WireAllTimes(c: Control, k: nat)
    ensures WireAll(Times(c, k)) == Repeat(Wire(c), k)
    decreases k
  {
    if k > 0 {
      WireAllTimes(c, k - 1);
      ConcatMapAppend(Wire, Times(c, k - 1), [c]);
      assert [c][..0] == [];
    }
  }

  /** The shift escape is exactly the wire form of the shift's controls. */
  lemma ShiftEscapeIsControls(y0: int, y1: int, n: int)
    ensures ShiftEscape(y0, y1, n) == WireAll(ShiftControls(y0, y1, n))
  {
    if n != 0 {
      var c := if n > 0 then Index else ReverseIndex;
      var row := if n > 0 then y1 else y0;
      var head := [Margins(y0, y1), Home(row)];
      var body := Times(c, Abs(n));
      var tail := [ResetMargins];
      assert ShiftControls(y0, y1, n) == head + body + tail;
      var h, b, t := SetMargins(y0, y1) + RowHome(row), Repeat(Wire(c), Abs(n)), RESET_MARGINS;
      assert Wire(c) == (if n > 0 then INDEX else REVERSE_INDEX);
      assert ShiftEscape(y0, y1, n) == h + b + t;
      assert head[..1] == [Margins(y0, y1)] && head[..1][..0] == [];
      var m := SetMargins(y0, y1);
      assert ConcatMap(Wire, head[..1]) == ConcatMap(Wire, []) + Wire(Margins(y0, y1));
      assert "" + m == m;
      assert ConcatMap(Wire, head[..1]) == m;
      assert WireAll(head) == ConcatMap(Wire, head[..1]) + Wire(Home(row));
      assert WireAll(head) == h;
      assert tail[..0] == [];
      assert WireAll(tail) == ConcatMap(Wire, []) + Wire(ResetMargins);
      assert "" + t == t;
      assert WireAll(tail) == t;
      WireAllTimes(c, Abs(n));
      ConcatMapAppend(Wire, head, body);
      ConcatMapAppend(Wire, head + body, tail);
    }
  }

  /**
   * The escape as it should be for a band of one row: nothing, since the
   * recorded shift of such a band moves nothing (the terminal would ignore
   * the margins and scroll the whole screen instead).
   */
  function BandShiftEscape(y0: int, y1: int, n: int): (out: string)
    ensures y0 < y1 ==> out == ShiftEscape(y0, y1, n)
    ensures y1 <= y0 ==> out == ""
  {
    if y1 <= y0 then "" else ShiftEscape(y0, y1, n)
  }

  /** The corrected escape is the wire form of the corrected controls. */
  lemma BandShiftEscapeIsControls(y0: int, y1: int, n: int)
    ensures BandShiftEscape(y0, y1, n) == WireAll(BandControls(y0, y1, n))
  {
    if y0 < y1 {
      ShiftEscapeIsControls(y0, y1, n);
    }
  }

  // ---------------------------------------------------------------------
  // Replaying one hint on the screen
  // ---------------------------------------------------------------------

  /**
   * The rows and hints of a region after `draw_region_shift(r, y0, y1, n)`:
   * unchanged for a zero shift, otherwise the band pinned to the grid shifted
   * `|n|` times by one row, and one hint recorded (or merged) for the whole
   * shift.
   */
  function ShiftedScreen(rows: seq<seq<Cell>>, hints: seq<Hint>, w: nat, y0: int, y1: int, n: int)
    : (seq<seq<Cell>>, seq<Hint>)
    requires n != 0 ==> Max(y0, 0) <= Min(y1, |rows| - 1)
  {
    if n == 0 then (rows, hints)
    else
      var lo, hi := Max(y0, 0), Min(y1, |rows| - 1);
      (UnitShifts(rows, lo, hi, n > 0, Abs(n), BlankRow(w)), RecordHint(hints, Hint(w, lo, hi, n)))
  }

  /**
   * `draw_region_shift(r, y0, y1, n)`: shift the band of `r` one row at a
   * time, `|n|` times in the direction of `n` (each call records its own hint
   * in `r`), and return the escape that does the same on the terminal; for a
   * band of one row the escape is left out (see `BandShiftEscape`).
   */
  method RegionShift(r: Region, y0: int, y1: int, n: int) returns (out: string)
    requires r.Valid()
    requires n != 0 ==> Max(y0, 0) <= Min(y1, r.height - 1)
    modifies r`rows, r`hints
    ensures r.Valid()
    ensures out == BandShiftEscape(y0, y1, n)
    ensures (r.rows, r.hints) == ShiftedScreen(old(r.rows), old(r.hints), r.width, y0, y1, n)
  {
    if n == 0 {
      return "";
    }
    ShiftOneAtATime(r, y0, y1, n);
    if y1 <= y0 {
      return "";
    }
    out := ShiftText(y0, y1, n);
  }

  /** One more unit shift in the same direction extends a shift of the screen by one row. */
  lemma ShiftedScreenStep(rows: seq<seq<Cell>>, hints: seq<Hint>, w: nat, y0: int, y1: int, m: int)
    requires m != 0 && Max(y0, 0) <= Min(y1, |rows| - 1)
    ensures var lo, hi := Max(y0, 0), Min(y1, |rows| - 1);
            var unit := if m > 0 then 1 else -1;
            var s := ShiftedScreen(rows, hints, w, y0, y1, m);
            (Shifted(s.0, lo, hi, unit, BlankRow(w)), RecordHint(s.1, Hint(w, lo, hi, unit)))
              == ShiftedScreen(rows, hints, w, y0, y1, m + unit)
  {
    var lo, hi := Max(y0, 0), Min(y1, |rows| - 1);
    assert Abs(m + (if m > 0 then 1 else -1)) == Abs(m) + 1;
    RecordHintCoalesces(hints, w, lo, hi, m, if m > 0 then 1 else -1);
  }

  /** The loop of `draw_region_shift` that applies `|n|` unit shifts to the region. */
  method ShiftOneAtATime(r: Region, y0: int, y1: int, n: int)
    requires r.Valid() && n != 0 && Max(y0, 0) <= Min(y1, r.height - 1)
    modifies r`rows, r`hints
    ensures r.Valid()
    ensures (r.rows, r.hints) == ShiftedScreen(old(r.rows), old(r.hints), r.width, y0, y1, n)
  {
    ghost var rows0, hints0 := r.rows, r.hints;
    var unit := if n > 0 then 1 else -1;
    r.ShiftRows(y0, y1, unit);
    var k := 1;
    while k < Abs(n)
      invariant 1 <= k <= Abs(n) && r.Valid()
      invariant (r.rows, r.hints) == ShiftedScreen(rows0, hints0, r.width, y0, y1, if n > 0 then k else -k)
    {
      ShiftedScreenStep(rows0, hints0, r.width, y0, y1, if n > 0 then k else -k);
      r.ShiftRows(y0, y1, unit);
      k := k + 1;
    }
  }

  /** The string half of `draw_region_shift`, built by appending one control at a time. */
  method ShiftText(y0: int, y1: int, n: int) returns (out: string)
    requires n != 0
    ensures out == ShiftEscape(y0, y1, n)
  {
    out := SetMargins(y0, y1);
    var t := 0;
    if n < 0 {
      out := out + RowHome(y0);
      ghost var head := out;
      while t < -n
        invariant 0 <= t <= -n
        invariant out == head + Repeat(REVERSE_INDEX, t)
      {
        out := out + REVERSE_INDEX;
        t := t + 1;
      }
    } else {
      out := out + RowHome(y1);
      ghost var head := out;
      while t < n
        invariant 0 <= t <= n
        invariant out == head + Repeat(INDEX, t)
      {
        out := out + INDEX;
        t := t + 1;
      }
    }
    out := out + RESET_MARGINS;
  }
}
