/**
 * One terminal slot (lib/cell.js): the glyph shown in it, the number of
 * columns that glyph occupies, its attribute bits and its colours.  The source
 * mutates Cell objects in place; here a Cell is a value and each mutator is a
 * function from the old value to the new one.
 */
module Cells {
  import opened Wrappers

  const ATTR_BOLD: bv8 := 0x01
  const ATTR_INVERSE: bv8 := 0x02
  const ATTR_COLOUR_16: bv8 := 0x04
  const ATTR_COLOUR_256: bv8 := 0x08

  /** Colour number meaning "the terminal's default colour". */
  const DEFAULT_COLOUR: int := -1

  datatype Cell = Cell(glyph: string, width: int, attr: bv8, fg: int, bg: int)

  /**
   * The formatting options a writer passes (`{ bold, inverse, reverse }`); an
   * absent option is false, and an absent format object is `Plain`.
   */
  datatype Format = Format(bold: bool, inverse: bool, reverse: bool)

  const Plain: Format := Format(false, false, false)

  /** The cleared state: a space, one column wide, no attributes, default colours. */
  const Blank: Cell := Cell(" ", 1, 0, DEFAULT_COLOUR, DEFAULT_COLOUR)

  /** C0 control characters and DEL, which would move the cursor if printed. */
  predicate IsControl(c: char) { c < ' ' || c == '\U{7F}' }

  /** The "Control Pictures" block, U+2400 to U+243F. */
  predicate IsControlPicture(c: char) { '\U{2400}' <= c <= '\U{243F}' }

  const DOTTED_CIRCLE: char := '\U{25CC}'

  /**
   * `control2pic`: the visible stand-in for a glyph that measured zero or
   * negative width.  The first character decides (an empty glyph, whose
   * character code is NaN in the source, gets the dotted circle).
   */
  function ControlToPicture(c: string): (r: string)
    ensures |r| == 1 && !IsControl(r[0])
    ensures IsControlPicture(r[0]) || r[0] == DOTTED_CIRCLE
    ensures |c| > 0 && c[0] < ' ' ==> r[0] as int == c[0] as int + 0x2400
    ensures |c| > 0 && c[0] == '\U{7F}' ==> r == "\U{2421}"
    ensures (|c| == 0 || !IsControl(c[0])) ==> r == [DOTTED_CIRCLE]
  {
    if |c| > 0 && c[0] < ' ' then [(c[0] as int + 0x2400) as char]
    else if |c| > 0 && c[0] == '\U{7F}' then "\U{2421}"
    else [DOTTED_CIRCLE]
  }

  /** Distinct control characters get distinct pictures. */
  lemma ControlToPictureInjective(a: string, b: string)
    requires |a| > 0 && |b| > 0 && IsControl(a[0]) && IsControl(b[0])
    requires ControlToPicture(a) == ControlToPicture(b)
    ensures a[0] == b[0]
  {
    var ra, rb := ControlToPicture(a), ControlToPicture(b);
    assert ra[0] == rb[0];
  }

  /** `new Cell(cell)`: a copy of `from` when given, otherwise a cleared cell. */
  function NewCell(from: Option<Cell>): (r: Cell)
    ensures from.Some? ==> r == from.value
    ensures from.None? ==> r.glyph == " " && r.width == 1 && r.attr == 0
                           && r.fg == DEFAULT_COLOUR && r.bg == DEFAULT_COLOUR
  {
    if from.Some? then from.value else Blank
  }

  /** `clear`: whatever the cell held, it is now in the state of a fresh cell. */
  function Clear(c: Cell): (r: Cell)
    ensures r == NewCell(None)
  {
    Blank
  }

  /**
   * `_chr(ch, w)`: store a glyph measured `w` columns wide, and return the
   * columns it occupies.  Widths 0 and -1 (combining or unprintable clusters)
   * become a one-column picture.
   */
  function PutGlyph(c: Cell, ch: string, w: int): (r: (Cell, int))
    ensures r.0.attr == c.attr && r.0.fg == c.fg && r.0.bg == c.bg
    ensures r.1 == r.0.width
    ensures (w == 0 || w == -1) ==> r.0.glyph == ControlToPicture(ch) && r.1 == 1
    ensures !(w == 0 || w == -1) ==> r.0.glyph == ch && r.1 == w
  {
    if w == -1 || w == 0 then (c.(glyph := ControlToPicture(ch), width := 1), 1)
    else (c.(glyph := ch, width := w), w)
  }

  /** The attribute bits a format asks for. */
  function FormatAttr(fmt: Format): (a: bv8)
    ensures (a & ATTR_BOLD != 0) <==> fmt.bold
    ensures (a & ATTR_INVERSE != 0) <==> (fmt.inverse || fmt.reverse)
    ensures a & !(ATTR_BOLD | ATTR_INVERSE) == 0
  {
    var a0: bv8 := 0;
    var a1 := if fmt.bold then a0 | ATTR_BOLD else a0;
    if fmt.inverse || fmt.reverse then a1 | ATTR_INVERSE else a1
  }

  /** `format(fmt)`: reset the attributes and set those the format asks for. */
  function ApplyFormat(c: Cell, fmt: Format): (r: Cell)
    ensures r.glyph == c.glyph && r.width == c.width && r.fg == c.fg && r.bg == c.bg
    ensures (r.attr & ATTR_BOLD != 0) <==> fmt.bold
    ensures (r.attr & ATTR_INVERSE != 0) <==> (fmt.inverse || fmt.reverse)
    ensures r.attr & !(ATTR_BOLD | ATTR_INVERSE) == 0
  {
    c.(attr := FormatAttr(fmt))
  }

  /** The plain format leaves the attributes cleared. */
  lemma PlainFormatIsCleared(c: Cell)
    ensures ApplyFormat(Clear(c), Plain) == Clear(c)
  {
    var a := FormatAttr(Plain);
    assert a & ATTR_BOLD == 0 && a & ATTR_INVERSE == 0 && a & !(ATTR_BOLD | ATTR_INVERSE) == 0;
  }

  /** `set_from(cell)`: copy all five fields. */
  function SetFrom(c: Cell, from: Cell): (r: Cell)
    ensures r.glyph == from.glyph && r.width == from.width && r.attr == from.attr
    ensures r.fg == from.fg && r.bg == from.bg
  {
    from
  }

  /** `has_same_attrs`: the style, that is attributes and both colours, agree. */
  predicate HasSameAttrs(a: Cell, b: Cell)
  {
    a.attr == b.attr && a.fg == b.fg && a.bg == b.bg
  }

  /** `equals`: same style and same glyph; the width is not compared. */
  predicate Equals(a: Cell, b: Cell)
  {
    HasSameAttrs(a, b) && a.glyph == b.glyph
  }

  /** After `a.set_from(b)`, `a.equals(b)` holds. */
  lemma SetFromEquals(a: Cell, b: Cell)
    ensures Equals(SetFrom(a, b), b)
  {
  }

  /** Any cleared cell equals a freshly constructed one. */
  lemma ClearEqualsFresh(c: Cell)
    ensures Equals(Clear(c), NewCell(None))
  {
  }

  /** `equals` is an equivalence relation that ignores the width. */
  lemma EqualsIsEquivalence(a: Cell, b: Cell, c: Cell)
    ensures Equals(a, a)
    ensures Equals(a, b) <==> Equals(b, a)
    ensures Equals(a, b) && Equals(b, c) ==> Equals(a, c)
    ensures Equals(a, a.(width := b.width))
  {
  }
}
