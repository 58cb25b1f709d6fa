/**
 * Box-drawing glyphs and label formatting (lib/boxdraw.js).
 */
module BoxDraw {
  import opened Strings

  /** The eight glyphs a bordered layout is drawn with. */
  datatype BoxGlyphs = BoxGlyphs(
    topLeft: char, topRight: char, bottomLeft: char, bottomRight: char,
    horiz: char, verti: char, vertiLeft: char, vertiRight: char)

  /** Heavy lines, U+250F and friends. */
  const BOX_DRAW_BOLD: BoxGlyphs := BoxGlyphs(
    '\U{250F}', '\U{2513}', '\U{2517}', '\U{251B}',
    '\U{2501}', '\U{2503}', '\U{2523}', '\U{252B}')

  /** Light lines, U+250C and friends. */
  const BOX_DRAW_NORMAL: BoxGlyphs := BoxGlyphs(
    '\U{250C}', '\U{2510}', '\U{2514}', '\U{2518}',
    '\U{2500}', '\U{2502}', '\U{251C}', '\U{2524}')

  /** Every glyph of a table lies in the Unicode "Box Drawing" block. */
  predicate InBoxDrawingBlock(c: char) { '\U{2500}' <= c <= '\U{257F}' }

  predicate IsBoxTable(b: BoxGlyphs)
  {
    && InBoxDrawingBlock(b.topLeft) && InBoxDrawingBlock(b.topRight)
    && InBoxDrawingBlock(b.bottomLeft) && InBoxDrawingBlock(b.bottomRight)
    && InBoxDrawingBlock(b.horiz) && InBoxDrawingBlock(b.verti)
    && InBoxDrawingBlock(b.vertiLeft) && InBoxDrawingBlock(b.vertiRight)
  }

  /** Both tables are made of box-drawing characters, and they differ in every glyph. */
  lemma TablesAreBoxDrawing()
    ensures IsBoxTable(BOX_DRAW_BOLD) && IsBoxTable(BOX_DRAW_NORMAL)
    ensures BOX_DRAW_BOLD.topLeft != BOX_DRAW_NORMAL.topLeft
    ensures BOX_DRAW_BOLD.horiz != BOX_DRAW_NORMAL.horiz
    ensures BOX_DRAW_BOLD.verti != BOX_DRAW_NORMAL.verti
  {
  }

  /** `k` dots. */
  function Dots(k: nat): (r: string)
    ensures |r| == k && forall i :: 0 <= i < k ==> r[i] == '.'
  {
    seq(k, _ => '.')
  }

  /**
   * The text of a label squeezed into `m` columns: unchanged when it fits,
   * otherwise cut and ended with "..." (or, when `m` is 3 or less, its first
   * character followed by dots).
   */
  function Abridge(s: string, m: nat): (r: string)
    requires m > 0
  {
    if |s| <= m then s
    else if m > 3 then s[..m - 3] + "..."
    else [s[0]] + Dots(m - 1)
  }

  /**
   * `format_label(str, maxlen)`: the label padded with a space on each side,
   * fitted into `maxlen` columns (so that it sits inside a border), or empty
   * when there is no room for even one character.
   */
  function FormatLabel(s: string, maxlen: int): (r: string)
    ensures r == "" <==> maxlen - 4 <= 0
    ensures r != "" ==> 2 <= |r| <= maxlen - 2 && r[0] == ' ' && r[|r| - 1] == ' '
    ensures r != "" ==> |r| == Min(|s|, maxlen - 4) + 2
  {
    var m := maxlen - 4;
    if m <= 0 then "" else " " + Abridge(s, m) + " "
  }

  /** A label that fits is kept whole. */
  lemma FormatLabelUnabridged(s: string, maxlen: int)
    requires 0 < maxlen - 4 && |s| <= maxlen - 4
    ensures FormatLabel(s, maxlen) == " " + s + " "
  {
  }

  /** A long label with more than 3 columns to spare keeps its first m - 3 characters, then "...". */
  lemma FormatLabelEllipsis(s: string, maxlen: int)
    requires 3 < maxlen - 4 < |s|
    ensures var m := maxlen - 4;
            var r := FormatLabel(s, maxlen);
            |r| == m + 2 && r[1..m - 2] == s[..m - 3] && r[m - 2..m + 1] == "..."
  {
  }

  /** With 1 to 3 columns, a long label becomes its first character and dots. */
  lemma FormatLabelDots(s: string, maxlen: int)
    requires 0 < maxlen - 4 <= 3 && maxlen - 4 < |s|
    ensures var m := maxlen - 4;
            var r := FormatLabel(s, maxlen);
            |r| == m + 2 && r[1] == s[0] && forall i :: 2 <= i <= m ==> r[i] == '.'
  {
  }

  /**
   * The looping form of `format_label`: the dots are appended by a
   * pre-decrementing loop on the remaining length.
   */
  method FormatLabelLoop(s: string, maxlen: int) returns (r: string)
    ensures r == FormatLabel(s, maxlen)
  {
    var m := maxlen - 4;
    if m <= 0 {
      return "";
    }
    var t := s;
    if |s| > m {
      if m > 3 {
        t := s[..m - 3] + "...";
      } else {
        t := [s[0]];
        m := m - 1;
        while m > 0
          invariant 0 <= m && t == [s[0]] + Dots(maxlen - 5 - m)
        {
          t := t + ".";
          m := m - 1;
        }
      }
    }
    r := " " + t + " ";
  }
}
