/**
 * ContentBox (lib/controls/content.js): a region showing a block of text, one
 * line of the text per row from the top-left corner, in one format.  Lines
 * longer than the box are clipped; lines below the box are not shown.
 *
 * Grapheme segmentation and `wcswidth` are external: the box is handed the
 * function that splits a line into measured graphemes.
 */
module ContentBoxes {
  import opened Wrappers
  import opened Cells
  import opened Strings
  import opened Regions

  /**
   * What a `w` x `h` box shows for `lines`: row `y` holds line `y` when there
   * is one, and is cleared otherwise.
   */
  function ContentView(lines: seq<string>, segment: string -> seq<Grapheme>, fmt: Format, w: nat, h: nat)
    : (g: seq<seq<Cell>>)
    ensures |g| == h && IsGrid(g, w)
    ensures forall y :: 0 <= y < h && |lines| <= y ==> g[y] == BlankRow(w)
  {
    seq(h, y requires 0 <= y < h => if y < |lines| then LineRow(lines[y], segment, fmt, w) else BlankRow(w))
  }

  /** The lines of a text, as `split(/\n/g)` cuts them. */
  function Lines(content: string): (ls: seq<string>)
    ensures |ls| == Count(content, '\n') + 1
    ensures Join(ls, '\n') == content
  {
    SplitLength(content, '\n');
    SplitJoin(content, '\n');
    Split(content, '\n')
  }

  /** With no lines drawn yet the box is cleared. */
  lemma ContentViewEmpty(segment: string -> seq<Grapheme>, fmt: Format, w: nat, h: nat)
    ensures ContentView([], segment, fmt, w, h) == BlankGrid(w, h)
  {
    var a, b := ContentView([], segment, fmt, w, h), BlankGrid(w, h);
    assert forall y :: 0 <= y < h ==> a[y] == b[y];
  }

  /**
   * Drawing line `i` over the view of the lines before it gives the view of
   * the lines up to it: the line lands in row `i`, or nowhere when `i` is
   * below the box.
   */
  lemma ContentViewStep(lines: seq<string>, i: nat, segment: string -> seq<Grapheme>, fmt: Format, w: nat, h: nat)
    requires i < |lines|
    ensures var v := ContentView(lines[..i], segment, fmt, w, h);
            ContentView(lines[..i + 1], segment, fmt, w, h)
            == if i < h then v[i := LineRow(lines[i], segment, fmt, w)] else v
  {
    var v := ContentView(lines[..i], segment, fmt, w, h);
    var v' := ContentView(lines[..i + 1], segment, fmt, w, h);
    var e := if i < h then v[i := LineRow(lines[i], segment, fmt, w)] else v;
    forall y | 0 <= y < h
      ensures v'[y] == e[y]
    {
      if y < i {
        assert lines[..i + 1][y] == lines[..i][y];
      }
    }
  }

  /**
   * When a line's graphemes are all narrow, its row shows them one per column
   * from the left, clipped at the right edge, and the rest of the row is
   * cleared.
   */
  lemma LineRowNarrow(line: string, segment: string -> seq<Grapheme>, fmt: Format, w: nat)
    requires AllNarrow(segment(line))
    ensures var gs, r := segment(line), LineRow(line, segment, fmt, w);
            forall k :: 0 <= k < w ==>
              r[k] == if k < |gs| then Written(gs[k].text, gs[k].width, fmt) else Blank
  {
    WriteRowNarrowCells(BlankRow(w), 0, segment(line), fmt);
  }

  class ContentBox {
    const grid: Region
    /** `forEachGrapheme` with `wcswidth`: a line cut into measured graphemes. */
    const segment: string -> seq<Grapheme>
    /** `cb_content`. */
    var content: string
    /** `cb_format`. */
    var format: Format

    /** The grid shows the content's lines in the box's format. */
    ghost predicate Valid()
      reads this, grid
    {
      grid.Valid() && grid.rows == ContentView(Lines(content), segment, format, grid.width, grid.height)
    }

    /**
     * `new ContentBox({ width: w, height: h, content, format })`: absent
     * content is the empty text; the box is drawn at once.
     */
    constructor (w: nat, h: nat, content: Option<string>, format: Format, segment: string -> seq<Grapheme>)
      ensures Valid() && fresh(grid)
      ensures grid.width == (if w == 0 then 1 else w) && grid.height == (if h == 0 then 1 else h)
      ensures this.content == (if content.Some? then content.value else "")
      ensures this.format == format && this.segment == segment
    {
      grid := new Region(w, h);
      this.segment := segment;
      this.content := if content.Some? then content.value else "";
      this.format := format;
      new;
      Redo();
    }

    /** `_redo`: clear the grid, then write each line of the content into its row. */
    method Redo()
      requires grid.Valid()
      modifies grid`rows
      ensures Valid()
    {
      var lines := Lines(content);
      var w, h := grid.width, grid.height;
      grid.Clear();
      ContentViewEmpty(segment, format, w, h);
      var i := 0;
      while i < |lines|
        invariant 0 <= i <= |lines| && grid.Valid()
        invariant grid.rows == ContentView(lines[..i], segment, format, w, h)
      {
        ContentViewStep(lines, i, segment, format, w, h);
        var _ := grid.Str(0, i, segment(lines[i]), format);
        i := i + 1;
      }
      assert lines[..i] == lines;
    }

    /** `set_content(content)`: the box is redrawn with the new text. */
    method SetContent(c: string)
      requires Valid()
      modifies this`content, grid`rows
      ensures Valid() && content == c && format == old(format)
      ensures grid.width == old(grid.width) && grid.height == old(grid.height)
    {
      content := c;
      Redo();
    }

    /** `set_format(fmt)`: the box is redrawn in the new format. */
    method SetFormat(fmt: Format)
      requires Valid()
      modifies this`format, grid`rows
      ensures Valid() && format == fmt && content == old(content)
      ensures grid.width == old(grid.width) && grid.height == old(grid.height)
    {
      format := fmt;
      Redo();
    }

    /** `resize(w, h)`: when the size changes the 'resize' handler redraws the box. */
    method Resize(w: nat, h: nat) returns (changed: bool)
      requires Valid()
      modifies grid
      ensures Valid() && grid.width == w && grid.height == h
      ensures changed <==> (w != old(grid.width) || h != old(grid.height))
      ensures content == old(content) && format == old(format)
    {
      changed := grid.Resize(w, h);
      if changed {
        Redo();
      }
    }
  }
}
