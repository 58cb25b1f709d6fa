/**
 * FillBox (lib/controls/fillbox.js): a region painted all over with one
 * character in one format.  The box is a Region in the source (prototype
 * inheritance); here it owns its `grid` Region.
 *
 * `wcswidth` is external: the box is handed the width function it uses.
 */
module FillBoxes {
  import opened Wrappers
  import opened Cells
  import opened Regions

  /** A `w` x `h` grid in which every cell is `c`. */
  function Filled(w: nat, h: nat, c: Cell): (g: seq<seq<Cell>>)
    ensures |g| == h && IsGrid(g, w)
  {
    seq(h, _ => seq(w, _ => c))
  }

  /**
   * Part way through `_redo`'s column-major loop at column `x`, row `y`: the
   * columns before `x`, and the rows before `y` of column `x`, hold `c`; every
   * other cell is still cleared.
   */
  function FilledTo(w: nat, h: nat, c: Cell, x: nat, y: nat): (g: seq<seq<Cell>>)
    ensures |g| == h && IsGrid(g, w)
  {
    seq(h, r => seq(w, k => if k < x || (k == x && r < y) then c else Blank))
  }

  /** Writing `c` at (x, y) moves the fill on by one row of column `x`. */
  lemma FilledToStep(w: nat, h: nat, c: Cell, x: nat, y: nat)
    requires x < w && y < h
    ensures var g := FilledTo(w, h, c, x, y);
            g[y := g[y][x := c]] == FilledTo(w, h, c, x, y + 1)
  {
    var g := FilledTo(w, h, c, x, y);
    var g' := g[y := g[y][x := c]];
    var f := FilledTo(w, h, c, x, y + 1);
    forall r | 0 <= r < h
      ensures g'[r] == f[r]
    {
      if r == y {
        assert forall k :: 0 <= k < w ==> g'[r][k] == f[r][k];
      } else {
        assert forall k :: 0 <= k < w ==> g'[r][k] == f[r][k];
      }
    }
  }

  /** A finished column is the start of the next one. */
  lemma FilledToColumn(w: nat, h: nat, c: Cell, x: nat)
    ensures FilledTo(w, h, c, x, h) == FilledTo(w, h, c, x + 1, 0)
  {
    var a, b := FilledTo(w, h, c, x, h), FilledTo(w, h, c, x + 1, 0);
    forall r | 0 <= r < h
      ensures a[r] == b[r]
    {
      assert forall k :: 0 <= k < w ==> a[r][k] == b[r][k];
    }
  }

  /** Before the loop nothing is filled; after every column everything is. */
  lemma FilledToEnds(w: nat, h: nat, c: Cell)
    ensures FilledTo(w, h, c, 0, 0) == BlankGrid(w, h)
    ensures FilledTo(w, h, c, w, 0) == Filled(w, h, c)
  {
    var a, b := FilledTo(w, h, c, 0, 0), BlankGrid(w, h);
    forall r | 0 <= r < h
      ensures a[r] == b[r]
    {
      assert forall k :: 0 <= k < w ==> a[r][k] == b[r][k];
    }
    var d, e := FilledTo(w, h, c, w, 0), Filled(w, h, c);
    forall r | 0 <= r < h
      ensures d[r] == e[r]
    {
      assert forall k :: 0 <= k < w ==> d[r][k] == e[r][k];
    }
  }

  /** All cells of a filled grid are equal to one another in the sense of `Cell.equals`. */
  lemma FilledCellsEqual(w: nat, h: nat, c: Cell, x0: nat, y0: nat, x1: nat, y1: nat)
    requires x0 < w && x1 < w && y0 < h && y1 < h
    ensures Equals(Filled(w, h, c)[y0][x0], Filled(w, h, c)[y1][x1])
  {
    EqualsIsEquivalence(c, c, c);
  }

  class FillBox {
    const grid: Region
    /** `wcswidth`, as the box measures its character. */
    const measure: string -> int
    /** `fb_char`: one UTF-16 unit. */
    var character: string
    /** `fb_fmt`. */
    var format: Format

    /** The cell every position of the box shows. */
    function Paint(): Cell
      reads this
    {
      Written(character, measure(character), format)
    }

    /** The box is painted: every cell holds the box's character in the box's format. */
    ghost predicate Valid()
      reads this, grid
    {
      grid.Valid() && |character| == 1 && grid.rows == Filled(grid.width, grid.height, Paint())
    }

    /**
     * `new FillBox({ width: w, height: h, character, format })`: the character
     * is a space when none is given, and must otherwise be exactly one unit
     * long; the box is painted at once.
     */
    constructor (w: nat, h: nat, character: Option<string>, format: Format, measure: string -> int)
      requires character.Some? ==> |character.value| == 1
      ensures Valid() && fresh(grid)
      ensures grid.width == (if w == 0 then 1 else w) && grid.height == (if h == 0 then 1 else h)
      ensures this.character == (if character.Some? then character.value else " ")
      ensures this.format == format && this.measure == measure
    {
      grid := new Region(w, h);
      this.measure := measure;
      this.character := if character.Some? then character.value else " ";
      this.format := format;
      new;
      Redo();
    }

    /** `_redo`: clear the grid, then write the character at every position, column by column. */
    method Redo()
      requires grid.Valid() && |character| == 1
      modifies grid`rows
      ensures Valid()
    {
      var w, h := grid.width, grid.height;
      var c := Paint();
      grid.Clear();
      FilledToEnds(w, h, c);
      var x := 0;
      while x < w
        invariant 0 <= x <= w && grid.Valid()
        invariant grid.rows == FilledTo(w, h, c, x, 0)
      {
        PaintColumn(x);
        x := x + 1;
      }
    }

    /** One turn of `_redo`'s outer loop: write the character down column `x`. */
    method PaintColumn(x: nat)
      requires grid.Valid() && |character| == 1 && x < grid.width
      requires grid.rows == FilledTo(grid.width, grid.height, Paint(), x, 0)
      modifies grid`rows
      ensures grid.Valid() && grid.rows == FilledTo(grid.width, grid.height, Paint(), x + 1, 0)
    {
      var w, h := grid.width, grid.height;
      var c := Paint();
      var y := 0;
      while y < h
        invariant 0 <= y <= h && grid.Valid()
        invariant grid.rows == FilledTo(w, h, c, x, y)
      {
        FilledToStep(w, h, c, x, y);
        var _ := grid.Chr(x, y, character, measure(character), format);
        y := y + 1;
      }
      FilledToColumn(w, h, c, x);
    }

    /** `set_character(ch)`: `ch` must be one unit long; the box is repainted with it. */
    method SetCharacter(ch: string)
      requires Valid() && |ch| == 1
      modifies this`character, grid`rows
      ensures Valid() && character == ch && format == old(format)
      ensures grid.width == old(grid.width) && grid.height == old(grid.height)
    {
      character := ch;
      Redo();
    }

    /** `set_format(fmt)`: the box is repainted in the new format. */
    method SetFormat(fmt: Format)
      requires Valid()
      modifies this`format, grid`rows
      ensures Valid() && format == fmt && character == old(character)
      ensures grid.width == old(grid.width) && grid.height == old(grid.height)
    {
      format := fmt;
      Redo();
    }

    /**
     * `resize(w, h)`: when the size changes the 'resize' handler repaints the
     * box, so it is painted whatever the new size.
     */
    method Resize(w: nat, h: nat) returns (changed: bool)
      requires Valid()
      modifies grid
      ensures Valid() && grid.width == w && grid.height == h
      ensures changed <==> (w != old(grid.width) || h != old(grid.height))
      ensures character == old(character) && format == old(format)
    {
      changed := grid.Resize(w, h);
      if changed {
        Redo();
      }
    }
  }
}
