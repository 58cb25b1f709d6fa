/**
 * SimpleTextBox (examples/textbox.js): a small multi-line editor.  The text is
 * a list of lines with a cursor `offset` into it; the box shows the text from
 * its `corner`, which `_redo` moves just far enough to keep the cursor in view.
 *
 * The box is a Region in the source (prototype inheritance); here it owns its
 * `grid` Region.  Grapheme segmentation and `wcswidth` are external: the box
 * is handed the function that cuts a string into measured graphemes.
 */
module TextBoxes {
  import opened Wrappers
  import opened Cells
  import opened Strings
  import opened Regions
  import opened ContentBoxes

  /** A horizontal move: some units, or `-Infinity`/`+Infinity` (the start or the end of the line). */
  datatype Step = By(n: int) | ToStart | ToEnd

  /** The text being edited and the cursor in it. */
  datatype Doc = Doc(lines: seq<string>, offset: Point)

  /** The text is never empty, and the cursor is on one of its lines, at most at its end. */
  predicate Editable(d: Doc)
  {
    |d.lines| > 0 && 0 <= d.offset.y < |d.lines| && 0 <= d.offset.x <= |d.lines[d.offset.y]|
  }

  // ---------------------------------------------------------------------------
  // Edits and moves, as values

  /** `type(key)`: the key goes in at the cursor, which moves one unit on. */
  function Typed(d: Doc, key: string): (r: Doc)
    requires Editable(d)
    ensures key != "" ==> Editable(r)
    ensures |r.lines| == |d.lines| && r.offset == Point(d.offset.x + 1, d.offset.y)
    ensures forall i :: 0 <= i < |d.lines| && i != d.offset.y ==> r.lines[i] == d.lines[i]
    ensures |r.lines[d.offset.y]| == |d.lines[d.offset.y]| + |key|
    ensures var line, x := d.lines[d.offset.y], d.offset.x;
            r.lines[d.offset.y][..x] == line[..x] && r.lines[d.offset.y][x + |key|..] == line[x..]
            && r.lines[d.offset.y][x..x + |key|] == key
  {
    var line, x := d.lines[d.offset.y], d.offset.x;
    var typed := line[..x] + key + line[x..];
    assert typed[..x] == line[..x] && typed[x + |key|..] == line[x..] && typed[x..x + |key|] == key;
    Doc(d.lines[d.offset.y := typed], Point(x + 1, d.offset.y))
  }

  /**
   * `newline`: the line is split at the cursor, the part after it becoming a
   * new next line, and the cursor moves to the start of that line.
   */
  function NewLined(d: Doc): (r: Doc)
    requires Editable(d)
    ensures Editable(r)
    ensures |r.lines| == |d.lines| + 1 && r.offset == Point(0, d.offset.y + 1)
    ensures r.lines[d.offset.y] + r.lines[d.offset.y + 1] == d.lines[d.offset.y]
    ensures |r.lines[d.offset.y]| == d.offset.x
    ensures forall i :: 0 <= i < d.offset.y ==> r.lines[i] == d.lines[i]
    ensures forall i :: d.offset.y < i < |d.lines| ==> r.lines[i + 1] == d.lines[i]
  {
    var line, x, y := d.lines[d.offset.y], d.offset.x, d.offset.y;
    assert line[..x] + line[x..] == line;
    Doc(d.lines[..y] + [line[..x], line[x..]] + d.lines[y + 1..], Point(0, y + 1))
  }

  /** `_bsline`: the unit before the cursor is deleted and the cursor steps back over it. */
  function LineBackspaced(d: Doc): (r: Doc)
    requires Editable(d) && d.offset.x > 0
    ensures Editable(r)
    ensures |r.lines| == |d.lines| && r.offset == Point(d.offset.x - 1, d.offset.y)
    ensures forall i :: 0 <= i < |d.lines| && i != d.offset.y ==> r.lines[i] == d.lines[i]
    ensures var line, x := d.lines[d.offset.y], d.offset.x;
            r.lines[d.offset.y][..x - 1] + [line[x - 1]] + r.lines[d.offset.y][x - 1..] == line
  {
    var line, x := d.lines[d.offset.y], d.offset.x;
    var cut := line[..x - 1] + line[x..];
    assert cut[..x - 1] + [line[x - 1]] + cut[x - 1..] == line by {
      assert cut[..x - 1] == line[..x - 1] && cut[x - 1..] == line[x..];
      assert line[..x - 1] + [line[x - 1]] == line[..x];
    }
    Doc(d.lines[d.offset.y := cut], Point(x - 1, d.offset.y))
  }

  /**
   * `_bsjoin` as intended: the cursor's line is appended to the line before
   * it, and the cursor goes to the point where they were joined.
   */
  function Joined(d: Doc): (r: Doc)
    requires Editable(d) && d.offset.y > 0
    ensures Editable(r)
    ensures |r.lines| == |d.lines| - 1
    ensures r.offset == Point(|d.lines[d.offset.y - 1]|, d.offset.y - 1)
    ensures r.lines[d.offset.y - 1] == d.lines[d.offset.y - 1] + d.lines[d.offset.y]
    ensures forall i :: 0 <= i < d.offset.y - 1 ==> r.lines[i] == d.lines[i]
    ensures forall i :: d.offset.y < i < |d.lines| ==> r.lines[i - 1] == d.lines[i]
  {
    var y := d.offset.y;
    var prev, curr := d.lines[y - 1], d.lines[y];
    Doc(d.lines[..y - 1] + [prev + curr] + d.lines[y + 1..], Point(|prev|, y - 1))
  }

  /**
   * `_bsjoin` as the source writes it: the same join, but the cursor's column
   * is read back from the joined line, so it goes to the end of that line.
   */
  function JoinedAsWritten(d: Doc): (r: Doc)
    requires Editable(d) && d.offset.y > 0
    ensures Editable(r)
    ensures r.lines == Joined(d).lines
    ensures r.offset == Point(|d.lines[d.offset.y - 1] + d.lines[d.offset.y]|, d.offset.y - 1)
  {
    var y := d.offset.y;
    var lines := d.lines[..y - 1] + [d.lines[y - 1] + d.lines[y]] + d.lines[y + 1..];
    Doc(lines, Point(|lines[y - 1]|, y - 1))
  }

  /** `backspace`: delete within the line, join at the start of a line, nothing at the start of the text. */
  function Backspaced(d: Doc): (r: Doc)
    requires Editable(d)
    ensures Editable(r)
    ensures d.offset == Point(0, 0) ==> r == d
  {
    if d.offset.x != 0 then LineBackspaced(d)
    else if d.offset.y != 0 then Joined(d)
    else d
  }

  /**
   * `moveX(dir, wrap)`: a move before the start of the line (or
   * `-Infinity`) stops at the start without wrapping, and with wrapping goes
   * to the end of the line before, if any; a move past the end (or
   * `+Infinity`) likewise stops at the end or goes to the start of the next
   * line.
   */
  function MovedX(d: Doc, dir: Step, wrap: bool): (r: Doc)
    requires Editable(d)
    ensures Editable(r) && r.lines == d.lines
    ensures !wrap && dir.By? ==> r.offset == Point(Min(Max(d.offset.x + dir.n, 0), |d.lines[d.offset.y]|), d.offset.y)
    ensures !wrap && dir.ToStart? ==> r.offset == Point(0, d.offset.y)
    ensures !wrap && dir.ToEnd? ==> r.offset == Point(|d.lines[d.offset.y]|, d.offset.y)
    ensures wrap && dir == By(-1) && d.offset.x == 0 && d.offset.y == 0 ==> r == d
    ensures wrap && dir == By(1) && d.offset.x == |d.lines[d.offset.y]| && d.offset.y == |d.lines| - 1 ==> r == d
    ensures wrap && (dir.ToStart? || (dir.By? && d.offset.x + dir.n < 0)) && d.offset.y > 0 ==>
              r.offset == Point(|d.lines[d.offset.y - 1]|, d.offset.y - 1)
    ensures wrap && (dir.ToEnd? || (dir.By? && d.offset.x + dir.n > |d.lines[d.offset.y]|)) && d.offset.y < |d.lines| - 1 ==>
              r.offset == Point(0, d.offset.y + 1)
    ensures dir.By? && 0 <= d.offset.x + dir.n <= |d.lines[d.offset.y]| ==> r.offset == Point(d.offset.x + dir.n, d.offset.y)
  {
    var x, y, line := d.offset.x, d.offset.y, d.lines[d.offset.y];
    if dir.ToStart? || (dir.By? && x + dir.n < 0) then
      if !wrap then Doc(d.lines, Point(0, y))
      else if y > 0 then Doc(d.lines, Point(|d.lines[y - 1]|, y - 1))
      else d
    else if dir.ToEnd? || (dir.By? && x + dir.n > |line|) then
      if !wrap then Doc(d.lines, Point(|line|, y))
      else if y < |d.lines| - 1 then Doc(d.lines, Point(0, y + 1))
      else d
    else Doc(d.lines, Point(x + dir.n, y))
  }

  /**
   * `moveY(dir)`: the line moves by `dir`, kept within the text, and the
   * column is kept within the new line.
   */
  function MovedY(d: Doc, dir: int): (r: Doc)
    requires Editable(d)
    ensures Editable(r) && r.lines == d.lines
    ensures 0 <= d.offset.y + dir < |d.lines| ==> r.offset.y == d.offset.y + dir
    ensures d.offset.y + dir < 0 ==> r.offset.y == 0
    ensures d.offset.y + dir >= |d.lines| ==> r.offset.y == |d.lines| - 1
    ensures r.offset.x == Min(d.offset.x, |d.lines[r.offset.y]|)
  {
    var ny := d.offset.y + dir;
    var ny' := if ny < 0 then 0 else if ny >= |d.lines| then |d.lines| - 1 else ny;
    var nx := if d.offset.x > |d.lines[ny']| then |d.lines[ny']| else d.offset.x;
    Doc(d.lines, Point(nx, ny'))
  }

  // ---------------------------------------------------------------------------
  // Properties of the edits

  /** Typing a character and deleting it again restores the text and the cursor. */
  lemma TypeThenBackspace(d: Doc, c: char)
    requires Editable(d)
    ensures Backspaced(Typed(d, [c])) == d
  {
    var t := Typed(d, [c]);
    var r := LineBackspaced(t);
    var line, x, y := d.lines[d.offset.y], d.offset.x, d.offset.y;
    var typed := t.lines[y];
    assert typed == line[..x] + [c] + line[x..];
    assert typed[..x] + typed[x + 1..] == line by {
      assert typed[..x] == line[..x] && typed[x + 1..] == line[x..];
    }
    assert r.lines[y] == line;
    assert r.lines == d.lines;
  }

  /** Splitting a line and deleting the break again restores the text and the cursor. */
  lemma NewlineThenBackspace(d: Doc)
    requires Editable(d)
    ensures Backspaced(NewLined(d)) == d
  {
    var n := NewLined(d);
    var r := Joined(n);
    var y := d.offset.y;
    assert |r.lines| == |d.lines|;
    forall i | 0 <= i < |d.lines|
      ensures r.lines[i] == d.lines[i]
    {
      if i > y {
        assert r.lines[i] == n.lines[i + 1];
      }
    }
  }

  /**
   * The join as written: "ab" split after "a" and joined again by a
   * backspace leaves the cursor after "b", not after "a" where it was.
   */
  lemma NewlineThenBackspaceAsWritten()
    ensures var d := Doc(["ab"], Point(1, 0));
            NewLined(d) == Doc(["a", "b"], Point(0, 1))
            && JoinedAsWritten(NewLined(d)) == Doc(["ab"], Point(2, 0))
            && JoinedAsWritten(NewLined(d)) != d
  {
    var d := Doc(["ab"], Point(1, 0));
    assert "ab"[..1] == "a" && "ab"[1..] == "b" && ["ab"][..0] == [] && ["ab"][1..] == [];
    assert NewLined(d).lines == ["a", "b"];
    assert ["a", "b"][..0] == [] && ["a", "b"][2..] == [];
    assert "a" + "b" == "ab";
  }

  /** With wrapping, a step right and a step left come back, except at the very end of the text. */
  lemma RightThenLeft(d: Doc)
    requires Editable(d)
    requires !(d.offset.x == |d.lines[d.offset.y]| && d.offset.y == |d.lines| - 1)
    ensures MovedX(MovedX(d, By(1), true), By(-1), true) == d
  {
  }

  /** With wrapping, a step left and a step right come back, except at the very start of the text. */
  lemma LeftThenRight(d: Doc)
    requires Editable(d)
    requires !(d.offset.x == 0 && d.offset.y == 0)
    ensures MovedX(MovedX(d, By(-1), true), By(1), true) == d
  {
  }

  // ---------------------------------------------------------------------------
  // The view (`_redo`)

  /**
   * `_redo`'s move of the corner along one axis: back to the cursor when the
   * cursor is before the view, forward until the cursor is on the last row or
   * column when it is past it, and not at all otherwise.
   */
  function Follow(off: int, corner: int, size: int): (c: int)
    ensures size >= 1 ==> 0 <= off - c < size
    ensures 0 <= off - corner < size ==> c == corner
    ensures 0 <= off && 0 <= corner && 0 <= size ==> 0 <= c
  {
    if off < corner then off
    else if off >= corner + size then off - size + 1
    else corner
  }

  /** No corner that keeps the cursor in view is nearer the old corner than the one `_redo` picks. */
  lemma FollowMinimal(off: int, corner: int, size: int, other: int)
    requires 0 <= off - other < size
    ensures Abs(other - corner) >= Abs(Follow(off, corner, size) - corner)
  {
  }

  /** The text `_redo` draws: the lines from the corner's, each cut to the `w` units from the corner's column. */
  function Visible(lines: seq<string>, corner: Point, w: nat): (vs: seq<string>)
    requires 0 <= corner.x && 0 <= corner.y
    ensures |vs| == Max(|lines| - corner.y, 0)
    ensures forall i :: 0 <= i < |vs| ==> vs[i] == Slice(lines[corner.y + i], corner.x, corner.x + w)
  {
    var n := Max(|lines| - corner.y, 0);
    var vs := seq(n, i requires 0 <= i < n => VisibleLine(lines, corner, w, i));
    assert forall i :: 0 <= i < n ==> vs[i] == VisibleLine(lines, corner, w, i);
    vs
  }

  function VisibleLine(lines: seq<string>, corner: Point, w: nat, i: int): string
    requires 0 <= corner.x && 0 <= corner.y && 0 <= i < |lines| - corner.y
  {
    Slice(lines[corner.y + i], corner.x, corner.x + w)
  }

  /** Lines beyond the box's height change nothing it shows. */
  lemma ContentViewClipped(lines: seq<string>, n: nat, segment: string -> seq<Grapheme>, fmt: Format, w: nat, h: nat)
    requires h <= n <= |lines|
    ensures ContentView(lines[..n], segment, fmt, w, h) == ContentView(lines, segment, fmt, w, h)
  {
    var a, b := ContentView(lines[..n], segment, fmt, w, h), ContentView(lines, segment, fmt, w, h);
    forall y | 0 <= y < h
      ensures a[y] == b[y]
    {
      assert lines[..n][y] == lines[y];
    }
  }

  class SimpleTextBox {
    const grid: Region
    /** `forEachGrapheme` with `wcswidth`: a string cut into measured graphemes. */
    const segment: string -> seq<Grapheme>
    /** `stb_lines`. */
    var lines: seq<string>
    /** `stb_offset`: the cursor in the text. */
    var offset: Point
    /** `stb_corner`: the first line and column shown. */
    var corner: Point

    /** The text and cursor are editable and the corner is inside the text's plane. */
    ghost predicate Valid()
      reads this, grid
    {
      grid.Valid() && Editable(Doc(lines, offset)) && 0 <= corner.x && 0 <= corner.y
    }

    /**
     * The grid shows the text from the corner and, in a box of at least one
     * cell, the cursor is inside it.
     */
    ghost predicate Shown()
      reads this, grid
    {
      && Valid()
      && grid.rows == ContentView(Visible(lines, corner, grid.width), segment, Plain, grid.width, grid.height)
      && (grid.width >= 1 && grid.height >= 1 ==>
            0 <= offset.x - corner.x < grid.width && 0 <= offset.y - corner.y < grid.height)
    }

    /** `new SimpleTextBox(opts)`: one empty line, the cursor and the corner at the origin; nothing drawn yet. */
    constructor (w: nat, h: nat, segment: string -> seq<Grapheme>)
      ensures Valid() && fresh(grid)
      ensures lines == [""] && offset == Point(0, 0) && corner == Point(0, 0) && this.segment == segment
      ensures grid.width == (if w == 0 then 1 else w) && grid.height == (if h == 0 then 1 else h)
      ensures grid.rows == BlankGrid(grid.width, grid.height)
    {
      grid := new Region(w, h);
      this.segment := segment;
      lines := [""];
      offset := Point(0, 0);
      corner := Point(0, 0);
    }

    /**
     * `_redo`: clear the grid, move the corner just far enough to bring the
     * cursor into view, then draw each line from the corner's until the box
     * or the text ends.
     */
    method Redo()
      requires Valid()
      modifies this`corner, grid`rows
      ensures Shown()
      ensures corner == Point(Follow(offset.x, old(corner).x, grid.width), Follow(offset.y, old(corner).y, grid.height))
    {
      grid.Clear();
      MoveCorner();
      DrawLines();
    }

    /** The first half of `_redo`: the corner follows the cursor, one axis at a time. */
    method MoveCorner()
      requires Valid()
      modifies this`corner
      ensures Valid()
      ensures corner == Point(Follow(offset.x, old(corner).x, grid.width), Follow(offset.y, old(corner).y, grid.height))
    {
      var cx, cy := corner.x, corner.y;
      if offset.y < cy {
        // Moved above the visible region.
        cy := offset.y;
      } else if offset.y >= cy + grid.height {
        // Moved below the visible region.
        cy := offset.y - grid.height + 1;
      }
      if offset.x < cx {
        // Moved left of the visible region.
        cx := offset.x;
      } else if offset.x >= cx + grid.width {
        // Moved right of the visible region.
        cx := offset.x - grid.width + 1;
      }
      corner := Point(cx, cy);
    }

    /** The second half of `_redo`: on a cleared grid, each line from the corner's, cut to the box. */
    method DrawLines()
      requires Valid() && grid.rows == BlankGrid(grid.width, grid.height)
      requires grid.width >= 1 && grid.height >= 1 ==>
                 0 <= offset.x - corner.x < grid.width && 0 <= offset.y - corner.y < grid.height
      modifies grid`rows
      ensures Shown()
    {
      var width, height := grid.width, grid.height;
      ghost var vis := Visible(lines, corner, width);
      ContentViewEmpty(segment, Plain, width, height);
      var i := 0;
      while i < height
        invariant 0 <= i <= height && i <= |vis| && grid.Valid()
        invariant grid.rows == ContentView(vis[..i], segment, Plain, width, height)
      {
        if corner.y + i >= |lines| {
          break;
        }
        var txt := Slice(lines[corner.y + i], corner.x, corner.x + width);
        ContentViewStep(vis, i, segment, Plain, width, height);
        assert vis[..i + 1][i] == txt;
        var _ := grid.Str(0, i, segment(txt), Plain);
        i := i + 1;
      }
      if i == |vis| {
        assert vis[..i] == vis;
      } else {
        assert i == height;
        ContentViewClipped(vis, i, segment, Plain, width, height);
      }
    }

    /** `type(key)`: insert the key at the cursor and redraw. */
    method Type(key: string)
      requires Valid() && key != ""
      modifies this`lines, this`offset, this`corner, grid`rows
      ensures Shown()
      ensures Doc(lines, offset) == Typed(old(Doc(lines, offset)), key)
    {
      var line := lines[offset.y];
      var left, right := line[..offset.x], line[offset.x..];
      lines := lines[offset.y := left + key + right];
      offset := offset.(x := offset.x + 1);
      Redo();
    }

    /** `newline`: split the line at the cursor, move to the new line and redraw. */
    method Newline()
      requires Valid()
      modifies this`lines, this`offset, this`corner, grid`rows
      ensures Shown()
      ensures Doc(lines, offset) == NewLined(old(Doc(lines, offset)))
    {
      var y := offset.y;
      var line := lines[y];
      var a, b := line[..offset.x], line[offset.x..];
      lines := lines[y := a];
      lines := lines[..y + 1] + [b] + lines[y + 1..];
      offset := Point(0, y + 1);
      assert lines == old(lines)[..y] + [a, b] + old(lines)[y + 1..];
      Redo();
    }

    /** `_bsline`: delete the unit before the cursor. */
    method BsLine()
      requires Valid() && offset.x > 0
      modifies this`lines, this`offset
      ensures Valid()
      ensures Doc(lines, offset) == LineBackspaced(old(Doc(lines, offset)))
    {
      var line := lines[offset.y];
      var a, b := line[..offset.x - 1], line[offset.x..];
      lines := lines[offset.y := a + b];
      offset := offset.(x := offset.x - 1);
    }

    /** `_bsjoin`: join the cursor's line onto the one before it (cursor at the join; see `Joined`). */
    method BsJoin()
      requires Valid() && offset.y > 0
      modifies this`lines, this`offset
      ensures Valid()
      ensures Doc(lines, offset) == Joined(old(Doc(lines, offset)))
    {
      var y := offset.y;
      var prevl, currl := lines[y - 1], lines[y];
      lines := lines[..y - 1] + [prevl + currl] + lines[y + 1..];
      offset := Point(|prevl|, y - 1);
    }

    /** `backspace`: delete before the cursor (nothing at the start of the text) and redraw. */
    method Backspace()
      requires Valid()
      modifies this`lines, this`offset, this`corner, grid`rows
      ensures Shown()
      ensures Doc(lines, offset) == Backspaced(old(Doc(lines, offset)))
    {
      if offset.x != 0 {
        BsLine();
      } else if offset.y != 0 {
        BsJoin();
      }
      Redo();
    }

    /** `moveX(dir, wrap)`: move the cursor along the line, or across lines with `wrap`, and redraw. */
    method MoveX(dir: Step, wrap: bool)
      requires Valid()
      modifies this`offset, this`corner, grid`rows
      ensures Shown() && lines == old(lines)
      ensures Doc(lines, offset) == MovedX(old(Doc(lines, offset)), dir, wrap)
    {
      var x, y := offset.x, offset.y;
      var noff := offset;
      if dir.ToStart? || (dir.By? && x + dir.n < 0) {
        if !wrap {
          noff := Point(0, y);
        } else if y > 0 {
          // At the start of a line: to the end of the one before.
          noff := Point(|lines[y - 1]|, y - 1);
        }
      } else if dir.ToEnd? || (dir.By? && x + dir.n > |lines[y]|) {
        if !wrap {
          noff := Point(|lines[y]|, y);
        } else if y < |lines| - 1 {
          // At the end of a line: to the start of the next.
          noff := Point(0, y + 1);
        }
      } else {
        noff := Point(x + dir.n, y);
      }
      offset := noff;
      Redo();
    }

    /** `moveY(dir)`: move the cursor by `dir` lines, kept within the text and the new line, and redraw. */
    method MoveY(dir: int)
      requires Valid()
      modifies this`offset, this`corner, grid`rows
      ensures Shown() && lines == old(lines)
      ensures Doc(lines, offset) == MovedY(old(Doc(lines, offset)), dir)
    {
      var nx, ny := offset.x, offset.y + dir;
      if ny < 0 {
        ny := 0;
      } else if ny >= |lines| {
        ny := |lines| - 1;
      }
      if nx > |lines[ny]| {
        nx := |lines[ny]|;
      }
      offset := Point(nx, ny);
      Redo();
    }

    /** `get_cursor()`: the cursor relative to the corner, inside the box once it is shown. */
    function GetCursor(): (p: Point)
      reads this, grid
      ensures Shown() && grid.width >= 1 && grid.height >= 1 ==>
                0 <= p.x < grid.width && 0 <= p.y < grid.height
      ensures p.x + corner.x == offset.x && p.y + corner.y == offset.y
    {
      Point(offset.x - corner.x, offset.y - corner.y)
    }

    /** `resize(w, h)`: when the size changes the 'resize' handler redraws the box. */
    method Resize(w: nat, h: nat) returns (changed: bool)
      requires Valid()
      modifies grid, this`corner
      ensures Valid() && grid.width == w && grid.height == h
      ensures changed <==> (w != old(grid.width) || h != old(grid.height))
      ensures lines == old(lines) && offset == old(offset)
      ensures changed ==> Shown()
      ensures !changed ==> corner == old(corner) && grid.rows == old(grid.rows) && grid.hints == old(grid.hints)
    {
      changed := grid.Resize(w, h);
      if changed {
        Redo();
      }
    }
  }
}
