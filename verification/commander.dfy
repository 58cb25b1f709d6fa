/**
 * FolderPanel (examples/commander.js): one pane of a two-pane file browser.
 * It lists a directory's entries, `..` first, keeps the selected one in view
 * and shows it in inverse video while the pane has the focus.
 *
 * The panel is a Region in the source; here it owns its `grid` Region.  The
 * file system (`readdirSync`, `lstatSync`, `path.join`) is external and is
 * handed to the panel as functions; so is grapheme segmentation.
 */
module Commander {
  import opened Cells
  import opened Strings
  import opened Regions
  import TextBoxes
  import ContentBoxes

  /** `FolderEntry`: a name in a directory, its joined path, and whether `lstat` found a directory there. */
  datatype Entry = Entry(name: string, path: string, isDir: bool)

  /** The file system calls the panel makes: list a directory, test a path, join a path and a name. */
  datatype FileSystem = FileSystem(
    readdir: string -> seq<string>,
    isDir: string -> bool,
    join: (string, string) -> string)

  /** `new FolderEntry(dir, name)`. */
  function EntryOf(fs: FileSystem, dir: string, name: string): (e: Entry)
    ensures e.name == name && e.path == fs.join(dir, name) && e.isDir == fs.isDir(e.path)
  {
    var path := fs.join(dir, name);
    Entry(name, path, fs.isDir(path))
  }

  /** `_open(dir)`: the entry for `..`, then one entry per name the directory lists, in its order. */
  function Opened(fs: FileSystem, dir: string): (es: seq<Entry>)
    ensures |es| == |fs.readdir(dir)| + 1
    ensures es[0].name == ".."
    ensures forall i :: 0 <= i < |fs.readdir(dir)| ==> es[i + 1].name == fs.readdir(dir)[i]
    ensures forall i :: 0 <= i < |es| ==> es[i] == EntryOf(fs, dir, es[i].name)
  {
    var names := fs.readdir(dir);
    var es := [EntryOf(fs, dir, "..")] + seq(|names|, i requires 0 <= i < |names| => EntryOf(fs, dir, names[i]));
    assert forall i :: 0 <= i < |names| ==> es[i + 1] == EntryOf(fs, dir, names[i]);
    es
  }

  // ---------------------------------------------------------------------------
  // Moving the selection

  /**
   * JavaScript's `a % b` for `b > 0`: the remainder of the division that
   * truncates toward zero, so it takes the sign of `a`.
   */
  function JsRem(a: int, b: int): (r: int)
    requires b > 0
    ensures -b < r < b
    ensures a >= 0 ==> r == a % b
    ensures a <= 0 ==> r <= 0
  {
    if a >= 0 then a % b else -((-a) % b)
  }

  /** Unlike `%` on the mathematical integers, the JavaScript remainder is symmetric about zero. */
  lemma JsRemSymmetric(a: int, b: int)
    requires b > 0
    ensures JsRem(-a, b) == -JsRem(a, b)
  {
  }

  /** The remainder of a dividend below twice the divisor. */
  lemma ModInRange(x: int, b: int)
    requires b > 0 && 0 <= x < 2 * b
    ensures x % b == if x < b then x else x - b
  {
    if x >= b {
      assert x == b * 1 + (x - b);
    }
  }

  lemma ModTwice(b: int)
    requires b > 0
    ensures (b + b) % b == 0
  {
    assert b + b == b * 2 + 0;
  }

  /**
   * `move(offset, wrap)` on an `sz`-entry list: with `wrap` the selection is
   * `(sz + selected + offset) % sz`; without it the selection is clamped to
   * the first or the last entry.
   */
  function Moved(selected: int, offset: int, sz: int, wrap: bool): (r: int)
    requires sz > 0 && 0 <= selected < sz
    ensures wrap && sz + selected + offset >= 0 ==> 0 <= r < sz && r == (sz + selected + offset) % sz
    ensures wrap && sz + selected + offset < 0 ==> -sz < r <= 0
    ensures !wrap ==> r == Min(Max(selected + offset, 0), sz - 1)
  {
    var n := selected + offset;
    if wrap then JsRem(sz + n, sz)
    else if n < 0 then 0
    else if n >= sz then sz - 1
    else n
  }

  /** With wrapping, a step down and a step up select the same entry again, also across the ends. */
  lemma {:induction false} DownThenUp(selected: int, sz: int)
    requires sz > 0 && 0 <= selected < sz
    ensures Moved(Moved(selected, 1, sz, true), -1, sz, true) == selected
  {
    if selected == sz - 1 {
      ModTwice(sz);
    } else {
      ModInRange(sz + selected + 1, sz);
    }
    var d := Moved(selected, 1, sz, true);
    ModInRange(sz + d - 1, sz);
  }

  /** With wrapping, a step up from the first entry selects the last, and a step down from the last the first. */
  lemma WrapsAtEnds(sz: int)
    requires sz > 0
    ensures Moved(0, -1, sz, true) == sz - 1
    ensures Moved(sz - 1, 1, sz, true) == 0
  {
    ModInRange(sz - 1, sz);
    ModTwice(sz);
  }

  // ---------------------------------------------------------------------------
  // The view (`_redo`)

  /** The format `_redo` writes an entry with: inverse exactly for the selected entry of a focused panel. */
  function RowFormat(focused: bool, idx: int, selected: int): (fmt: Format)
    ensures !fmt.bold && !fmt.reverse
    ensures fmt.inverse <==> focused && idx == selected
  {
    Format(false, focused && idx == selected, false)
  }

  /** Row `y` of the panel: the entry `viewtop + y` if there is one, else blank. */
  function EntryRow(entries: seq<Entry>, viewtop: nat, selected: int, focused: bool,
                    segment: string -> seq<Grapheme>, w: nat, y: nat): (r: seq<Cell>)
    ensures |r| == w
    ensures |entries| <= viewtop + y ==> r == BlankRow(w)
  {
    if viewtop + y < |entries| then
      LineRow(entries[viewtop + y].name, segment, RowFormat(focused, viewtop + y, selected), w)
    else BlankRow(w)
  }

  /** The panel after `_redo` has drawn its first `n` rows over the cleared grid. */
  function Drawn(entries: seq<Entry>, viewtop: nat, selected: int, focused: bool,
                 segment: string -> seq<Grapheme>, w: nat, h: nat, n: nat): (g: seq<seq<Cell>>)
    ensures |g| == h && IsGrid(g, w)
    ensures forall y :: 0 <= y < h && n <= y ==> g[y] == BlankRow(w)
    ensures forall y :: 0 <= y < h && y < n ==> g[y] == EntryRow(entries, viewtop, selected, focused, segment, w, y)
  {
    var g := seq(h, y requires 0 <= y < h => DrawnRow(entries, viewtop, selected, focused, segment, w, n, y));
    assert forall y :: 0 <= y < h ==> g[y] == DrawnRow(entries, viewtop, selected, focused, segment, w, n, y);
    g
  }

  function DrawnRow(entries: seq<Entry>, viewtop: nat, selected: int, focused: bool,
                    segment: string -> seq<Grapheme>, w: nat, n: nat, y: nat): seq<Cell>
  {
    if y < n then EntryRow(entries, viewtop, selected, focused, segment, w, y) else BlankRow(w)
  }

  /** The whole panel: every row drawn. */
  function PanelView(entries: seq<Entry>, viewtop: nat, selected: int, focused: bool,
                     segment: string -> seq<Grapheme>, w: nat, h: nat): (g: seq<seq<Cell>>)
    ensures |g| == h && IsGrid(g, w)
  {
    Drawn(entries, viewtop, selected, focused, segment, w, h, h)
  }

  /** Before any row is drawn the panel is the cleared grid. */
  lemma DrawnNone(entries: seq<Entry>, viewtop: nat, selected: int, focused: bool,
                  segment: string -> seq<Grapheme>, w: nat, h: nat)
    ensures Drawn(entries, viewtop, selected, focused, segment, w, h, 0) == BlankGrid(w, h)
  {
    var a, b := Drawn(entries, viewtop, selected, focused, segment, w, h, 0), BlankGrid(w, h);
    assert forall y :: 0 <= y < h ==> a[y] == b[y];
  }

  /** Drawing row `n` adds that row and nothing else. */
  lemma DrawnStep(entries: seq<Entry>, viewtop: nat, selected: int, focused: bool,
                  segment: string -> seq<Grapheme>, w: nat, h: nat, n: nat)
    requires n < h
    ensures Drawn(entries, viewtop, selected, focused, segment, w, h, n + 1)
         == Drawn(entries, viewtop, selected, focused, segment, w, h, n)[n := EntryRow(entries, viewtop, selected, focused, segment, w, n)]
  {
    var a := Drawn(entries, viewtop, selected, focused, segment, w, h, n + 1);
    var b := Drawn(entries, viewtop, selected, focused, segment, w, h, n)[n := EntryRow(entries, viewtop, selected, focused, segment, w, n)];
    assert forall y :: 0 <= y < h ==> a[y] == b[y];
  }

  /** Stopping at the end of the entries leaves the panel as if every row had been drawn. */
  lemma DrawnPastEnd(entries: seq<Entry>, viewtop: nat, selected: int, focused: bool,
                     segment: string -> seq<Grapheme>, w: nat, h: nat, n: nat)
    requires n <= h && |entries| <= viewtop + n
    ensures Drawn(entries, viewtop, selected, focused, segment, w, h, n) == PanelView(entries, viewtop, selected, focused, segment, w, h)
  {
    var a, b := Drawn(entries, viewtop, selected, focused, segment, w, h, n), PanelView(entries, viewtop, selected, focused, segment, w, h);
    assert forall y :: 0 <= y < h ==> a[y] == b[y];
  }

  /**
   * A row's cells are inverse exactly when the panel has the focus and the
   * row shows the selected entry (for names of one-column graphemes; cells
   * the name covers).
   */
  lemma RowInverse(entries: seq<Entry>, viewtop: nat, selected: int, focused: bool,
                   segment: string -> seq<Grapheme>, w: nat, h: nat, y: nat, k: nat)
    requires y < h && viewtop + y < |entries|
    requires AllNarrow(segment(entries[viewtop + y].name)) && k < w && k < |segment(entries[viewtop + y].name)|
    ensures var c := PanelView(entries, viewtop, selected, focused, segment, w, h)[y][k];
            (c.attr & ATTR_INVERSE != 0) <==> focused && viewtop + y == selected
  {
    var name := entries[viewtop + y].name;
    var fmt := RowFormat(focused, viewtop + y, selected);
    ContentBoxes.LineRowNarrow(name, segment, fmt, w);
    var gs := segment(name);
    assert PanelView(entries, viewtop, selected, focused, segment, w, h)[y][k] == Written(gs[k].text, gs[k].width, fmt);
  }

  /** Rows past the last entry stay cleared. */
  lemma RowsPastEntries(entries: seq<Entry>, viewtop: nat, selected: int, focused: bool,
                        segment: string -> seq<Grapheme>, w: nat, h: nat, y: nat)
    requires y < h && |entries| <= viewtop + y
    ensures PanelView(entries, viewtop, selected, focused, segment, w, h)[y] == BlankRow(w)
  {
  }

  class FolderPanel {
    const grid: Region
    const fs: FileSystem
    /** `forEachGrapheme` with `wcswidth`: a name cut into measured graphemes. */
    const segment: string -> seq<Grapheme>
    /** `fp_cwd`: the directory listed. */
    var cwd: string
    /** `fp_focused`. */
    var focused: bool
    /** `fp_selected`: the index of the selected entry. */
    var selected: int
    /** `fp_viewtop`: the index of the entry on the top row. */
    var viewtop: int
    /** `fp_entries`: `..` and the directory's entries. */
    var entries: seq<Entry>

    /** The entries start with `..`, so they are never empty, and the selection is one of them. */
    ghost predicate Valid()
      reads this, grid
    {
      grid.Valid() && |entries| > 0 && entries[0].name == ".." && 0 <= selected < |entries| && 0 <= viewtop
    }

    /** The grid shows the entries from `viewtop`, and the selected one is on a row of the panel. */
    ghost predicate Shown()
      reads this, grid
    {
      && Valid()
      && grid.rows == PanelView(entries, viewtop, selected, focused, segment, grid.width, grid.height)
      && (grid.height >= 1 ==> viewtop <= selected < viewtop + grid.height)
    }

    /** `new FolderPanel(opts)`: the listing of the working directory, the first entry selected; nothing drawn yet. */
    constructor (w: nat, h: nat, focused: bool, cwd: string, fs: FileSystem, segment: string -> seq<Grapheme>)
      ensures Valid() && fresh(grid)
      ensures this.cwd == cwd && this.focused == focused && this.fs == fs && this.segment == segment
      ensures entries == Opened(fs, cwd) && selected == 0 && viewtop == 0
      ensures grid.width == (if w == 0 then 1 else w) && grid.height == (if h == 0 then 1 else h)
      ensures grid.rows == BlankGrid(grid.width, grid.height)
    {
      this.cwd := cwd;
      this.focused := focused;
      this.fs := fs;
      this.segment := segment;
      selected := 0;
      viewtop := 0;
      entries := Opened(fs, cwd);
      grid := new Region(w, h);
    }

    /**
     * `_redo`: clear the grid, move `viewtop` just far enough to bring the
     * selection into view, then draw the entries from it until the panel or
     * the entries end.
     */
    method Redo()
      requires Valid()
      modifies this`viewtop, grid`rows
      ensures Shown()
      ensures viewtop == TextBoxes.Follow(selected, old(viewtop), grid.height)
    {
      grid.Clear();
      if selected < viewtop {
        viewtop := selected;
      } else if selected >= viewtop + grid.height {
        viewtop := selected - grid.height + 1;
      }
      DrawEntries();
    }

    /** The drawing half of `_redo`, on the cleared grid. */
    method DrawEntries()
      requires Valid() && grid.rows == BlankGrid(grid.width, grid.height)
      requires grid.height >= 1 ==> viewtop <= selected < viewtop + grid.height
      modifies grid`rows
      ensures Shown()
    {
      var height := grid.height;
      DrawnNone(entries, viewtop, selected, focused, segment, grid.width, height);
      var i := 0;
      while i < height
        invariant 0 <= i <= height && grid.Valid()
        invariant grid.rows == Drawn(entries, viewtop, selected, focused, segment, grid.width, height, i)
      {
        var idx := viewtop + i;
        if idx >= |entries| {
          break;
        }
        DrawnStep(entries, viewtop, selected, focused, segment, grid.width, height, i);
        var _ := grid.Str(0, i, segment(entries[idx].name), RowFormat(focused, idx, selected));
        i := i + 1;
      }
      if i < height {
        DrawnPastEnd(entries, viewtop, selected, focused, segment, grid.width, height, i);
      }
    }

    /** `open()`: enter the selected entry if it is a directory, selecting its first entry; otherwise nothing. */
    method Open()
      requires Valid()
      modifies this`cwd, this`entries, this`selected, this`viewtop, grid`rows
      ensures Valid() && focused == old(focused)
      ensures !old(entries[selected].isDir) ==>
                cwd == old(cwd) && entries == old(entries) && selected == old(selected)
                && viewtop == old(viewtop) && grid.rows == old(grid.rows)
      ensures old(entries[selected].isDir) ==>
                cwd == old(entries[selected].path) && entries == Opened(fs, cwd) && selected == 0 && Shown()
    {
      var nwd := entries[selected];
      if !nwd.isDir {
        return;
      }
      cwd := nwd.path;
      entries := Opened(fs, cwd);
      selected := 0;
      Redo();
    }

    /** `moveto(pos)`: 'top' selects the first entry, 'bottom' the last; any other position is an error (the source throws). */
    method MoveTo(pos: string) returns (ok: bool)
      requires Valid()
      modifies this`selected, this`viewtop, grid`rows
      ensures Valid() && entries == old(entries) && focused == old(focused)
      ensures ok <==> pos == "top" || pos == "bottom"
      ensures ok ==> Shown()
      ensures ok && pos == "top" ==> selected == 0
      ensures ok && pos == "bottom" ==> selected == |entries| - 1
      ensures !ok ==> selected == old(selected) && viewtop == old(viewtop) && grid.rows == old(grid.rows)
    {
      if pos == "top" {
        selected := 0;
      } else if pos == "bottom" {
        selected := |entries| - 1;
      } else {
        return false;
      }
      Redo();
      ok := true;
    }

    /** `move(offset, wrap)`: move the selection, around the ends with `wrap` or stopping at them, and redraw. */
    method Move(offset: int, wrap: bool)
      requires Valid()
      requires wrap ==> |entries| + selected + offset >= 0
      modifies this`selected, this`viewtop, grid`rows
      ensures Shown() && entries == old(entries) && focused == old(focused)
      ensures selected == Moved(old(selected), offset, |entries|, wrap)
    {
      var sz := |entries|;
      var n := selected + offset;
      if wrap {
        selected := JsRem(sz + n, sz);
      } else if n < 0 {
        selected := 0;
      } else if n >= sz {
        selected := sz - 1;
      } else {
        selected := n;
      }
      Redo();
    }

    /** `cwd()`. */
    function Cwd(): (d: string)
      reads this
      ensures d == cwd
    {
      cwd
    }

    /** `focused(f)`: take or give up the focus, which shows or hides the selection, and redraw. */
    method Focused(f: bool)
      requires Valid()
      modifies this`focused, this`viewtop, grid`rows
      ensures Shown() && focused == f && selected == old(selected) && entries == old(entries)
    {
      focused := f;
      Redo();
    }

    /** `resize(w, h)`: when the size changes the 'resize' handler redraws the panel. */
    method Resize(w: nat, h: nat) returns (changed: bool)
      requires Valid()
      modifies grid, this`viewtop
      ensures Valid() && grid.width == w && grid.height == h
      ensures changed <==> (w != old(grid.width) || h != old(grid.height))
      ensures entries == old(entries) && selected == old(selected) && focused == old(focused)
      ensures changed ==> Shown()
      ensures !changed ==> viewtop == old(viewtop) && grid.rows == old(grid.rows) && grid.hints == old(grid.hints)
    {
      changed := grid.Resize(w, h);
      if changed {
        Redo();
      }
    }
  }
}
