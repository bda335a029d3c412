/**
 * What one paint pass of TerminalView.onDraw draws, stated on values.
 *
 * The canvas is replaced by the list of drawing commands the pass issues.
 * Each run is drawn between a `save`, a `clipRect` to the run's cells and a
 * `restore`: a `Fill` stands for the `drawPaint` of its background (and of
 * the cursor overlay) under that clip, a `Text` for the `drawText` of its
 * characters under the same clip. `Screen` is a snapshot of the cell buffer the pass
 * reads; `PaintFrame` is the command list of a whole pass on that snapshot.
 */
module GridRenderer {
  import opened Attributes
  import opened RunBatching

  /** A pixel rectangle [left, right) x [top, bottom). */
  datatype Rect = Rect(left: int, top: int, right: int, bottom: int)

  /** Drawing under the clip rectangle `clip`; `Text` places its baseline start at (x, y). */
  datatype DrawCmd =
    | Fill(clip: Rect, color: int)
    | Text(clip: Rect, chars: seq<char>, x: int, y: int, color: int)

  /** Cell width and height in pixels and the baseline offset `charTop` (negative above the baseline). */
  datatype Cells = Cells(charWidth: int, charHeight: int, charTop: int)

  /** Colour of the cursor overlay: white at a quarter opacity (ARGB). */
  const CursorOverlay: int := 0x3FFF_FFFF

  /**
   * The part of the cell buffer a paint pass reads: the dirty flags
   * (`update[0]` for the whole screen, `update[y + 1]` for row `y`), the
   * attribute and character rows, the window offset, the screen size and
   * the cursor cell.
   */
  datatype Screen = Screen(
    update: seq<bool>,
    attrs: seq<seq<bv32>>,
    chars: seq<seq<char>>,
    windowBase: nat,
    width: nat,
    height: nat,
    cursorColumn: int,
    cursorRow: int)

  /** The flags cover every visible row and every visible row holds `width` cells. */
  predicate WellFormed(s: Screen)
  {
    |s.update| >= s.height + 1 &&
    s.windowBase + s.height <= |s.attrs| &&
    s.windowBase + s.height <= |s.chars| &&
    forall r :: s.windowBase <= r < s.windowBase + s.height ==> s.width <= |s.attrs[r]| && s.width <= |s.chars[r]|
  }

  /** Attributes of visible row `y`. */
  function RowAttrs(s: Screen, y: nat): seq<bv32>
    requires WellFormed(s) && y < s.height
  {
    s.attrs[s.windowBase + y]
  }

  /** Characters of visible row `y`. */
  function RowChars(s: Screen, y: nat): seq<char>
    requires WellFormed(s) && y < s.height
  {
    s.chars[s.windowBase + y]
  }

  /** The whole-screen flag and the view's forced redraw, sampled once per pass. */
  predicate EntireDirty(s: Screen, fullRedraw: bool)
    requires |s.update| >= 1
  {
    s.update[0] || fullRedraw
  }

  /** Row `y` is repainted in a pass whose whole-screen sample is `entire`. */
  predicate Repainted(s: Screen, entire: bool, y: nat)
    requires y < s.height && |s.update| >= s.height + 1
  {
    s.update[y + 1] || entire
  }

  /** Every attribute of the row's first `width` cells decodes inside the palette. */
  predicate RowDecodable(attrs: seq<bv32>, width: nat, l: Layout, palette: seq<int>)
  {
    width <= |attrs| && forall k :: 0 <= k < width ==> Decodable(attrs[k], l, palette)
  }

  /** A pass can run to its end: the buffer is well formed and every repainted row decodes. */
  predicate Paintable(s: Screen, entire: bool, l: Layout, palette: seq<int>)
  {
    WellFormed(s) &&
    forall y: nat :: y < s.height && Repainted(s, entire, y) ==> RowDecodable(RowAttrs(s, y), s.width, l, palette)
  }

  /** The runs can be drawn: each is inside both rows and its first attribute decodes. */
  predicate Drawable(attrs: seq<bv32>, chars: seq<char>, runs: seq<Run>, l: Layout, palette: seq<int>)
  {
    forall i :: 0 <= i < |runs| ==>
      runs[i].len >= 1 && End(runs[i]) <= |attrs| && End(runs[i]) <= |chars| &&
      Decodable(attrs[runs[i].start], l, palette)
  }

  /** The background fill and the text draw of one run on row `y`. */
  function RunCommands(attrs: seq<bv32>, chars: seq<char>, y: int, r: Run, g: Cells, l: Layout, palette: seq<int>): seq<DrawCmd>
    requires r.len >= 1 && End(r) <= |attrs| && End(r) <= |chars| && Decodable(attrs[r.start], l, palette)
  {
    var c := DecodeColors(attrs[r.start], l, palette);
    var clip := Rect(r.start * g.charWidth, y * g.charHeight, End(r) * g.charWidth, (y + 1) * g.charHeight);
    [ Fill(clip, c.bg), Text(clip, chars[r.start..End(r)], r.start * g.charWidth, y * g.charHeight - g.charTop, c.fg) ]
  }

  /** The commands of a list of runs, in order. */
  function RunsCommands(attrs: seq<bv32>, chars: seq<char>, y: int, runs: seq<Run>, g: Cells, l: Layout, palette: seq<int>): seq<DrawCmd>
    requires Drawable(attrs, chars, runs, l, palette)
    decreases |runs|
  {
    if runs == [] then []
    else
      RunCommands(attrs, chars, y, runs[0], g, l, palette) + RunsCommands(attrs, chars, y, runs[1..], g, l, palette)
  }

  /** The scan's runs from column `x` can be drawn when the row decodes. */
  lemma RunsDrawable(attrs: seq<bv32>, chars: seq<char>, x: nat, width: nat, l: Layout, palette: seq<int>)
    requires x <= width && RowDecodable(attrs, width, l, palette) && width <= |chars|
    ensures Drawable(attrs, chars, Runs(attrs, x, width), l, palette)
  {
  }

  /** The commands of a repainted row `y`: its runs from column `x` on. */
  function RowCommandsFrom(attrs: seq<bv32>, chars: seq<char>, y: int, x: nat, width: nat, g: Cells, l: Layout, palette: seq<int>): seq<DrawCmd>
    requires x <= width && RowDecodable(attrs, width, l, palette) && width <= |chars|
  {
    RunsDrawable(attrs, chars, x, width, l, palette);
    RunsCommands(attrs, chars, y, Runs(attrs, x, width), g, l, palette)
  }

  /** The column scan's step: the run at column `x`, drawn, then the scan from the run's end. */
  lemma RowCommandsStep(attrs: seq<bv32>, chars: seq<char>, y: int, x: nat, width: nat, g: Cells, l: Layout, palette: seq<int>)
    requires x < width && RowDecodable(attrs, width, l, palette) && width <= |chars|
    ensures var e, c := RunEnd(attrs, attrs[x], x, width), DecodeColors(attrs[x], l, palette);
      RowCommandsFrom(attrs, chars, y, x, width, g, l, palette) ==
        var clip := Rect(x * g.charWidth, y * g.charHeight, e * g.charWidth, (y + 1) * g.charHeight);
        [ Fill(clip, c.bg), Text(clip, chars[x..e], x * g.charWidth, y * g.charHeight - g.charTop, c.fg) ] +
        RowCommandsFrom(attrs, chars, y, e, width, g, l, palette)
  {
    RunsDrawable(attrs, chars, x, width, l, palette);
    var runs := Runs(attrs, x, width);
    assert runs[1..] == Runs(attrs, RunEnd(attrs, attrs[x], x, width), width);
  }

  /** The commands row `y` contributes to a pass: its runs if repainted, nothing otherwise. */
  function RowSlice(s: Screen, entire: bool, y: nat, g: Cells, l: Layout, palette: seq<int>): seq<DrawCmd>
    requires Paintable(s, entire, l, palette) && y < s.height
  {
    if Repainted(s, entire, y) then RowCommandsFrom(RowAttrs(s, y), RowChars(s, y), y, 0, s.width, g, l, palette)
    else []
  }

  /** The commands of rows 0 to `y - 1`, top to bottom. */
  function RowsAbove(s: Screen, entire: bool, y: nat, g: Cells, l: Layout, palette: seq<int>): seq<DrawCmd>
    requires Paintable(s, entire, l, palette) && y <= s.height
  {
    if y == 0 then []
    else RowsAbove(s, entire, y - 1, g, l, palette) + RowSlice(s, entire, y - 1, g, l, palette)
  }

  /** The flags `u` with those at indices lo..hi cleared. */
  function ClearFlags(u: seq<bool>, lo: nat, hi: nat): (r: seq<bool>)
    ensures |r| == |u|
    ensures forall i :: 0 <= i < |u| ==> r[i] == (u[i] && !(lo <= i <= hi))
  {
    seq(|u|, i requires 0 <= i < |u| => u[i] && !(lo <= i <= hi))
  }

  /** Clearing an empty range changes nothing. */
  lemma ClearFlagsNone(u: seq<bool>, lo: nat, hi: nat)
    requires hi < lo
    ensures ClearFlags(u, lo, hi) == u
  {
  }

  /** Clearing lo..m and then m + 1..hi is clearing lo..hi. */
  lemma ClearFlagsCompose(u: seq<bool>, lo: nat, m: nat, hi: nat)
    requires lo <= m + 1 && m <= hi
    ensures ClearFlags(ClearFlags(u, lo, m), m + 1, hi) == ClearFlags(u, lo, hi)
  {
  }

  /** Clearing the single index i is an update of that flag to false. */
  lemma ClearFlagsOne(u: seq<bool>, i: nat)
    requires i < |u|
    ensures ClearFlags(u, i, i) == u[i := false]
  {
  }

  /** Extending the cleared range over a flag that is already false changes nothing. */
  lemma ClearFlagsAlreadyClear(u: seq<bool>, lo: nat, hi: nat)
    requires lo <= hi + 1 && (hi + 1 < |u| ==> !u[hi + 1])
    ensures ClearFlags(u, lo, hi + 1) == ClearFlags(u, lo, hi)
  {
  }

  /** Clearing flag 0 after flags 1..hi is clearing flags 0..hi. */
  lemma ClearFlagsFirst(u: seq<bool>, hi: nat)
    requires |u| >= 1
    ensures ClearFlags(u, 1, hi)[0 := false] == ClearFlags(u, 0, hi)
  {
  }

  /** The semi-transparent overlay over the cursor cell. */
  function CursorFill(s: Screen, g: Cells): DrawCmd
  {
    Fill(Rect(s.cursorColumn * g.charWidth, s.cursorRow * g.charHeight,
              (s.cursorColumn + 1) * g.charWidth, (s.cursorRow + 1) * g.charHeight), CursorOverlay)
  }

  /** Everything one paint pass draws: the repainted rows, then the cursor overlay. */
  function PaintFrame(s: Screen, fullRedraw: bool, g: Cells, l: Layout, palette: seq<int>): seq<DrawCmd>
    requires WellFormed(s) && Paintable(s, EntireDirty(s, fullRedraw), l, palette)
  {
    RowsAbove(s, EntireDirty(s, fullRedraw), s.height, g, l, palette) + [CursorFill(s, g)]
  }

  /**
   * The k-th run of a list is drawn by commands 2k (its background fill,
   * clipped to the run's pixel span in row y's band) and 2k + 1 (its
   * characters in the foreground colour, clipped to the same rectangle, with
   * the baseline starting at the run's left edge and at y * charHeight - charTop).
   */
  lemma {:induction false} RunsCommandsAt(attrs: seq<bv32>, chars: seq<char>, y: int, runs: seq<Run>, g: Cells, l: Layout, palette: seq<int>, k: nat)
    requires Drawable(attrs, chars, runs, l, palette) && k < |runs|
    ensures |RunsCommands(attrs, chars, y, runs, g, l, palette)| == 2 * |runs|
    ensures var r, c := runs[k], DecodeColors(attrs[runs[k].start], l, palette);
      RunsCommands(attrs, chars, y, runs, g, l, palette)[2 * k] ==
        Fill(Rect(r.start * g.charWidth, y * g.charHeight, End(r) * g.charWidth, (y + 1) * g.charHeight), c.bg) &&
      RunsCommands(attrs, chars, y, runs, g, l, palette)[2 * k + 1] ==
        Text(Rect(r.start * g.charWidth, y * g.charHeight, End(r) * g.charWidth, (y + 1) * g.charHeight),
             chars[r.start..End(r)], r.start * g.charWidth, y * g.charHeight - g.charTop, c.fg)
    decreases |runs|
  {
    if k > 0 {
      assert Drawable(attrs, chars, runs[1..], l, palette) by {
        forall i | 0 <= i < |runs[1..]|
          ensures runs[1..][i] == runs[i + 1]
        {
        }
      }
      RunsCommandsAt(attrs, chars, y, runs[1..], g, l, palette, k - 1);
      assert runs[1..][k - 1] == runs[k];
    } else if |runs| > 1 {
      assert Drawable(attrs, chars, runs[1..], l, palette) by {
        forall i | 0 <= i < |runs[1..]|
          ensures runs[1..][i] == runs[i + 1]
        {
        }
      }
      RunsCommandsAt(attrs, chars, y, runs[1..], g, l, palette, 0);
    }
  }

  /** The text drawn by a command list, in drawing order. */
  function TextOf(cmds: seq<DrawCmd>): seq<char>
    decreases |cmds|
  {
    if cmds == [] then []
    else (if cmds[0].Text? then cmds[0].chars else []) + TextOf(cmds[1..])
  }

  lemma {:induction false} TextOfAppend(a: seq<DrawCmd>, b: seq<DrawCmd>)
    ensures TextOf(a + b) == TextOf(a) + TextOf(b)
    decreases |a|
  {
    if a != [] {
      assert (a + b)[0] == a[0] && (a + b)[1..] == a[1..] + b;
      TextOfAppend(a[1..], b);
      var head := if a[0].Text? then a[0].chars else [];
      assert TextOf(a + b) == head + TextOf(a[1..] + b);
      assert TextOf(a) == head + TextOf(a[1..]);
    } else {
      assert a + b == b;
    }
  }

  /** The text of the runs' commands is the runs' characters put together. */
  lemma {:induction false} RunsCommandsText(attrs: seq<bv32>, chars: seq<char>, y: int, runs: seq<Run>, g: Cells, l: Layout, palette: seq<int>)
    requires Drawable(attrs, chars, runs, l, palette)
    ensures forall i :: 0 <= i < |runs| ==> End(runs[i]) <= |chars|
    ensures TextOf(RunsCommands(attrs, chars, y, runs, g, l, palette)) == RunsText(chars, runs)
    decreases |runs|
  {
    if runs != [] {
      assert Drawable(attrs, chars, runs[1..], l, palette) by {
        forall i | 0 <= i < |runs[1..]|
          ensures runs[1..][i] == runs[i + 1]
        {
        }
      }
      RunsCommandsText(attrs, chars, y, runs[1..], g, l, palette);
      var head := RunCommands(attrs, chars, y, runs[0], g, l, palette);
      TextOfAppend(head, RunsCommands(attrs, chars, y, runs[1..], g, l, palette));
      assert TextOf(head) == chars[runs[0].start..End(runs[0])] by {
        assert head[1..][1..] == [];
      }
    }
  }

  /** A repainted row draws its whole text, left to right, exactly once. */
  lemma RowTextComplete(attrs: seq<bv32>, chars: seq<char>, y: int, width: nat, g: Cells, l: Layout, palette: seq<int>)
    requires RowDecodable(attrs, width, l, palette) && width <= |chars|
    ensures TextOf(RowCommandsFrom(attrs, chars, y, 0, width, g, l, palette)) == chars[..width]
  {
    RunsDrawable(attrs, chars, 0, width, l, palette);
    RunsAreMaximalSegments(attrs, 0, width);
    RunsCommandsText(attrs, chars, y, Runs(attrs, 0, width), g, l, palette);
    TilingCoversText(chars, Runs(attrs, 0, width), 0, width);
  }

  /**
   * A row contributes nothing to a pass unless it is repainted, and a
   * repainted row of a non-empty screen contributes one fill and one text
   * draw per maximal run: two commands per attribute change, plus two.
   */
  lemma RowCommandCount(s: Screen, entire: bool, y: nat, g: Cells, l: Layout, palette: seq<int>)
    requires Paintable(s, entire, l, palette) && y < s.height
    ensures |RowSlice(s, entire, y, g, l, palette)| ==
      if Repainted(s, entire, y) && s.width > 0 then 2 * (1 + Changes(RowAttrs(s, y), 0, s.width)) else 0
  {
    if Repainted(s, entire, y) {
      var attrs, chars := RowAttrs(s, y), RowChars(s, y);
      RunsDrawable(attrs, chars, 0, s.width, l, palette);
      var runs := Runs(attrs, 0, s.width);
      if s.width > 0 {
        RunCount(attrs, 0, s.width);
        RunsCommandsAt(attrs, chars, y, runs, g, l, palette, 0);
      }
    }
  }

  /** When no whole-screen flag, no forced redraw and no flag of a row above y is set, those rows draw nothing. */
  lemma {:induction false} CleanRowsDrawNothing(s: Screen, entire: bool, y: nat, g: Cells, l: Layout, palette: seq<int>)
    requires Paintable(s, entire, l, palette) && y <= s.height
    requires !entire && forall i :: 1 <= i <= y ==> !s.update[i]
    ensures RowsAbove(s, entire, y, g, l, palette) == []
  {
    if y > 0 {
      CleanRowsDrawNothing(s, entire, y - 1, g, l, palette);
    }
  }

  /** A pass over a clean screen only draws the cursor overlay. */
  lemma CleanPassDrawsOnlyCursor(s: Screen, fullRedraw: bool, g: Cells, l: Layout, palette: seq<int>)
    requires WellFormed(s) && Paintable(s, EntireDirty(s, fullRedraw), l, palette)
    requires !fullRedraw && forall i :: 0 <= i <= s.height ==> !s.update[i]
    ensures PaintFrame(s, fullRedraw, g, l, palette) == [CursorFill(s, g)]
  {
    CleanRowsDrawNothing(s, EntireDirty(s, fullRedraw), s.height, g, l, palette);
  }

  /** A row whose first `width` attributes are all equal is a single run. */
  lemma UniformRowIsOneRun(row: seq<bv32>, width: nat)
    requires 0 < width <= |row|
    requires forall k :: 0 <= k < width ==> row[k] == row[0]
    ensures Runs(row, 0, width) == [Run(0, width)]
  {
    assert RunEnd(row, row[0], 0, width) == width;
  }

  /**
   * A non-empty row of a single attribute is drawn as one background fill
   * over the whole row and one text draw of all its characters.
   */
  lemma UniformRowCommands(attrs: seq<bv32>, chars: seq<char>, y: int, width: nat, g: Cells, l: Layout, palette: seq<int>)
    requires 0 < width <= |chars| && RowDecodable(attrs, width, l, palette)
    requires forall k :: 0 <= k < width ==> attrs[k] == attrs[0]
    ensures var c := DecodeColors(attrs[0], l, palette);
      RowCommandsFrom(attrs, chars, y, 0, width, g, l, palette) ==
        var row := Rect(0, y * g.charHeight, width * g.charWidth, (y + 1) * g.charHeight);
        [ Fill(row, c.bg), Text(row, chars[..width], 0, y * g.charHeight - g.charTop, c.fg) ]
  {
    UniformRowIsOneRun(attrs, width);
    var r := Run(0, width);
    assert chars[0..width] == chars[..width];
    assert [r][1..] == [];
    assert RunsCommands(attrs, chars, y, [r], g, l, palette) == RunCommands(attrs, chars, y, r, g, l, palette) + [];
  }

  /**
   * A 10x4 screen whose visible cells all hold attribute word 0, with only
   * row 2 flagged and no whole-screen flag or forced redraw: the pass draws
   * row 2 as one run (its default background over the whole row, then its
   * ten characters in the default foreground) and then the cursor overlay.
   */
  lemma SingleDirtyRowScenario(s: Screen, g: Cells, l: Layout, palette: seq<int>)
    requires WellFormed(s) && s.width == 10 && s.height == 4 && |palette| >= 16
    requires forall y :: 0 <= y < 4 ==> RowAttrs(s, y)[..10] == [0, 0, 0, 0, 0, 0, 0, 0, 0, 0]
    requires !s.update[0] && !s.update[1] && !s.update[2] && s.update[3] && !s.update[4]
    ensures Paintable(s, EntireDirty(s, false), l, palette)
    ensures PaintFrame(s, false, g, l, palette) ==
      var row := Rect(0, 2 * g.charHeight, 10 * g.charWidth, 3 * g.charHeight);
      [ Fill(row, palette[0]), Text(row, RowChars(s, 2)[..10], 0, 2 * g.charHeight - g.charTop, palette[15]),
        CursorFill(s, g) ]
  {
    DefaultColors(0, l, palette);
    forall y: nat, k | y < 4 && 0 <= k < 10
      ensures RowAttrs(s, y)[k] == 0
    {
      assert RowAttrs(s, y)[k] == RowAttrs(s, y)[..10][k];
    }
    assert Paintable(s, false, l, palette);
    UniformRowCommands(RowAttrs(s, 2), RowChars(s, 2), 2, 10, g, l, palette);
    CleanRowsDrawNothing(s, false, 2, g, l, palette);
    assert RowsAbove(s, false, 4, g, l, palette) == RowSlice(s, false, 2, g, l, palette);
  }
}
