/**
 * The terminal view's state and its operations: the paint pass (onDraw),
 * the resize handler (onSizeChanged), the forced redraw (redraw) and the
 * cell metrics (setFontSize).
 *
 * The cell buffer is a collaborator: `VduBuffer` holds the fields of it
 * the view reads, and the dirty flags `update`, which the paint pass clears
 * in place. The transport and the buffer's `setScreenSize`, whose bodies
 * are not part of this model, are recorded as `Collaborator` calls.
 */
module Terminal {
  import opened Attributes
  import opened CellGeometry
  import opened RunBatching
  import opened GridRenderer

  /** A call the view makes into code outside this model. */
  datatype Collaborator =
    | TransportResize(columns: nat, rows: nat, pixelWidth: nat, pixelHeight: nat)
    | SetScreenSize(columns: nat, rows: nat, broadcast: bool)

  /** The cell buffer as the view sees it. */
  class VduBuffer {
    /** update[0]: the whole screen is dirty; update[y + 1]: visible row y is dirty. */
    var update: array<bool>
    var charAttributes: seq<seq<bv32>>
    var charArray: seq<seq<char>>
    var windowBase: nat
    var width: nat
    var height: nat
    var cursorColumn: int
    var cursorRow: int

    constructor (update: array<bool>, charAttributes: seq<seq<bv32>>, charArray: seq<seq<char>>,
                 windowBase: nat, width: nat, height: nat, cursorColumn: int, cursorRow: int)
      ensures this.update == update && this.charAttributes == charAttributes && this.charArray == charArray
      ensures this.windowBase == windowBase && this.width == width && this.height == height
      ensures this.cursorColumn == cursorColumn && this.cursorRow == cursorRow
    {
      this.update := update;
      this.charAttributes := charAttributes;
      this.charArray := charArray;
      this.windowBase := windowBase;
      this.width := width;
      this.height := height;
      this.cursorColumn := cursorColumn;
      this.cursorRow := cursorRow;
    }

    /** A snapshot of everything a paint pass reads. */
    function State(): Screen
      reads this, update
    {
      Screen(update[..], charAttributes, charArray, windowBase, width, height, cursorColumn, cursorRow)
    }
  }

  class TerminalView {
    const buffer: VduBuffer
    /** The buffer's attribute masks and shifts. */
    const layout: Layout
    /** The default colour palette. */
    const palette: seq<int>
    var charWidth: int
    var charHeight: int
    var charTop: int
    var fullRedraw: bool

    function CellSize(): Cells
      reads this
    {
      Cells(charWidth, charHeight, charTop)
    }

    /**
     * A view over `buffer` whose font has been measured to the given cell
     * metrics; measuring the font ends with a forced redraw.
     */
    constructor (buffer: VduBuffer, layout: Layout, palette: seq<int>, charWidth: int, charHeight: int, charTop: int)
      ensures this.buffer == buffer && this.layout == layout && this.palette == palette
      ensures CellSize() == Cells(charWidth, charHeight, charTop)
      ensures fullRedraw
    {
      this.buffer := buffer;
      this.layout := layout;
      this.palette := palette;
      this.charWidth := charWidth;
      this.charHeight := charHeight;
      this.charTop := charTop;
      this.fullRedraw := true;
    }

    /** Forces every row to be repainted on the next pass. */
    method Redraw()
      modifies this`fullRedraw
      ensures fullRedraw
    {
      fullRedraw := true;
    }

    /**
     * Installs the cell metrics measured for a new font size (the three
     * together) and forces a full repaint.
     */
    method SetFontSize(charWidth: int, charHeight: int, charTop: int)
      modifies this`charWidth, this`charHeight, this`charTop, this`fullRedraw
      ensures CellSize() == Cells(charWidth, charHeight, charTop)
      ensures fullRedraw
    {
      this.charWidth := charWidth;
      this.charHeight := charHeight;
      this.charTop := charTop;
      Redraw();
    }

    /**
     * The surface is now `width` x `height` pixels: tell the transport and the
     * buffer the number of whole cells that fit, then force a full repaint.
     * A zero cell size is a division by zero in the source.
     */
    method OnSizeChanged(width: nat, height: nat) returns (calls: seq<Collaborator>)
      requires charWidth > 0 && charHeight > 0
      modifies this`fullRedraw
      ensures var g := TerminalSize(width, height, charWidth, charHeight);
        calls == [TransportResize(g.columns, g.rows, width, height), SetScreenSize(g.columns, g.rows, true)]
      ensures fullRedraw
    {
      var terminalWidth := width / charWidth;
      var terminalHeight := height / charHeight;
      calls := [TransportResize(terminalWidth, terminalHeight, width, height)];
      calls := calls + [SetScreenSize(terminalWidth, terminalHeight, true)];
      Redraw();
    }

    /**
     * One step of the column scan from column `x`: measure the run of equal
     * attribute words there, decode its colours, and draw its background
     * fill and its characters. `addr` is the run's length.
     */
    method PaintRun(row: seq<bv32>, text: seq<char>, y: int, x: nat, width: nat) returns (addr: nat, runCmds: seq<DrawCmd>)
      requires x < width && RowDecodable(row, width, layout, palette) && width <= |text|
      ensures x < x + addr <= width
      ensures x + addr == RunEnd(row, row[x], x, width)
      ensures runCmds == RunCommands(row, text, y, Run(x, addr), CellSize(), layout, palette)
      ensures runCmds + RowCommandsFrom(row, text, y, x + addr, width, CellSize(), layout, palette)
              == RowCommandsFrom(row, text, y, x, width, CellSize(), layout, palette)
    {
      addr := ScanRun(row, x, width);
      RowCommandsStep(row, text, y, x, width, CellSize(), layout, palette);
      var colors := DecodeColors(row[x], layout, palette);
      var clip := Rect(x * charWidth, y * charHeight, (x + addr) * charWidth, (y + 1) * charHeight);
      runCmds := [Fill(clip, colors.bg), Text(clip, text[x..x + addr], x * charWidth, y * charHeight - charTop, colors.fg)];
    }

    /**
     * The column scan of one repainted row: from each starting column, one
     * background fill and one text draw for the maximal run of equal
     * attribute words there, then on to the column after the run.
     */
    method PaintRow(row: seq<bv32>, text: seq<char>, y: int) returns (rowCmds: seq<DrawCmd>)
      requires RowDecodable(row, buffer.width, layout, palette) && buffer.width <= |text|
      ensures rowCmds == RowCommandsFrom(row, text, y, 0, buffer.width, CellSize(), layout, palette)
    {
      var width := buffer.width;
      rowCmds := [];
      var x := 0;
      while x < width
        invariant 0 <= x <= width
        invariant rowCmds + RowCommandsFrom(row, text, y, x, width, CellSize(), layout, palette)
                  == RowCommandsFrom(row, text, y, 0, width, CellSize(), layout, palette)
        decreases width - x
      {
        var addr, runCmds := PaintRun(row, text, y, x, width);
        rowCmds := rowCmds + runCmds;
        // the source's `x += addr - 1` followed by the loop's `x++`
        x := x + addr;
      }
    }

    /** The buffer still shows the snapshot `s`, except for the flags. */
    ghost predicate Shows(s: Screen)
      reads this, buffer, buffer.update
    {
      buffer.State().(update := s.update) == s
    }

    /**
     * One step of the row loop: row `y` is skipped unless its flag or the
     * whole-screen sample is set; a repainted row has its flag cleared and
     * its column scan drawn.
     */
    method VisitRow(ghost s: Screen, entireDirty: bool, y: nat) returns (slice: seq<DrawCmd>)
      requires Paintable(s, entireDirty, layout, palette) && y < s.height && Shows(s)
      requires buffer.update[..] == ClearFlags(s.update, 1, y)
      modifies buffer.update
      ensures slice == RowSlice(s, entireDirty, y, CellSize(), layout, palette)
      ensures buffer.update[..] == ClearFlags(s.update, 1, y + 1)
    {
      if !buffer.update[y + 1] && !entireDirty {
        ClearFlagsAlreadyClear(s.update, 1, y);
        return [];
      }
      buffer.update[y + 1] := false;
      ClearFlagsOne(ClearFlags(s.update, 1, y), y + 1);
      ClearFlagsCompose(s.update, 1, y, y + 1);
      var row := buffer.charAttributes[buffer.windowBase + y];
      var text := buffer.charArray[buffer.windowBase + y];
      assert row == RowAttrs(s, y) && text == RowChars(s, y);
      slice := PaintRow(row, text, y);
    }

    /**
     * The row loop of a pass whose whole-screen sample is `entireDirty`: it
     * draws `RowsAbove` of the snapshot's height and clears the flag of every repainted row.
     */
    method PaintRows(ghost s: Screen, entireDirty: bool) returns (cmds: seq<DrawCmd>)
      requires Paintable(s, entireDirty, layout, palette) && Shows(s) && buffer.update[..] == s.update
      modifies buffer.update
      ensures cmds == RowsAbove(s, entireDirty, s.height, CellSize(), layout, palette)
      ensures buffer.update[..] == ClearFlags(s.update, 1, s.height)
    {
      cmds := [];
      var y := 0;
      ClearFlagsNone(s.update, 1, 0);
      while y < buffer.height
        invariant 0 <= y <= buffer.height
        invariant buffer.update[..] == ClearFlags(s.update, 1, y)
        invariant cmds == RowsAbove(s, entireDirty, y, CellSize(), layout, palette)
      {
        var slice := VisitRow(s, entireDirty, y);
        cmds := cmds + slice;
        y := y + 1;
      }
    }

    /**
     * One paint pass. It draws exactly `PaintFrame` of the buffer and flags as
     * they were when the pass started, clears the whole-screen flag, every row
     * flag of the visible rows and the forced redraw, and changes nothing else.
     */
    method OnDraw() returns (cmds: seq<DrawCmd>)
      requires WellFormed(buffer.State())
      requires Paintable(buffer.State(), EntireDirty(buffer.State(), fullRedraw), layout, palette)
      modifies buffer.update, this`fullRedraw
      ensures cmds == PaintFrame(old(buffer.State()), old(fullRedraw), CellSize(), layout, palette)
      ensures !fullRedraw
      ensures buffer.update[..] == ClearFlags(old(buffer.update[..]), 0, buffer.height)
      ensures forall i :: 0 <= i <= buffer.height ==> !buffer.update[i]
      ensures unchanged(buffer)
      ensures unchanged(this`charWidth, this`charHeight, this`charTop)
    {
      ghost var s := buffer.State();
      var entireDirty := buffer.update[0] || fullRedraw;
      cmds := PaintRows(s, entireDirty);
      buffer.update[0] := false;
      ClearFlagsFirst(s.update, s.height);
      var cursor := Rect(buffer.cursorColumn * charWidth, buffer.cursorRow * charHeight,
                         (buffer.cursorColumn + 1) * charWidth, (buffer.cursorRow + 1) * charHeight);
      cmds := cmds + [Fill(cursor, CursorOverlay)];
      fullRedraw := false;
    }
  }
}
