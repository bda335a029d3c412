# TerminalView paint pass

A Dafny model of the terminal view of irssiconnectbot2 (`org.irssibot.TerminalView`).
It covers the incremental paint pass `onDraw` and the logic around it:

- **Dirty-row tracking.** `update[0]` is the whole-screen flag of the cell buffer. `update[y + 1]` is the flag of visible row `y`. `fullRedraw` is the view's forced-redraw field. `entireDirty` samples the whole-screen flag and `fullRedraw` once, before the row loop. A row is repainted when its own flag or `entireDirty` is set. A repainted row's flag is cleared in place. After the loop, `update[0]` and `fullRedraw` are cleared.
- **Run-length batching.** Each repainted row is scanned left to right. From each starting column the scan grows a run while the attribute word stays equal to the run's first one. It paints the run once and continues after it.
- **Attribute decoding.** The foreground palette index is `field - 1`, or 15 when the field is 0. BOLD promotes an index below 8 to `index + 8`. The background index is `field - 1`, or 0 when the field is 0.
- **Draw geometry.** Each run gives one background fill over its pixel span and one text draw of its characters, both clipped to the run's cells. The text's baseline starts at the run's left edge and at `y * charHeight - charTop`. Every pass ends with one overlay fill over the cursor cell, in colour `0x3FFFFFFF`.
- **Resize.** `onSizeChanged` computes the grid from the pixel size and the cell size. It forwards the grid to the transport and to the buffer, then forces a redraw.
- **`redraw` and `setFontSize`.** These update the view's integer cell fields and its forced-redraw field.

The canvas is replaced by the list of drawing commands a pass issues (`GridRenderer.DrawCmd`):

- `Fill` stands for `drawPaint` under a clip rectangle;
- `Text` stands for `drawText` under a clip rectangle.

The source draws each run between `save`, `clipRect` and `restore`, so the run's fill and its text carry the same clip rectangle.

`GridRenderer.PaintFrame` is the command list of a whole pass, stated on a snapshot (`Screen`) of what the pass reads. `Terminal.TerminalView.OnDraw` is the imperative pass over a `VduBuffer` object. Its `update` flags are an `array<bool>` that the pass clears in place. OnDraw is proved to draw exactly `PaintFrame` of the state it started from.

Modules, one file each:

- `Attributes` (attributes.dfy): the colour decode. Attribute words are `bv32`. The masks and shifts of the buffer (`COLOR_FG`, `COLOR_FG_SHIFT`, `COLOR_BG`, `COLOR_BG_SHIFT`, `BOLD`) are not part of this model, so they are carried by a `Layout` value. The palette is a sequence of colours. Java's `>>` on `int` is modelled as floor division of the two's-complement value by 2^(shift mod 32). The `- 1` wraps to 32 bits.
- `CellGeometry` (geometry.dfy): the resize arithmetic.
- `RunBatching` (runs.dfy): the run scan and the facts about the runs it visits.
- `GridRenderer` (renderer.dfy): the value-level specification of a pass and the lemmas about it.
- `Terminal` (terminal_view.dfy): the `VduBuffer` and `TerminalView` classes and their methods.

The grid size is floor division. Line 115 writes `(int) Math.ceil(width / charWidth)`, but `Math.ceil` is applied to a Java `int` quotient that is already truncated. So only whole cells count.

## Model

| member | source | states |
|---|---|---|
| Attributes.DecodeColors | src/org/irssibot/TerminalView.java:157-175 | the colours of a run are palette entries; the decode is defined when the promoted foreground index and the background index are inside the palette |
| Attributes.FieldIndexRule | src/org/irssibot/TerminalView.java:157-175 | a colour field that masks to zero selects the default index; a non-zero one selects the field shifted right arithmetically, minus one, wrapped to 32 bits |
| Attributes.ForegroundIndex | src/org/irssibot/TerminalView.java:157-162 | the foreground index is 15 when the COLOR_FG bits are zero, else (a & COLOR_FG) >> COLOR_FG_SHIFT minus one |
| Attributes.ForegroundRule | src/org/irssibot/TerminalView.java:164-168 | the foreground colour is palette[index + 8] when the index is below 8 and BOLD is set, and palette[index] otherwise, including every index of 8 or more |
| Attributes.BackgroundIndex | src/org/irssibot/TerminalView.java:171-175 | the background index is 0 when the COLOR_BG bits are zero, else (a & COLOR_BG) >> COLOR_BG_SHIFT minus one |
| Attributes.BackgroundRule | src/org/irssibot/TerminalView.java:171-175 | the background colour is palette[background index], and it depends only on the COLOR_BG bits of the word |
| Attributes.DefaultColors | src/org/irssibot/TerminalView.java:157-175 | a word with no foreground and no background bits decodes to palette entry 15 on palette entry 0, BOLD or not |
| Attributes.BoldPromotesBaseColor | src/org/irssibot/TerminalView.java:157-168 | of two words with the same colour fields and a base foreground index (0..7), the one with BOLD uses entry index + 8, the one without uses entry index, and both use the same background |
| Attributes.BoldIgnoredOutsideBaseColors | src/org/irssibot/TerminalView.java:164-168 | BOLD changes nothing for a foreground index of 8 or more: two words with the same colour fields decode to the same pair |
| CellGeometry.TerminalSize | src/org/irssibot/TerminalView.java:115-116 | the grid is the number of whole cells that fit: columns * charWidth <= width < (columns + 1) * charWidth, and the same for rows |
| CellGeometry.CellCountUnique | src/org/irssibot/TerminalView.java:115-116 | only one count satisfies the whole-cells bound, so TerminalSize is determined by it |
| CellGeometry.TerminalSizeMonotone | src/org/irssibot/TerminalView.java:115-116 | a larger surface never yields fewer columns or rows |
| CellGeometry.VgaSurface | src/org/irssibot/TerminalView.java:115-116 | a 640x480 surface with 8x16 cells is an 80x30 grid |
| RunBatching.RunEnd | src/org/irssibot/TerminalView.java:151-154 | the end of a run of attribute a from column e: every column before it holds a, and the column at it, if inside the row, does not |
| RunBatching.ScanRun | src/org/irssibot/TerminalView.java:148-154 | the while loop returns a run length addr >= 1 inside the row; every column of the run holds the first column's attribute; the column after it, if inside the row, holds another; x + addr is RunEnd |
| RunBatching.Runs | src/org/irssibot/TerminalView.java:146-154 | the runs the column scan visits from column x are non-empty and lie in [x, width) |
| RunBatching.RunsAreMaximalSegments | src/org/irssibot/TerminalView.java:146-154 | the scan's runs tile [x, width) left to right with no gap or overlap, and each run is constant and cannot be extended to the right |
| RunBatching.MaximalTilingUnique | src/org/irssibot/TerminalView.java:146-154 | two tilings of a segment by maximal constant runs are equal, so the scan yields exactly the row's maximal constant-attribute segments |
| RunBatching.TilesBounded | src/org/irssibot/TerminalView.java:146-154 | every run of a tiling of [from, to) lies inside it |
| RunBatching.ChangesAcrossRun | src/org/irssibot/TerminalView.java:151-154 | across one maximal run, the attribute changes of the row are the one at the run's end plus those after it |
| RunBatching.RunCount | src/org/irssibot/TerminalView.java:146-154 | a non-empty row has one run per attribute change plus one |
| RunBatching.TilingCoversText | src/org/irssibot/TerminalView.java:191-197 | the characters of a tiling's runs, put together in order, are the tiled text |
| GridRenderer.RunsCommandsAt | src/org/irssibot/TerminalView.java:177-199 | run k of a row is drawn by commands 2k and 2k + 1, both clipped to [start * charWidth, end * charWidth) x [y * charHeight, (y + 1) * charHeight): a fill in the background colour, then its characters with the baseline at (start * charWidth, y * charHeight - charTop) in the foreground colour |
| GridRenderer.RowCommandsStep | src/org/irssibot/TerminalView.java:146-201 | the commands of a row from column x are the run at x, drawn, followed by the commands from the run's end |
| GridRenderer.TextOfAppend | src/org/irssibot/TerminalView.java:191-197 | the text drawn by two command lists in sequence is the first one's text followed by the second's |
| GridRenderer.RunsCommandsText | src/org/irssibot/TerminalView.java:191-197 | the text drawn for a list of runs is the runs' characters in order |
| GridRenderer.RowTextComplete | src/org/irssibot/TerminalView.java:146-201 | a repainted row draws its first width characters exactly once, left to right |
| GridRenderer.RowCommandCount | src/org/irssibot/TerminalView.java:138-202 | a row draws nothing unless its flag or entireDirty is set; a repainted non-empty row draws two commands per attribute change plus two |
| GridRenderer.ClearFlagsNone | src/org/irssibot/TerminalView.java:134-144 | before the row loop no flag has been cleared: clearing an empty range is the identity |
| GridRenderer.ClearFlagsOne | src/org/irssibot/TerminalView.java:144 | clearing the single flag i sets update[i] to false and leaves every other flag as it was |
| GridRenderer.ClearFlagsCompose | src/org/irssibot/TerminalView.java:138-144 | clearing rows one after another adds up: clearing lo..m and then m + 1..hi is clearing lo..hi; VisitRow uses it to extend the cleared range by row y + 1 |
| GridRenderer.ClearFlagsAlreadyClear | src/org/irssibot/TerminalView.java:140-142 | a row skipped because its flag is false leaves the flags as if it had been cleared |
| GridRenderer.ClearFlagsFirst | src/org/irssibot/TerminalView.java:206 | clearing flag 0 after flags 1..hi gives the flags with 0..hi cleared |
| GridRenderer.CleanRowsDrawNothing | src/org/irssibot/TerminalView.java:138-142 | with no whole-screen flag, no forced redraw and no row flag set above row y, the rows above y draw nothing |
| GridRenderer.CleanPassDrawsOnlyCursor | src/org/irssibot/TerminalView.java:134-222 | a pass over a clean screen draws only the cursor overlay |
| GridRenderer.UniformRowIsOneRun | src/org/irssibot/TerminalView.java:146-154 | a row whose attributes are all equal is scanned as a single run |
| GridRenderer.UniformRowCommands | src/org/irssibot/TerminalView.java:146-201 | a non-empty row of one attribute is drawn as one fill over the whole row and one text draw of all its characters |
| GridRenderer.SingleDirtyRowScenario | src/org/irssibot/TerminalView.java:134-222 | on a 10x4 screen of attribute 0 with only row 2 flagged, the pass draws exactly row 2's fill, its text, and the cursor overlay |
| Terminal.TerminalView.PaintRun | src/org/irssibot/TerminalView.java:148-201 | one step of the column scan: x + addr is the end of the maximal run at x (RunEnd), the step draws exactly that run's clipped fill and text (RunCommands), and the rest of the row is what remains |
| Terminal.TerminalView.PaintRow | src/org/irssibot/TerminalView.java:146-202 | the column loop over a repainted row draws exactly that row's commands (RowCommandsFrom) |
| Terminal.TerminalView.VisitRow | src/org/irssibot/TerminalView.java:140-202 | row y is skipped when neither its flag nor entireDirty is set, else its flag is cleared in place (line 144) and its commands are drawn; the flags become those of the snapshot with 1..y + 1 cleared |
| Terminal.TerminalView.PaintRows | src/org/irssibot/TerminalView.java:138-204 | the row loop draws the commands of all visible rows in order and leaves flags 1..height cleared |
| Terminal.TerminalView.OnDraw | src/org/irssibot/TerminalView.java:125-229 | a pass draws exactly PaintFrame of the state it started from (repainted rows top to bottom, then the cursor overlay); afterwards update[0..height] are all false, flags beyond height keep their values, fullRedraw is false, and the buffer and the cell fields are unchanged |
| Terminal.TerminalView.OnSizeChanged | src/org/irssibot/TerminalView.java:101-123 | calls the transport's resize with the whole-cell grid and the pixel size, then the buffer's setScreenSize with the same grid and broadcast set, then forces a redraw |
| Terminal.TerminalView.Redraw | src/org/irssibot/TerminalView.java:251-254 | sets the forced-redraw field |
| Terminal.TerminalView.SetFontSize | src/org/irssibot/TerminalView.java:231-245 | installs the measured cell width, height and baseline offset, and forces a redraw |
| Terminal.TerminalView.constructor | src/org/irssibot/TerminalView.java:58-99 | a new view has its measured cell metrics and a forced redraw pending: `setFontSize(10)` at line 84 is the constructor's last step that sets a modelled field |

## Left out

- Attributes.DecodeColors: its own contract states only that both colours are palette entries. The index rules are stated by the lemmas beside it: ForegroundIndex, ForegroundRule, BackgroundIndex, BackgroundRule, DefaultColors, BoldPromotesBaseColor and BoldIgnoredOutsideBaseColors.
- Palette index out of range: Java throws `ArrayIndexOutOfBoundsException` there. The model requires every attribute of a repainted row to decode inside the palette (`Paintable`) instead of modelling the exception.
- Terminal.TerminalView.OnSizeChanged: a zero `charWidth` or `charHeight` makes the divisions at lines 115-116 throw `ArithmeticException`. The model requires both to be positive instead of modelling the exception. `SetFontSize` accepts any metrics, as the source does.
- Short buffer arrays: the pass reads `update[y + 1]` for every visible row, and `charAttributes`/`charArray` only for repainted rows. Java throws `ArrayIndexOutOfBoundsException` when those are too short. The model requires them to be long enough for every visible row (`WellFormed`) instead of modelling the exception, including rows that are not repainted.
- Pixel arithmetic (`x * charWidth` and the like) is unbounded here. Java `int` overflow, which only absurd sizes reach, is not modelled.
- The bodies of `VDUBuffer`, `Colors`, `Transport` and `PromptMessage` are not part of this model. The masks, shifts and palette are parameters. `transport.resize` and `buffer.setScreenSize` are recorded as `Collaborator` values that `OnSizeChanged` returns. `getCursorColumn` and `getCursorRow` are read as buffer fields.
- `synchronized (buffer)` (line 132): concurrency is not modelled. A pass is one atomic step.
- Bitmap creation and recycling in `onSizeChanged` (lines 107-113) and the final `drawBitmap` blit (line 228): platform graphics resources. The off-screen canvas is the returned command list. `Bitmap.createBitmap` (line 111) throws for a zero width or height, so in Java a zero-pixel resize fails before lines 115-122. That failure path is left out with the bitmap: `OnSizeChanged` accepts zero pixel sizes and yields a 0-column or 0-row grid.
- Font measurement in `setFontSize` (lines 231-242) uses float font metrics. `SetFontSize` takes the resulting integer cell width, height and baseline offset as parameters.
- `invalidate()` in `redraw` (line 252) schedules an Android repaint. Only the `fullRedraw` update is modelled.
- Android plumbing: the constructor's layout parameters, `buffer.setDisplay(this)` and `transport.setPromptHandler(...)` (lines 70-72), listeners, soft-input handling and `transport.connect()` (lines 58-99), `onCreateInputConnection` (lines 50-56), `super.onSizeChanged`, the `DEBUG` logging, and the empty `VDUDisplay` methods (`getVDUBuffer`, `updateScrollBar`, `setVDUBuffer`, `setColor`, `resetColors`). They have no behaviour to state.
- `PromptHandler` (lines 268-343) only dispatches UI dialogs and toasts on an Android `Handler`, so it is not modelled.
