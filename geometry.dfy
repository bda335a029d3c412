/**
 * The grid size derived from the drawing surface's pixel size and the cell
 * size (TerminalView.onSizeChanged).
 *
 * The source writes `(int) Math.ceil(width / charWidth)`, but the quotient
 * of two Java `int`s is already truncated before `Math.ceil` sees it, so the
 * effective rule is integer division. Pixel sizes are never negative, so
 * truncation and Dafny's floor division agree.
 */
module CellGeometry {

  datatype GridSize = GridSize(columns: nat, rows: nat)

  /**
   * The number of whole cells that fit in each direction: `columns` cells
   * of width `charWidth` fit in `pixelWidth`, one more would not, and
   * likewise for rows.
   */
  function TerminalSize(pixelWidth: nat, pixelHeight: nat, charWidth: int, charHeight: int): (g: GridSize)
    requires charWidth > 0 && charHeight > 0
    ensures g.columns * charWidth <= pixelWidth < (g.columns + 1) * charWidth
    ensures g.rows * charHeight <= pixelHeight < (g.rows + 1) * charHeight
  {
    GridSize(pixelWidth / charWidth, pixelHeight / charHeight)
  }

  /** The whole-cells count is the only count with the bound of TerminalSize. */
  lemma CellCountUnique(pixels: nat, cell: int, n: nat, m: nat)
    requires cell > 0
    requires n * cell <= pixels < (n + 1) * cell
    requires m * cell <= pixels < (m + 1) * cell
    ensures n == m
  {
    if n < m {
      MulMonotone(n + 1, m, cell);
    } else if m < n {
      MulMonotone(m + 1, n, cell);
    }
  }

  lemma MulMonotone(a: nat, b: nat, c: nat)
    requires a <= b
    ensures a * c <= b * c
  {
  }

  /** A larger surface never yields fewer columns or rows. */
  lemma TerminalSizeMonotone(w1: nat, h1: nat, w2: nat, h2: nat, charWidth: int, charHeight: int)
    requires charWidth > 0 && charHeight > 0
    requires w1 <= w2 && h1 <= h2
    ensures TerminalSize(w1, h1, charWidth, charHeight).columns <= TerminalSize(w2, h2, charWidth, charHeight).columns
    ensures TerminalSize(w1, h1, charWidth, charHeight).rows <= TerminalSize(w2, h2, charWidth, charHeight).rows
  {
    var g1 := TerminalSize(w1, h1, charWidth, charHeight);
    var g2 := TerminalSize(w2, h2, charWidth, charHeight);
    if g2.columns < g1.columns {
      MulMonotone(g2.columns + 1, g1.columns, charWidth);
    }
    if g2.rows < g1.rows {
      MulMonotone(g2.rows + 1, g1.rows, charHeight);
    }
  }

  /** A 640x480 surface with 8x16 cells is an 80x30 terminal. */
  lemma VgaSurface()
    ensures TerminalSize(640, 480, 8, 16) == GridSize(80, 30)
  {
  }
}
