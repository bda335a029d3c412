/**
 * Run-length batching of one terminal row (the column scan of
 * TerminalView.onDraw): from each starting column the scan extends a run
 * while the attribute word stays equal to the run's first one, paints the
 * run once, and resumes right after it.
 *
 * `Runs` is the sequence of runs the scan visits; the lemmas show that it
 * is the one and only tiling of the row into maximal constant-attribute
 * segments, that it has one run per attribute change plus one, and that the
 * runs' characters put together give back the row's text.
 */
module RunBatching {

  /** A run of `len` columns starting at column `start`. */
  datatype Run = Run(start: nat, len: nat)

  function End(r: Run): nat
  {
    r.start + r.len
  }

  /**
   * The column where a run of attribute `a` that has reached column `e`
   * stops: the first column at or after `e` that is the row's width or holds
   * a different attribute.
   */
  function RunEnd(row: seq<bv32>, a: bv32, e: nat, width: nat): (end: nat)
    requires e <= width <= |row|
    decreases width - e
    ensures e <= end <= width
    ensures forall k :: e <= k < end ==> row[k] == a
    ensures end < width ==> row[end] != a
  {
    if e < width && row[e] == a then RunEnd(row, a, e + 1, width) else e
  }

  /**
   * The inner scan of the paint pass: starting at column `x`, count how many
   * columns carry the same attribute word as column `x`.
   */
  method ScanRun(row: seq<bv32>, x: nat, width: nat) returns (addr: nat)
    requires x < width <= |row|
    ensures addr >= 1 && x + addr <= width
    ensures forall k :: x <= k < x + addr ==> row[k] == row[x]
    ensures x + addr < width ==> row[x + addr] != row[x]
    ensures x + addr == RunEnd(row, row[x], x, width)
  {
    addr := 0;
    var curAttr := row[x];
    while x + addr < width && row[x + addr] == curAttr
      invariant x + addr <= width
      invariant RunEnd(row, curAttr, x + addr, width) == RunEnd(row, curAttr, x, width)
      decreases width - x - addr
    {
      addr := addr + 1;
    }
  }

  /** The runs the column scan visits from column `x` to the end of the row. */
  function Runs(row: seq<bv32>, x: nat, width: nat): (runs: seq<Run>)
    requires x <= width <= |row|
    decreases width - x
    ensures forall i :: 0 <= i < |runs| ==> x <= runs[i].start && runs[i].len >= 1 && End(runs[i]) <= width
  {
    if x == width then []
    else
      var e := RunEnd(row, row[x], x, width);
      [Run(x, e - x)] + Runs(row, e, width)
  }

  /** The runs are non-empty, abut each other, and cover exactly [from, to). */
  predicate Tiles(runs: seq<Run>, from: nat, to: nat)
    decreases |runs|
  {
    if runs == [] then from == to
    else runs[0].start == from && runs[0].len >= 1 && Tiles(runs[1..], End(runs[0]), to)
  }

  /** Every column of the run carries the run's first attribute. */
  predicate Constant(row: seq<bv32>, r: Run)
  {
    End(r) <= |row| && forall k :: r.start <= k < End(r) ==> row[k] == row[r.start]
  }

  /** The column right after the run, if inside the row, carries another attribute. */
  predicate Maximal(row: seq<bv32>, r: Run, width: nat)
  {
    End(r) < width <= |row| ==> row[End(r)] != row[r.start]
  }

  /** Every run is a constant-attribute segment that cannot be extended to the right. */
  predicate MaximalRuns(runs: seq<Run>, row: seq<bv32>, width: nat)
  {
    forall i :: 0 <= i < |runs| ==> Constant(row, runs[i]) && Maximal(row, runs[i], width)
  }

  /** A tiling of [from, to) stays inside it. */
  lemma {:induction false} TilesBounded(runs: seq<Run>, from: nat, to: nat)
    requires Tiles(runs, from, to)
    ensures from <= to
    ensures forall i :: 0 <= i < |runs| ==> from <= runs[i].start && End(runs[i]) <= to
  {
    if runs != [] {
      TilesBounded(runs[1..], End(runs[0]), to);
      forall i | 1 <= i < |runs|
        ensures from <= runs[i].start && End(runs[i]) <= to
      {
        assert runs[i] == runs[1..][i - 1];
      }
    }
  }

  /** The scan's runs tile [x, width) with maximal constant-attribute segments. */
  lemma {:induction false} RunsAreMaximalSegments(row: seq<bv32>, x: nat, width: nat)
    requires x <= width <= |row|
    ensures Tiles(Runs(row, x, width), x, width)
    ensures MaximalRuns(Runs(row, x, width), row, width)
    decreases width - x
  {
    if x < width {
      var e := RunEnd(row, row[x], x, width);
      RunsAreMaximalSegments(row, e, width);
      var runs := Runs(row, x, width);
      assert runs[1..] == Runs(row, e, width);
      forall i | 0 <= i < |runs|
        ensures Constant(row, runs[i]) && Maximal(row, runs[i], width)
      {
        if i > 0 {
          assert runs[i] == Runs(row, e, width)[i - 1];
        }
      }
    }
  }

  /**
   * There is only one tiling of a row segment into maximal constant-attribute
   * runs, so the scan produces exactly the row's maximal segments.
   */
  lemma {:induction false} MaximalTilingUnique(a: seq<Run>, b: seq<Run>, row: seq<bv32>, x: nat, width: nat)
    requires width <= |row|
    requires Tiles(a, x, width) && MaximalRuns(a, row, width)
    requires Tiles(b, x, width) && MaximalRuns(b, row, width)
    ensures a == b
    decreases |a|
  {
    TilesBounded(a, x, width);
    TilesBounded(b, x, width);
    if a != [] && b != [] {
      var ra, rb := a[0], b[0];
      assert Constant(row, ra) && Maximal(row, ra, width);
      assert Constant(row, rb) && Maximal(row, rb, width);
      assert ra == rb;
      assert MaximalRuns(a[1..], row, width) by {
        forall i | 0 <= i < |a[1..]|
          ensures Constant(row, a[1..][i]) && Maximal(row, a[1..][i], width)
        {
          assert a[1..][i] == a[i + 1];
        }
      }
      assert MaximalRuns(b[1..], row, width) by {
        forall i | 0 <= i < |b[1..]|
          ensures Constant(row, b[1..][i]) && Maximal(row, b[1..][i], width)
        {
          assert b[1..][i] == b[i + 1];
        }
      }
      MaximalTilingUnique(a[1..], b[1..], row, End(ra), width);
      assert a == [ra] + a[1..] && b == [rb] + b[1..];
    }
  }

  /** The number of columns k in (lo, hi) whose attribute differs from column k - 1. */
  function Changes(row: seq<bv32>, lo: nat, hi: nat): nat
    requires lo <= hi <= |row|
    decreases hi - lo
  {
    if lo + 1 >= hi then 0
    else (if row[lo + 1] != row[lo] then 1 else 0) + Changes(row, lo + 1, hi)
  }

  /** Across one maximal run from x to e, the changes in [x, width) are the one at e plus those after it. */
  lemma {:induction false} ChangesAcrossRun(row: seq<bv32>, x: nat, e: nat, width: nat)
    requires x < e <= width <= |row|
    requires forall k :: x <= k < e ==> row[k] == row[x]
    requires e < width ==> row[e] != row[x]
    ensures Changes(row, x, width) == if e == width then 0 else 1 + Changes(row, e, width)
    decreases e - x
  {
    if x + 1 < e {
      ChangesAcrossRun(row, x + 1, e, width);
    }
  }

  /**
   * A non-empty row is painted in one run per attribute change plus one:
   * the number of draw batches is bounded by the attribute changes, not the
   * number of columns.
   */
  lemma {:induction false} RunCount(row: seq<bv32>, x: nat, width: nat)
    requires x < width <= |row|
    ensures |Runs(row, x, width)| == 1 + Changes(row, x, width)
    decreases width - x
  {
    var e := RunEnd(row, row[x], x, width);
    ChangesAcrossRun(row, x, e, width);
    if e < width {
      RunCount(row, e, width);
    }
  }

  /** The characters of the runs, in order. */
  function RunsText(chars: seq<char>, runs: seq<Run>): seq<char>
    requires forall i :: 0 <= i < |runs| ==> End(runs[i]) <= |chars|
    decreases |runs|
  {
    if runs == [] then []
    else
      var r := runs[0];
      assert End(r) <= |chars|;
      chars[r.start..End(r)] + RunsText(chars, runs[1..])
  }

  /** Putting the characters of a tiling's runs together gives back the tiled text. */
  lemma {:induction false} TilingCoversText(chars: seq<char>, runs: seq<Run>, from: nat, to: nat)
    requires Tiles(runs, from, to) && from <= to <= |chars|
    ensures forall i :: 0 <= i < |runs| ==> End(runs[i]) <= |chars|
    ensures RunsText(chars, runs) == chars[from..to]
    decreases |runs|
  {
    TilesBounded(runs, from, to);
    if runs != [] {
      var e := End(runs[0]);
      TilingCoversText(chars, runs[1..], e, to);
      assert chars[from..e] + chars[e..to] == chars[from..to];
    }
  }
}
