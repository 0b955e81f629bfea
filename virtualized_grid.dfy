/**
 * The virtualised grid: how many columns fit the window, how many rows the
 * list needs, which rows (with an overscan margin) are rendered for the
 * current scroll position, the items on those rows, and the blank padding
 * above and below that keeps the scroll height right.
 *
 * Window width, height and scroll offset are whole pixels given as parameters.
 */
module VirtualizedGrid {
  import opened Arith
  import opened Lists

  /** The horizontal page padding subtracted from the window width. */
  const PagePadding: int := 64

  function Max(a: int, b: int): int {
    if a < b then b else a
  }

  function Min(a: int, b: int): int {
    if a < b then a else b
  }

  /** The width the columns may use: the window less its padding, but at least one column. */
  function UsableWidth(winW: int, columnWidth: nat): (usable: int)
    ensures usable >= columnWidth
  {
    Max(winW - PagePadding, columnWidth)
  }

  /**
   * `columns`: as many whole columns as fit the usable width, at least one
   * and at most `maxColumns`.
   */
  function Columns(winW: int, columnWidth: nat, maxColumns: int): (cols: int)
    requires columnWidth > 0
    ensures maxColumns >= 1 ==> 1 <= cols <= maxColumns
    ensures maxColumns >= 1 ==> cols * columnWidth <= UsableWidth(winW, columnWidth)
    ensures maxColumns >= 1 ==> cols == maxColumns || (cols + 1) * columnWidth > UsableWidth(winW, columnWidth)
  {
    var usable := UsableWidth(winW, columnWidth);
    var raw := usable / columnWidth;
    var cols := Min(Max(1, raw), maxColumns);
    FloorDivBounds(usable, columnWidth);
    DivAtLeastOne(usable, columnWidth);
    if maxColumns >= 1 then
      MulMonotone(cols, raw, columnWidth);
      cols
    else cols
  }

  /** A width that holds one column holds at least one whole column. */
  lemma DivAtLeastOne(a: nat, b: nat)
    requires 0 < b <= a
    ensures a / b >= 1
  {
  }

  /** `Math.floor(a / b)` lies between the two multiples of b around a. */
  lemma FloorDivBounds(a: nat, b: nat)
    requires b > 0
    ensures (a / b) * b <= a < (a / b + 1) * b
  {
  }

  /** `Math.ceil(count / columns)`: the fewest rows that hold every item. */
  function TotalRows(count: nat, columns: nat): (rows: nat)
    requires columns > 0
    ensures count <= rows * columns
    ensures rows > 0 ==> (rows - 1) * columns < count
  {
    (count + columns - 1) / columns
  }

  /** `firstRow`: the row at the top of the viewport, less the overscan, but not above row 0. */
  function FirstRow(scrollY: nat, rowHeight: nat, overscan: nat): (first: nat)
    requires rowHeight > 0
    ensures first * rowHeight <= scrollY
    ensures first + overscan >= scrollY / rowHeight
  {
    FloorDivBounds(scrollY, rowHeight);
    var r := scrollY / rowHeight - overscan;
    if r <= 0 then 0
    else
      MulMonotone(r, scrollY / rowHeight, rowHeight);
      r
  }

  /**
   * `lastRow` (exclusive): the row under the bottom of the viewport plus the
   * overscan, but not past the last row.
   */
  function LastRow(totalRows: nat, scrollY: nat, winH: nat, rowHeight: nat, overscan: nat): (last: nat)
    requires rowHeight > 0
    ensures last <= totalRows
    ensures last == totalRows || scrollY + winH <= last * rowHeight
  {
    var bottom := scrollY + winH;
    var below := (bottom + rowHeight - 1) / rowHeight;
    CeilDivCovers(bottom, rowHeight);
    MulMonotone(below, below + overscan, rowHeight);
    Min(totalRows, below + overscan)
  }

  /** `Math.ceil(a / b) * b` reaches a. */
  lemma CeilDivCovers(a: nat, b: nat)
    requires b > 0
    ensures a <= ((a + b - 1) / b) * b
  {
    FloorDivBounds(a + b - 1, b);
  }

  /** The items on rows firstRow .. lastRow - 1 of a grid with `columns` columns. */
  function RowsWindow<T>(items: seq<T>, firstRow: nat, lastRow: nat, columns: nat): seq<T>
  {
    if firstRow < lastRow then Window(items, firstRow * columns, lastRow * columns) else []
  }

  /** r * c + c == (r + 1) * c. */
  lemma MulSucc(r: nat, c: nat)
    ensures r * c + c == (r + 1) * c
  {
  }

  /**
   * `visible`: walks rows firstRow .. lastRow - 1 and their columns, keeping
   * the cells that hold an item. The result is the contiguous run of items on
   * those rows, in list order; every index read is inside the list.
   */
  method Visible<T>(items: seq<T>, firstRow: nat, lastRow: nat, columns: nat) returns (visible: seq<T>)
    ensures visible == RowsWindow(items, firstRow, lastRow, columns)
    ensures |visible| <= |items|
  {
    visible := [];
    var lo := firstRow * columns;
    var r := firstRow;
    while r < lastRow
      invariant firstRow <= r
      invariant r <= lastRow || r == firstRow
      invariant visible == Window(items, lo, r * columns)
    {
      MulMonotone(firstRow, r, columns);
      for c := 0 to columns
        invariant visible == Window(items, lo, r * columns + c)
      {
        var i := r * columns + c;
        WindowExtend(items, lo, i);
        if i < |items| {
          visible := visible + [items[i]];
        }
      }
      MulSucc(r, columns);
      r := r + 1;
    }
    if firstRow >= lastRow {
      assert Window(items, lo, lo) == [];
    }
  }

  /** At most `columns` items per rendered row. */
  lemma RowsWindowSize<T>(items: seq<T>, firstRow: nat, lastRow: nat, columns: nat)
    ensures |RowsWindow(items, firstRow, lastRow, columns)| <= if firstRow < lastRow then (lastRow - firstRow) * columns else 0
  {
    if firstRow < lastRow {
      MulMonotone(firstRow, lastRow, columns);
      assert (lastRow - firstRow) * columns == lastRow * columns - firstRow * columns;
    }
  }

  /** `padTop`: the height of the rows above the rendered ones. */
  function PadTop(firstRow: nat, rowHeight: nat): nat {
    firstRow * rowHeight
  }

  /** `padBottom`: the height of the rows below the rendered ones, never negative. */
  function PadBottom(totalRows: nat, lastRow: nat, rowHeight: nat): (pad: int)
    requires lastRow <= totalRows
    ensures pad >= 0
  {
    (totalRows - lastRow) * rowHeight
  }

  /** The result of the grid maths for one viewport. */
  datatype Layout = Layout(columns: nat, totalRows: nat, firstRow: nat, lastRow: nat, padTop: nat, padBottom: nat)

  /** The whole computation, for a list of `count` items and the current viewport. */
  function GridLayout(count: nat, scrollY: nat, winH: nat, winW: int,
                      columnWidth: nat, rowHeight: nat, overscan: nat, maxColumns: nat): (g: Layout)
    requires columnWidth > 0 && rowHeight > 0 && maxColumns >= 1
    ensures 1 <= g.columns <= maxColumns
    ensures count <= g.totalRows * g.columns
    ensures g.lastRow <= g.totalRows
    ensures g.padTop <= scrollY
  {
    var columns := Columns(winW, columnWidth, maxColumns);
    var totalRows := TotalRows(count, columns);
    var firstRow := FirstRow(scrollY, rowHeight, overscan);
    var lastRow := LastRow(totalRows, scrollY, winH, rowHeight, overscan);
    Layout(columns, totalRows, firstRow, lastRow, PadTop(firstRow, rowHeight), PadBottom(totalRows, lastRow, rowHeight))
  }

  /**
   * The pads and the rendered rows add up to the height of the whole grid, so
   * the page scrolls as if every row were rendered.
   */
  lemma HeightsAddUp(count: nat, scrollY: nat, winH: nat, winW: int,
                     columnWidth: nat, rowHeight: nat, overscan: nat, maxColumns: nat)
    requires columnWidth > 0 && rowHeight > 0 && maxColumns >= 1
    requires GridLayout(count, scrollY, winH, winW, columnWidth, rowHeight, overscan, maxColumns).firstRow
          <= GridLayout(count, scrollY, winH, winW, columnWidth, rowHeight, overscan, maxColumns).lastRow
    ensures var g := GridLayout(count, scrollY, winH, winW, columnWidth, rowHeight, overscan, maxColumns);
      g.padTop + (g.lastRow - g.firstRow) * rowHeight + g.padBottom == g.totalRows * rowHeight
  {
    var g := GridLayout(count, scrollY, winH, winW, columnWidth, rowHeight, overscan, maxColumns);
    SumOfParts(g.firstRow, g.lastRow, g.totalRows, rowHeight);
  }

  /**
   * Scrolled far below a short grid, the first rendered row lies past the last
   * one, and the top padding alone is taller than the whole grid: with the
   * default sizes, three items and the page scrolled to 5000 px, the range is
   * rows 7 to 1 and the top padding is 3780 px against a 540 px grid.
   */
  lemma ScrolledPastShortGrid()
    ensures var g := GridLayout(3, 5000, 800, 1280, 320, 540, 2, 3);
      && g.firstRow == 7 && g.lastRow == 1 && g.totalRows == 1
      && g.padTop == 3780 && g.padTop > g.totalRows * 540
  {
  }

  lemma SumOfParts(a: nat, b: nat, n: nat, h: nat)
    requires a <= b <= n
    ensures a * h + (b - a) * h + (n - b) * h == n * h
  {
  }

  /**
   * The rendered rows cover the viewport: every item whose row meets the
   * visible band [scrollY, scrollY + winH) is among the rendered ones.
   */
  lemma RenderedCoversViewport(count: nat, scrollY: nat, winH: nat, winW: int,
                               columnWidth: nat, rowHeight: nat, overscan: nat, maxColumns: nat, row: nat)
    requires columnWidth > 0 && rowHeight > 0 && maxColumns >= 1
    requires row < GridLayout(count, scrollY, winH, winW, columnWidth, rowHeight, overscan, maxColumns).totalRows
    requires scrollY < (row + 1) * rowHeight && row * rowHeight < scrollY + winH
    ensures var g := GridLayout(count, scrollY, winH, winW, columnWidth, rowHeight, overscan, maxColumns);
      g.firstRow <= row < g.lastRow
  {
    var g := GridLayout(count, scrollY, winH, winW, columnWidth, rowHeight, overscan, maxColumns);
    FloorDivBounds(scrollY, rowHeight);
    if scrollY / rowHeight > row {
      MulMonotone(row + 1, scrollY / rowHeight, rowHeight);
    }
    if g.lastRow <= row {
      MulMonotone(g.lastRow, row, rowHeight);
    }
  }
}
