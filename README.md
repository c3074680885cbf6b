# box-labeler layout and autofit engine in Dafny

box-labeler prints labels: a page is divided into an optional header
band, a grid of cells and an optional footer band, and each band or cell
gets its text drawn at the largest font size that fits. This project
models the two revisions of that engine and proves what they draw and
where:

- `Sheet::draw` / `Sheet::fitText` (src/sheet.cpp), the current engine,
  with horizontal and vertical spacing between cells;
- `PageWidget::draw` / `PageWidget::fitText` (src/pagewidget.cpp), the
  older engine, without spacing, walking the grid column by column and
  skipping table cells that hold no item.

Files:

- `painting.dfy` (module `Painting`): rectangles (`QRectF` with exact
  `real` coordinates), fonts, the `drawText` command, and `Measure`, the
  stand-in for `QPainter::boundingRect`.
- `autofit.dfy` (module `Autofit`): the font-size countdown of `fitText`
  (the same body in both revisions). It has a specification function
  `FitLog`, the imperative `FitText` method proved equal to it, and
  `Render`, which maps a list of fitText calls to what the painter receives.
- `sheet.dfy` (module `SheetLayout`): the sheet, its constructor, the
  layout formulas, the list of calls `SheetCalls` in draw order, and the
  imperative `Draw` method. `Draw` is proved to produce
  `Render(SheetCalls)`. Around it are lemmas on the geometry and on the
  flat cell lookup.
- `pagewidget.dfy` (module `PageLayout`): the same pieces for the older
  widget. The table is a map from (row, column) to item text. `Slots`
  lists the items in column-major order.
- `revisions.dfy` (module `Revisions`): with zero spacing, both
  revisions place every cell, the header and the footer at the same
  rectangle.

Modelling choices:

- The painter is the returned sequence of draw commands.
- Text measurement is a function parameter.
- `qreal` is `real`.
- `static_cast<int>` is truncation toward zero (`Autofit.Trunc`).
- The number of calls made so far is ghost: a counter in the sheet's
  `Draw`, the function `Visited` in the widget's. Each loop invariant says
  the log so far is what that many first calls of the specification list
  draw.

The model follows the code in these points, which a reader might not
expect:

- When no size of the countdown fits, fitText draws nothing. It does not
  fall back to the smallest size.
- The header shifts the data rows by one cell height. It leaves no
  spacing gap after the header.
- The data rows are shifted by `rect.top` twice: once through the offset
  variable and once in the cell formula. The grid tiles the page only when
  `rect.top` is 0. `RowLayout` and `BandLayout` state the shift.
- The font-size choice is not monotone in the rectangle height. Because
  the countdown steps by 2, it keeps the parity of the starting size.
  `Autofit.TallerRectCanDrawNothing` shows a taller rectangle in which
  nothing is drawn, and `Autofit.TallerRectCanChooseSmaller` one that
  gets a smaller size. `Autofit.LargerRectChoosesNearlyAsLarge` proves the
  weaker statement that does hold.
- The sheet's cells are read at `i + j * colCount` from the flat store.
  For a 2 x 2 store `[a, b, c, d]`, the cells are drawn as a, c, b, d.
  The lookup stays in range only when `colCount <= rowCount`, and no two
  grid cells share a store entry only when `rowCount <= colCount` or there
  is one column. `Draw` therefore requires every lookup to be in range.
- The headers declare some things the .cpp files lack. `src/sheet.h`
  declares a nested cell store and a fitText without a font.
  `src/pagewidget.h` declares a `spacing` parameter. The model follows the
  .cpp bodies.

## Model

| member | source | states |
|---|---|---|
| Autofit.Trunc | src/sheet.cpp:110 | the starting size is the height truncated toward zero: for a non-negative height it is the largest integer not above it, for a negative one the smallest integer not below it |
| Autofit.Tried | src/sheet.cpp:110 | the sizes the countdown visits: from the start size down in steps of 2 while positive; stated by FirstFitIsFirst and CountdownStopsNear |
| Autofit.Fits | src/sheet.cpp:115-119 | the fit test: the bounding rectangle measured at a size is no wider and no taller than the cell; stated by FirstFitIsFirst and FitLogMeaning |
| Autofit.FirstFit | src/sheet.cpp:110-122 | the size the countdown from a start size stops at, or none; its meaning is stated by FirstFitIsFirst |
| Autofit.FitLog | src/sheet.cpp:101-124 | what one fitText call draws, specified through FirstFit from the truncated height; its meaning is stated by FitLogMeaning |
| Autofit.FirstFitIsFirst | src/sheet.cpp:110-122 | the countdown from a start size stops at a size it tries, that size fits, and no larger size it tries fits; when it stops without a size, no size it tries fits |
| Autofit.FitLogMeaning | src/sheet.cpp:101-124 | fitText draws at most once. It draws nothing exactly when no tried size fits, and always when the rectangle is less than 1 tall. Otherwise it draws the text once, VCenter, in the given rectangle, at a positive size no larger than the height. That size is the largest tried size that fits. |
| Autofit.FitText | src/sheet.cpp:101-124 | the countdown loop with its early return draws exactly what FitLog specifies (the same body is src/pagewidget.cpp:157-180) |
| Autofit.Render | src/sheet.cpp:58-95 | a sequence of fitText calls draws at most one command per call |
| Autofit.RenderPrefix | src/sheet.cpp:73-83 | making call k after calls 0..k-1 appends that call's drawing |
| Autofit.RenderAppend | src/sheet.cpp:58-95 | drawing two call lists in turn draws the first then the second |
| Autofit.RenderAllFit | src/sheet.cpp:58-95 | when every call finds a fitting size, the painter gets exactly one command per call, in call order, with that call's rectangle and text |
| Autofit.RenderNoneFit | src/sheet.cpp:58-95 | when no call finds a fitting size, the painter gets nothing |
| Autofit.CountdownStopsNear | src/sheet.cpp:110-122 | if a size fits and every smaller size fits, the countdown stops at that size less one or above, except when that size is 1 and the countdown runs through even sizes |
| Autofit.LargerRectChoosesNearlyAsLarge | src/sheet.cpp:110-122 | a rectangle at least as tall, in which everything that fits the smaller one fits, chooses a size at most one below the smaller one's. It can draw nothing only when the smaller chose size 1 and the larger counts down through even sizes. |
| Autofit.TallerRectCanChooseSmaller | src/sheet.cpp:101-124 | the step-2 countdown can give a taller rectangle a smaller size: with sizes up to 7 fitting the width, fitText in a 7.5 x 9 rectangle draws once at size 7 and in a 7.5 x 10 one draws once at size 6 |
| Autofit.TallerRectCanDrawNothing | src/sheet.cpp:110 | the step-2 countdown is not monotone: text drawn in a 1.5 x 9 rectangle is not drawn in a 1.5 x 10 one |
| SheetLayout.NewSheet | src/sheet.cpp:27-34 | the default-constructed sheet: no texts, portrait, zero spacing, zero rows and columns, empty store; stated by NewSheetDrawsNothing |
| SheetLayout.HasHeader | src/sheet.cpp:38 | hasHeader: header text is non-empty; stated by SheetCallsOrder (the header call comes first) and BandsAndCalls |
| SheetLayout.HasFooter | src/sheet.cpp:39 | hasFooter: footer text is non-empty; stated by SheetCallsOrder (the footer call comes last) and BandsAndCalls |
| SheetLayout.Drawable | src/sheet.cpp:42-44 | the early return: draw does nothing unless there is a row and a column; stated by Draw and NewSheetDrawsNothing |
| SheetLayout.DrawRowCount | src/sheet.cpp:47 | drawRowCount, the bands: the rows plus a header band and a footer band when present; stated by BandsFillHeight and BandsAndCalls |
| SheetLayout.CellWidth | src/sheet.cpp:51 | cellWidth, the page width less colCount - 1 spacings, split among the columns; stated by ColumnsFillWidth |
| SheetLayout.CellHeight | src/sheet.cpp:52 | cellHeight, the page height less drawRowCount - 1 spacings, split among the bands; stated by BandsFillHeight |
| SheetLayout.VOffset | src/sheet.cpp:50-66 | vOffset after the header: rect.top, plus cellHeight when there is a header; stated by RowLayout |
| SheetLayout.CellRectAt | src/sheet.cpp:76-81 | the rectangle draw builds for cell (i, j) from the cell size, the spacing and vOffset; stated by ColumnLayout and RowLayout |
| SheetLayout.HeaderRect | src/sheet.cpp:63 | the header band; stated by BandLayout |
| SheetLayout.FooterRect | src/sheet.cpp:92 | the footer band; stated by BandLayout |
| SheetLayout.CellIndex | src/sheet.cpp:72 | the store position i + j * colCount read for cell (i, j); stated by CellIndicesInRangeIff and CellIndexInjectiveIff |
| SheetLayout.SheetCalls | src/sheet.cpp:58-95 | the fitText calls of one draw in order; stated by SheetCallsOrder and SheetCallAt |
| SheetLayout.NewSheetDrawsNothing | src/sheet.cpp:27-34 | the default sheet has 0 rows, 0 columns, no spacing, portrait orientation, no header or footer, and draws nothing |
| SheetLayout.RowCalls | src/sheet.cpp:71-84 | row i makes one call per column |
| SheetLayout.RowCallsAt | src/sheet.cpp:71-84 | within a row, call j is the call for column j |
| SheetLayout.GridCalls | src/sheet.cpp:70-85 | the cell calls of the first n rows, rows outer and columns inner; stated by GridCallsLength and GridCallsAt |
| SheetLayout.GridCallsLength | src/sheet.cpp:70-85 | n rows make n * colCount calls |
| SheetLayout.GridCallsAt | src/sheet.cpp:70-85 | cell (i, j) is grid call i * colCount + j: rows outer, columns inner |
| SheetLayout.RowStartIs | src/sheet.cpp:58-85 | row i starts after the header call and i full rows |
| SheetLayout.RowStartMonotone | src/sheet.cpp:70-85 | later rows start later in the call order |
| SheetLayout.SheetCallsEnds | src/sheet.cpp:58-95 | the calls are the header (if any) first, the rows, and the footer (if any) last |
| SheetLayout.SheetCallsOrder | src/sheet.cpp:58-95 | a drawable sheet makes header? + rowCount * colCount + footer? calls, header first and footer last |
| SheetLayout.BandsAndCalls | src/sheet.cpp:47-95 | one draw makes drawRowCount + rowCount * (colCount - 1) calls: one per header or footer band and colCount per row band |
| SheetLayout.SheetCallAt | src/sheet.cpp:70-85 | cell (i, j) is call header? + i * colCount + j, with its rectangle and the text of store entry i + j * colCount |
| SheetLayout.HeaderDrawn | src/sheet.cpp:59-67 | drawing the header makes call 0 |
| SheetLayout.CellDrawn | src/sheet.cpp:72-83 | drawing cell (i, j) makes the next call of the list |
| SheetLayout.FooterDrawn | src/sheet.cpp:88-95 | drawing the footer (or nothing, without one) completes the list |
| SheetLayout.Draw | src/sheet.cpp:36-99 | draw's log is exactly what the call list draws, and it is empty when rowCount or colCount is 0 |
| SheetLayout.ColumnsFillWidth | src/sheet.cpp:51 | colCount * cellWidth + (colCount - 1) * hSpacing is the page width |
| SheetLayout.BandsFillHeight | src/sheet.cpp:47-52 | drawRowCount * cellHeight + (drawRowCount - 1) * vSpacing is the page height |
| SheetLayout.ColumnLayout | src/sheet.cpp:77-80 | column j starts at left + j * (cellWidth + hSpacing) and is cellWidth wide. The first column starts at the left edge, neighbours are hSpacing apart, and the last column ends at the right edge. |
| SheetLayout.RowLayout | src/sheet.cpp:50-78 | row i is at 2 * top + (header? + i) * cellHeight + i * vSpacing and is cellHeight tall. Rows are vSpacing apart. The first row sits rect.top below the header, with no gap; without a header it starts at 2 * top. |
| SheetLayout.BandLayout | src/sheet.cpp:59-94 | the header is (left, top, width, cellHeight); the footer is full width, cellHeight tall, ending at the page bottom, and placed relative to the last row with the double top |
| SheetLayout.CellIndicesInRangeIff | src/sheet.cpp:72 | with a store of rowCount * colCount cells, every lookup i + j * colCount is in range iff colCount <= rowCount |
| SheetLayout.CellIndexInjectiveIff | src/sheet.cpp:72 | distinct grid cells read distinct store entries iff rowCount <= colCount or colCount == 1 |
| SheetLayout.TwoByTwoExample | src/sheet.cpp:70-85 | the 2 x 2 sheet on a 400 x 300 page draws four 200 x 150 cells row by row at (0,0), (200,0), (0,150), (200,150), reading the store as a, c, b, d |
| PageLayout.HasHeader | src/pagewidget.cpp:95 | hasHeader: the header edit's text is non-empty; stated by PageCallsOrder (the header call comes first) |
| PageLayout.HasFooter | src/pagewidget.cpp:96 | hasFooter: the footer edit's text is non-empty; stated by PageCallsOrder (the footer call comes last) |
| PageLayout.NumRows | src/pagewidget.cpp:99-101 | numRows, the bands: the table rows plus a header band and a footer band when present; stated by BandsFillHeight |
| PageLayout.CellWidth | src/pagewidget.cpp:105 | cellWidth, the page width split among the columns; stated by ColumnsFillWidth |
| PageLayout.CellHeight | src/pagewidget.cpp:106 | cellHeight, the page height split among the numRows bands; stated by BandsFillHeight |
| PageLayout.Offset | src/pagewidget.cpp:104-120 | offset after the header: rect.top, plus cellHeight when there is a header; stated by CellLayout and BandLayout |
| PageLayout.CellRectAt | src/pagewidget.cpp:131-136 | the rectangle draw builds for column i, row j from the cell size and offset; stated by CellLayout |
| PageLayout.HeaderRect | src/pagewidget.cpp:117 | the header band; stated by BandLayout |
| PageLayout.FooterRect | src/pagewidget.cpp:148 | the footer band; stated by BandLayout |
| PageLayout.ColumnSlots | src/pagewidget.cpp:125-127 | the items of one column that draw visits, top to bottom; stated by ColumnSlotsExact |
| PageLayout.Slots | src/pagewidget.cpp:124-127 | the items draw visits, column by column; stated by SlotsExact |
| PageLayout.PageCalls | src/pagewidget.cpp:113-151 | the fitText calls of one draw in order; stated by PageCallsOrder |
| PageLayout.ColumnSlotsExact | src/pagewidget.cpp:125-139 | the items listed for a column are the table's items in that column in rows 0..n-1. Every such item is listed, top to bottom. |
| PageLayout.SlotsExact | src/pagewidget.cpp:124-141 | the items listed are exactly the table's items inside the grid, each once, in column-major order; cells without an item are skipped |
| PageLayout.ColumnSlotsGrow | src/pagewidget.cpp:125-139 | taking more rows only appends to a column's items |
| PageLayout.SlotsGrow | src/pagewidget.cpp:124-141 | taking more columns only appends to the grid's items |
| PageLayout.SlotCalls | src/pagewidget.cpp:124-141 | one call per listed item |
| PageLayout.SlotCallsAt | src/pagewidget.cpp:128-137 | the call for item k is at the item's cell with the item's text |
| PageLayout.CallsWithLength | src/pagewidget.cpp:113-151 | draw makes header? + items + footer? calls |
| PageLayout.CallsWithAt | src/pagewidget.cpp:124-141 | call header? + k is the call for item k |
| PageLayout.PageCallsOrder | src/pagewidget.cpp:113-151 | the header call comes first at (left, top, width, cellHeight). Then comes one call per item, in column-major order, at its cell. The footer call comes last, at (left, bottom - cellHeight, width, cellHeight). |
| PageLayout.VisitedIs | src/pagewidget.cpp:124-141 | on reaching column i, row j, draw has made the header call and one call per item listed before that cell |
| PageLayout.SlotVisited | src/pagewidget.cpp:126-127 | visiting a cell lists its item, if any, next |
| PageLayout.ItemListedAt | src/pagewidget.cpp:126-139 | the item at column i, row j is listed right after the items before that cell |
| PageLayout.ItemCallAt | src/pagewidget.cpp:126-139 | a cell holding an item makes the next call, at the cell's rectangle with the item's text |
| PageLayout.NoItemNoCall | src/pagewidget.cpp:126-127 | a cell with no item makes no call |
| PageLayout.HeaderDrawn | src/pagewidget.cpp:112-121 | drawing the header, if there is one, makes call 0 |
| PageLayout.ItemDrawn | src/pagewidget.cpp:126-139 | drawing an item draws the next call of the list |
| PageLayout.ItemSkipped | src/pagewidget.cpp:126-127 | skipping an empty cell leaves the log as the calls so far draw it |
| PageLayout.ColumnDone | src/pagewidget.cpp:124-141 | the end of column i is the start of column i + 1 |
| PageLayout.FooterDrawn | src/pagewidget.cpp:143-151 | drawing the footer (or nothing, without one) completes the list |
| PageLayout.Draw | src/pagewidget.cpp:93-155 | draw's log is exactly what the call list draws |
| PageLayout.ColumnsFillWidth | src/pagewidget.cpp:105 | with at least one column, columnCount * cellWidth is the page width |
| PageLayout.BandsFillHeight | src/pagewidget.cpp:99-106 | with at least one band, numRows * cellHeight is the page height |
| PageLayout.CellLayout | src/pagewidget.cpp:131-136 | cell (i, j) is cellWidth x cellHeight at left + i * cellWidth, 2 * top + (header? + j) * cellHeight. Neighbouring columns and rows touch. |
| PageLayout.LastColumnEndsAtRight | src/pagewidget.cpp:105-133 | the last column ends at the page's right edge |
| PageLayout.BandLayout | src/pagewidget.cpp:104-148 | the header is (left, top, width, cellHeight) and the first row's offset is its bottom. The footer is full width, cellHeight tall, ending at the page bottom, and starts rect.top above the last row's bottom. |
| PageLayout.NoItemsNoSlots | src/pagewidget.cpp:126-127 | a table with no items lists none |
| PageLayout.NoItemsNoColumnSlots | src/pagewidget.cpp:126-127 | a column with no items lists none |
| PageLayout.NoItemsOnlyBands | src/pagewidget.cpp:113-151 | with no items only the header and footer are drawn |
| PageLayout.TwoByTwoExample | src/pagewidget.cpp:124-141 | a 2 x 2 table with the cell at row 1, column 1 empty, on a 400 x 300 page: the three items are drawn column by column at their 200 x 150 cells |
| Revisions.ZeroSpacingMatchesPageWidget | src/sheet.cpp:47-94 | with zero spacing, sheet cell (row i, column j) is the old widget's cell (column j, row i) of src/pagewidget.cpp:99-148, and the header and footer bands agree |

## Left out

- The rest of the program is not part of this model: windows, dialogs,
  the preview, printing, the queue's worker thread (src/mainwindow.cpp,
  src/sheetwidget.cpp, src/queuewidget.cpp) and the `PageWidget`
  constructor's widget wiring. All of it is GUI or threading around the
  engine.
- The QPainter itself (begin/end, setFont) is not modelled. The log
  records each `drawText` with the font in effect at the time.
- Qt's text metrics are not modelled. `boundingRect` is the `Measure`
  parameter, and font families and page-size/DPI conversion are left out.
- qreal rounding is not modelled; arithmetic is exact over `real`.
- In the older widget, division by zero is not modelled. With no columns
  `cellWidth` is never read, and with no bands nothing is drawn, so 0.0
  stands in for those quotients. Draw needs no precondition for them.
- The sheet's row and column counts are natural numbers (they come from
  spin boxes with minimum 0). Negative counts, which the `int` fields
  would allow, are not modelled.
- `static_cast<int>` overflow for heights beyond the int range is not
  modelled.
- The int products `hSpacing * (colCount - 1)` and
  `vSpacing * (drawRowCount - 1)` (src/sheet.cpp:51-52) are computed
  without bounds; their overflow is not modelled.
- `Sheet::cell`, `setRows` and `setCols` are declared in src/sheet.h but
  have no bodies in the files shown. They are not part of this model, so
  the sheet's store is a given sequence. The sheet's border, margin and
  copies fields are left out: neither `Sheet::Sheet` nor `Sheet::draw` sets
  or reads them.
- SheetLayout.Draw requires every lookup `i + j * colCount` to be in range:
  an out-of-range `cells.at` has no defined result.
