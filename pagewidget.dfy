// The older layout engine, PageWidget::draw in src/pagewidget.cpp: the same
// header band, grid and footer band as the current one but with no spacing,
// the grid walked column by column, and a table cell drawn only when it holds
// an item. The font is a parameter of draw here, not a field of the page.
//
// As in the current engine, the data rows are offset by rect.top twice (once
// through `offset`, once in the cell formula).

module PageLayout {
  import opened Painting
  import opened Autofit

  /** The QTableWidget: its dimensions and the items it holds, keyed by
      (row, column) as item(row, column) looks them up. A cell without an
      item is a null item. */
  datatype Table = Table(rowCount: nat, columnCount: nat, items: map<(int, int), string>)

  /** The header and footer line edits and the table. */
  datatype Page = Page(headerText: string, footerText: string, table: Table)

  predicate HasHeader(p: Page) { p.headerText != [] }

  predicate HasFooter(p: Page) { p.footerText != [] }

  function HeaderCount(p: Page): nat { if HasHeader(p) then 1 else 0 }

  /** numRows: the table rows plus the header and footer bands. */
  function NumRows(p: Page): nat {
    p.table.rowCount + HeaderCount(p) + (if HasFooter(p) then 1 else 0)
  }

  /** cellWidth, the page width split evenly among the columns. With no
      columns Qt divides by zero; the value is then never read, and 0.0
      stands in for it. */
  function CellWidth(p: Page, rect: Rect): real {
    if p.table.columnCount == 0 then 0.0 else rect.width / p.table.columnCount as real
  }

  /** cellHeight, the page height split evenly among the bands. With no
      bands Qt divides by zero; the value is then never read, and 0.0
      stands in for it. */
  function CellHeight(p: Page, rect: Rect): real {
    if NumRows(p) == 0 then 0.0 else rect.height / NumRows(p) as real
  }

  /** offset once the header has been drawn. */
  function Offset(p: Page, rect: Rect): real {
    rect.top + (if HasHeader(p) then CellHeight(p, rect) else 0.0)
  }

  /** The numbers draw works out before the grid: the cell size and the
      offset of the first table row. */
  datatype Metrics = Metrics(cellWidth: real, cellHeight: real, offset: real)

  function PageMetrics(p: Page, rect: Rect): Metrics {
    Metrics(CellWidth(p, rect), CellHeight(p, rect), Offset(p, rect))
  }

  /** The rectangle draw gives table column i, row j. */
  function CellRectAt(rect: Rect, m: Metrics, i: int, j: int): Rect {
    Rect(rect.left + i as real * m.cellWidth, rect.top + m.offset + j as real * m.cellHeight,
         m.cellWidth, m.cellHeight)
  }

  function CellRect(p: Page, rect: Rect, i: int, j: int): Rect {
    CellRectAt(rect, PageMetrics(p, rect), i, j)
  }

  /** The header band: full width, one cell tall, at the top of the page. */
  function HeaderRect(p: Page, rect: Rect): Rect { TopBand(rect, CellHeight(p, rect)) }

  /** The footer band: full width, one cell tall, ending at the bottom of
      the page. */
  function FooterRect(p: Page, rect: Rect): Rect { BottomBand(rect, CellHeight(p, rect)) }

  /** A table cell that holds an item: its column, its row and its text. */
  datatype Slot = Slot(col: int, row: int, text: string)

  /** The item at column `col`, row `row`, if there is one. */
  function SlotAt(t: Table, col: int, row: int): seq<Slot> {
    if (row, col) in t.items then [Slot(col, row, t.items[(row, col)])] else []
  }

  /** The items of rows 0 .. n-1 of column `col`, top to bottom. */
  function ColumnSlots(t: Table, col: int, n: nat): seq<Slot> {
    if n == 0 then [] else ColumnSlots(t, col, n - 1) + SlotAt(t, col, n - 1)
  }

  /** The items of columns 0 .. n-1, column by column. */
  function Slots(t: Table, n: nat): seq<Slot> {
    if n == 0 then [] else Slots(t, n - 1) + ColumnSlots(t, n - 1, t.rowCount)
  }

  /** Column-major order: `a` comes strictly before `b`. */
  predicate Before(a: Slot, b: Slot) {
    a.col < b.col || (a.col == b.col && a.row < b.row)
  }

  /** The fitText call for one item. */
  function SlotCall(rect: Rect, m: Metrics, slot: Slot): Call {
    Call(CellRectAt(rect, m, slot.col, slot.row), slot.text)
  }

  function SlotCalls(rect: Rect, m: Metrics, slots: seq<Slot>): (calls: seq<Call>)
    ensures |calls| == |slots|
  {
    if slots == [] then []
    else SlotCalls(rect, m, slots[..|slots| - 1]) + [SlotCall(rect, m, slots[|slots| - 1])]
  }

  function HeaderCalls(p: Page, rect: Rect, m: Metrics): seq<Call> {
    if HasHeader(p) then [Call(TopBand(rect, m.cellHeight), p.headerText)] else []
  }

  function FooterCalls(p: Page, rect: Rect, m: Metrics): seq<Call> {
    if HasFooter(p) then [Call(BottomBand(rect, m.cellHeight), p.footerText)] else []
  }

  /** The fitText calls of one draw with the given metrics, in order. */
  function CallsWith(p: Page, rect: Rect, m: Metrics): seq<Call> {
    HeaderCalls(p, rect, m) + SlotCalls(rect, m, Slots(p.table, p.table.columnCount)) + FooterCalls(p, rect, m)
  }

  /** Every fitText call of one draw, in the order draw makes them. */
  function PageCalls(p: Page, rect: Rect): seq<Call> {
    CallsWith(p, rect, PageMetrics(p, rect))
  }

  // ---------------------------------------------------------------------
  // The items draw visits.

  /** The table holds `slot`'s text at `slot`'s row and column. */
  predicate Holds(t: Table, slot: Slot) {
    (slot.row, slot.col) in t.items && t.items[(slot.row, slot.col)] == slot.text
  }

  /** The items listed for column `col` are items of the table in that
      column, in rows 0 .. n-1; every such item is listed; and they are
      listed top to bottom. */
  lemma {:induction false} ColumnSlotsExact(t: Table, col: int, n: nat)
    ensures forall k :: 0 <= k < |ColumnSlots(t, col, n)| ==>
      ColumnSlots(t, col, n)[k].col == col && 0 <= ColumnSlots(t, col, n)[k].row < n
      && Holds(t, ColumnSlots(t, col, n)[k])
    ensures forall row :: 0 <= row < n && (row, col) in t.items ==>
      Slot(col, row, t.items[(row, col)]) in ColumnSlots(t, col, n)
    ensures forall k1, k2 :: 0 <= k1 < k2 < |ColumnSlots(t, col, n)| ==>
      ColumnSlots(t, col, n)[k1].row < ColumnSlots(t, col, n)[k2].row
    decreases n
  {
    if n > 0 {
      ColumnSlotsExact(t, col, n - 1);
      var before := ColumnSlots(t, col, n - 1);
      var here := SlotAt(t, col, n - 1);
      var slots := before + here;
      forall k | 0 <= k < |slots|
        ensures slots[k].col == col && 0 <= slots[k].row < n && Holds(t, slots[k])
      {
        if k >= |before| {
          assert slots[k] == here[0];
        } else {
          assert slots[k] == before[k];
        }
      }
      forall k1, k2 | 0 <= k1 < k2 < |slots|
        ensures slots[k1].row < slots[k2].row
      {
        if k2 >= |before| {
          assert slots[k2] == here[0];
          assert slots[k1] == before[k1];
        } else {
          assert slots[k1] == before[k1] && slots[k2] == before[k2];
        }
      }
    }
  }

  /** The items listed for columns 0 .. n-1 are exactly the table's items
      in those columns and in rows 0 .. rowCount-1, each listed once, in
      column-major order. */
  lemma {:induction false} SlotsExact(t: Table, n: nat)
    ensures forall k :: 0 <= k < |Slots(t, n)| ==>
      0 <= Slots(t, n)[k].col < n && 0 <= Slots(t, n)[k].row < t.rowCount && Holds(t, Slots(t, n)[k])
    ensures forall col, row :: 0 <= col < n && 0 <= row < t.rowCount && (row, col) in t.items ==>
      Slot(col, row, t.items[(row, col)]) in Slots(t, n)
    ensures forall k1, k2 :: 0 <= k1 < k2 < |Slots(t, n)| ==> Before(Slots(t, n)[k1], Slots(t, n)[k2])
    decreases n
  {
    if n > 0 {
      SlotsExact(t, n - 1);
      ColumnSlotsExact(t, n - 1, t.rowCount);
      var before := Slots(t, n - 1);
      var column := ColumnSlots(t, n - 1, t.rowCount);
      var slots := before + column;
      forall k | 0 <= k < |slots|
        ensures 0 <= slots[k].col < n && 0 <= slots[k].row < t.rowCount && Holds(t, slots[k])
      {
        if k >= |before| {
          assert slots[k] == column[k - |before|];
        } else {
          assert slots[k] == before[k];
        }
      }
      forall k1, k2 | 0 <= k1 < k2 < |slots|
        ensures Before(slots[k1], slots[k2])
      {
        if k1 >= |before| {
          assert slots[k1] == column[k1 - |before|];
          assert slots[k2] == column[k2 - |before|];
        } else if k2 >= |before| {
          assert slots[k1] == before[k1];
          assert slots[k2] == column[k2 - |before|];
        } else {
          assert slots[k1] == before[k1] && slots[k2] == before[k2];
        }
      }
      forall col, row | 0 <= col < n && 0 <= row < t.rowCount && (row, col) in t.items
        ensures Slot(col, row, t.items[(row, col)]) in slots
      {
        if col < n - 1 {
          assert Slot(col, row, t.items[(row, col)]) in before;
        } else {
          assert Slot(col, row, t.items[(row, col)]) in column;
        }
      }
    }
  }

  /** Growing n only appends to the items of a column. */
  lemma {:induction false} ColumnSlotsGrow(t: Table, col: int, m: nat, n: nat)
    requires m <= n
    ensures ColumnSlots(t, col, m) <= ColumnSlots(t, col, n)
    decreases n
  {
    if m < n {
      ColumnSlotsGrow(t, col, m, n - 1);
    }
  }

  /** Growing n only appends to the items of the grid. */
  lemma {:induction false} SlotsGrow(t: Table, m: nat, n: nat)
    requires m <= n
    ensures Slots(t, m) <= Slots(t, n)
    decreases n
  {
    if m < n {
      SlotsGrow(t, m, n - 1);
    }
  }

  /** The calls for a list of items are the item calls, one by one. */
  lemma {:induction false} SlotCallsAt(rect: Rect, m: Metrics, slots: seq<Slot>, k: int)
    requires 0 <= k < |slots|
    ensures SlotCalls(rect, m, slots)[k] == SlotCall(rect, m, slots[k])
    decreases |slots|
  {
    if k < |slots| - 1 {
      SlotCallsAt(rect, m, slots[..|slots| - 1], k);
    }
  }

  /** The number of calls: header, items, footer. */
  lemma CallsWithLength(p: Page, rect: Rect, m: Metrics)
    ensures |CallsWith(p, rect, m)|
         == HeaderCount(p) + |Slots(p.table, p.table.columnCount)| + (if HasFooter(p) then 1 else 0)
  {
  }

  /** Call HeaderCount + k is the call for item k. */
  lemma CallsWithAt(p: Page, rect: Rect, m: Metrics, k: int)
    requires 0 <= k < |Slots(p.table, p.table.columnCount)|
    ensures HeaderCount(p) + k < |CallsWith(p, rect, m)|
    ensures CallsWith(p, rect, m)[HeaderCount(p) + k] == SlotCall(rect, m, Slots(p.table, p.table.columnCount)[k])
  {
    var slots := Slots(p.table, p.table.columnCount);
    SlotCallsAt(rect, m, slots, k);
    var calls := CallsWith(p, rect, m);
    var middle := SlotCalls(rect, m, slots);
    assert calls == HeaderCalls(p, rect, m) + middle + FooterCalls(p, rect, m);
    assert calls[HeaderCount(p) + k] == middle[k];
  }

  /** The calls of one draw: the header call first, when there is a header;
      then one call per listed item, in the order of Slots, at the item's
      cell; then the footer call last, when there is a footer. */
  lemma PageCallsOrder(p: Page, rect: Rect)
    ensures |PageCalls(p, rect)|
         == HeaderCount(p) + |Slots(p.table, p.table.columnCount)| + (if HasFooter(p) then 1 else 0)
    ensures HasHeader(p) ==> PageCalls(p, rect)[0] == Call(HeaderRect(p, rect), p.headerText)
    ensures forall k :: 0 <= k < |Slots(p.table, p.table.columnCount)| ==>
      PageCalls(p, rect)[HeaderCount(p) + k]
      == Call(CellRect(p, rect, Slots(p.table, p.table.columnCount)[k].col, Slots(p.table, p.table.columnCount)[k].row),
              Slots(p.table, p.table.columnCount)[k].text)
    ensures HasFooter(p) ==>
      PageCalls(p, rect)[|PageCalls(p, rect)| - 1] == Call(FooterRect(p, rect), p.footerText)
  {
    var m := PageMetrics(p, rect);
    CallsWithLength(p, rect, m);
    forall k | 0 <= k < |Slots(p.table, p.table.columnCount)|
      ensures PageCalls(p, rect)[HeaderCount(p) + k] == SlotCall(rect, m, Slots(p.table, p.table.columnCount)[k])
    {
      CallsWithAt(p, rect, m, k);
    }
  }

  // ---------------------------------------------------------------------
  // draw.

  /** On reaching column i, row j, the log holds what the calls made so
      far draw. */
  ghost predicate DrawnUpTo(measure: Measure, font: Font, p: Page, rect: Rect, m: Metrics,
                            i: nat, j: nat, log: seq<DrawCommand>)
  {
    && Visited(p, i, j) <= |CallsWith(p, rect, m)|
    && log == Render(measure, font, CallsWith(p, rect, m)[..Visited(p, i, j)])
  }

  /** Drawing the header, if there is one, makes call 0. */
  lemma HeaderDrawn(measure: Measure, font: Font, p: Page, rect: Rect, m: Metrics, drawn: seq<DrawCommand>)
    requires drawn == if HasHeader(p) then FitLog(measure, font, TopBand(rect, m.cellHeight), p.headerText) else []
    ensures DrawnUpTo(measure, font, p, rect, m, 0, 0, drawn)
  {
    CallsWithLength(p, rect, m);
    if HasHeader(p) {
      RenderPrefix(measure, font, CallsWith(p, rect, m), 0);
    }
  }

  /** The items listed before reaching column i, row j. */
  function SlotsBefore(t: Table, i: nat, j: nat): seq<Slot> {
    Slots(t, i) + ColumnSlots(t, i, j)
  }

  /** Visiting column i, row j lists the item there, if any, next. */
  lemma SlotVisited(t: Table, i: nat, j: nat)
    requires i < t.columnCount && j < t.rowCount
    ensures SlotsBefore(t, i, j + 1) == SlotsBefore(t, i, j) + SlotAt(t, i, j)
    ensures SlotsBefore(t, i, j + 1) <= Slots(t, t.columnCount)
  {
    SlotsGrow(t, i + 1, t.columnCount);
    ColumnSlotsGrow(t, i, j + 1, t.rowCount);
  }

  /** The number of calls draw has made on reaching column i, row j:
      the header call, then one call per item visited. */
  function Visited(p: Page, i: nat, j: nat): nat
    decreases i, j
  {
    if j > 0 then Visited(p, i, j - 1) + |SlotAt(p.table, i, j - 1)|
    else if i > 0 then Visited(p, i - 1, p.table.rowCount)
    else HeaderCount(p)
  }

  /** The calls made on reaching column i, row j are the header call and
      the calls for the items listed before that cell. */
  lemma {:induction false} VisitedIs(p: Page, i: nat, j: nat)
    requires j <= p.table.rowCount
    ensures Visited(p, i, j) == HeaderCount(p) + |SlotsBefore(p.table, i, j)|
    decreases i, j
  {
    if j > 0 {
      VisitedIs(p, i, j - 1);
    } else if i > 0 {
      VisitedIs(p, i - 1, p.table.rowCount);
    }
  }

  /** The call made at column i, row j, when the cell holds an item, is the
      item's call, and it is the next one. */
  lemma ItemCallAt(p: Page, rect: Rect, m: Metrics, i: nat, j: nat)
    requires i < p.table.columnCount && j < p.table.rowCount
    requires (j, i) in p.table.items
    ensures Visited(p, i, j + 1) == Visited(p, i, j) + 1 <= |CallsWith(p, rect, m)|
    ensures CallsWith(p, rect, m)[Visited(p, i, j)]
         == Call(CellRectAt(rect, m, i, j), p.table.items[(j, i)])
  {
    ItemListedAt(p.table, i, j);
    VisitedIs(p, i, j);
    VisitedIs(p, i, j + 1);
    CallsWithAt(p, rect, m, |SlotsBefore(p.table, i, j)|);
  }

  /** The item at column i, row j is listed right after the items before
      that cell. */
  lemma ItemListedAt(t: Table, i: nat, j: nat)
    requires i < t.columnCount && j < t.rowCount
    requires (j, i) in t.items
    ensures |SlotsBefore(t, i, j + 1)| == |SlotsBefore(t, i, j)| + 1
    ensures |SlotsBefore(t, i, j)| < |Slots(t, t.columnCount)|
    ensures Slots(t, t.columnCount)[|SlotsBefore(t, i, j)|] == Slot(i, j, t.items[(j, i)])
  {
    SlotVisited(t, i, j);
    var k := |SlotsBefore(t, i, j)|;
    assert SlotsBefore(t, i, j + 1)[k] == Slot(i, j, t.items[(j, i)]);
  }

  /** A cell without an item makes no call. */
  lemma NoItemNoCall(p: Page, i: nat, j: nat)
    requires i < p.table.columnCount && j < p.table.rowCount
    requires (j, i) !in p.table.items
    ensures Visited(p, i, j + 1) == Visited(p, i, j)
  {
    SlotVisited(p.table, i, j);
    VisitedIs(p, i, j);
    VisitedIs(p, i, j + 1);
  }

  /** Visiting column i, row j draws the item there as the next call. */
  lemma ItemDrawn(measure: Measure, font: Font, p: Page, rect: Rect, m: Metrics, i: nat, j: nat,
                  log: seq<DrawCommand>, drawn: seq<DrawCommand>)
    requires i < p.table.columnCount && j < p.table.rowCount
    requires (j, i) in p.table.items
    requires DrawnUpTo(measure, font, p, rect, m, i, j, log)
    requires drawn == FitLog(measure, font, CellRectAt(rect, m, i, j), p.table.items[(j, i)])
    ensures DrawnUpTo(measure, font, p, rect, m, i, j + 1, log + drawn)
  {
    ItemCallAt(p, rect, m, i, j);
    RenderPrefix(measure, font, CallsWith(p, rect, m), Visited(p, i, j));
  }

  /** Visiting column i, row j without an item draws nothing. */
  lemma ItemSkipped(measure: Measure, font: Font, p: Page, rect: Rect, m: Metrics, i: nat, j: nat,
                    log: seq<DrawCommand>)
    requires i < p.table.columnCount && j < p.table.rowCount
    requires (j, i) !in p.table.items
    requires DrawnUpTo(measure, font, p, rect, m, i, j, log)
    ensures DrawnUpTo(measure, font, p, rect, m, i, j + 1, log)
  {
    NoItemNoCall(p, i, j);
  }

  /** The end of column i is the start of column i + 1. */
  lemma ColumnDone(measure: Measure, font: Font, p: Page, rect: Rect, m: Metrics, i: nat,
                   log: seq<DrawCommand>)
    requires DrawnUpTo(measure, font, p, rect, m, i, p.table.rowCount, log)
    ensures DrawnUpTo(measure, font, p, rect, m, i + 1, 0, log)
  {
  }

  /** Drawing the footer after the last column makes the last call;
      without a footer the last column ends the calls. */
  lemma FooterDrawn(measure: Measure, font: Font, p: Page, rect: Rect, m: Metrics,
                    log: seq<DrawCommand>, drawn: seq<DrawCommand>)
    requires DrawnUpTo(measure, font, p, rect, m, p.table.columnCount, 0, log)
    requires drawn == if HasFooter(p) then FitLog(measure, font, BottomBand(rect, m.cellHeight), p.footerText) else []
    ensures log + drawn == Render(measure, font, CallsWith(p, rect, m))
  {
    var calls := CallsWith(p, rect, m);
    var made := Visited(p, p.table.columnCount, 0);
    CallsWithLength(p, rect, m);
    VisitedIs(p, p.table.columnCount, 0);
    if HasFooter(p) {
      assert calls[made] == Call(BottomBand(rect, m.cellHeight), p.footerText);
      RenderPrefix(measure, font, calls, made);
      assert calls[..made + 1] == calls;
    } else {
      assert calls[..made] == calls;
    }
  }

  /** PageWidget::draw. The painter is the returned log of draw commands. */
  method Draw(page: Page, measure: Measure, font: Font, rect: Rect) returns (log: seq<DrawCommand>)
    ensures log == Render(measure, font, PageCalls(page, rect))
  {
    var table := page.table;
    var hasHeader := page.headerText != [];
    var hasFooter := page.footerText != [];

    var offset := rect.top;
    var cellWidth := CellWidth(page, rect);
    var cellHeight := CellHeight(page, rect);
    ghost var m := PageMetrics(page, rect);

    log := [];
    if hasHeader {
      log := FitText(measure, font, TopBand(rect, cellHeight), page.headerText);
      offset := offset + cellHeight;
    }
    HeaderDrawn(measure, font, page, rect, m, log);

    for i := 0 to table.columnCount
      invariant m == Metrics(cellWidth, cellHeight, offset)
      invariant DrawnUpTo(measure, font, page, rect, m, i, 0, log)
    {
      for j := 0 to table.rowCount
        invariant DrawnUpTo(measure, font, page, rect, m, i, j, log)
      {
        if (j, i) in table.items {
          var item := table.items[(j, i)];
          var drawn := FitText(measure, font, CellRectAt(rect, Metrics(cellWidth, cellHeight, offset), i, j), item);
          ItemDrawn(measure, font, page, rect, m, i, j, log, drawn);
          log := log + drawn;
        } else {
          ItemSkipped(measure, font, page, rect, m, i, j, log);
        }
      }
      ColumnDone(measure, font, page, rect, m, i, log);
    }

    var drawn := [];
    if hasFooter {
      drawn := FitText(measure, font, BottomBand(rect, cellHeight), page.footerText);
    }
    FooterDrawn(measure, font, page, rect, m, log, drawn);
    log := log + drawn;
  }

  // ---------------------------------------------------------------------
  // Geometry.

  /** The columns split the page width evenly. */
  lemma ColumnsFillWidth(p: Page, rect: Rect)
    requires p.table.columnCount >= 1
    ensures p.table.columnCount as real * CellWidth(p, rect) == rect.width
  {
  }

  /** The bands split the page height evenly. */
  lemma BandsFillHeight(p: Page, rect: Rect)
    requires NumRows(p) >= 1
    ensures NumRows(p) as real * CellHeight(p, rect) == rect.height
  {
  }

  /** Cell (column i, row j) is one cell in size; it starts i cell widths
      right of the page's left edge and HeaderCount + j cell heights below
      twice the page's top edge; and the next column and the next row start
      where it ends. */
  lemma CellLayout(p: Page, rect: Rect, i: int, j: int)
    ensures CellRect(p, rect, i, j).width == CellWidth(p, rect)
    ensures CellRect(p, rect, i, j).height == CellHeight(p, rect)
    ensures CellRect(p, rect, i, j).left == rect.left + i as real * CellWidth(p, rect)
    ensures CellRect(p, rect, i, j).top
         == 2.0 * rect.top + (HeaderCount(p) + j) as real * CellHeight(p, rect)
    ensures CellRect(p, rect, i + 1, j).left == CellRect(p, rect, i, j).Right()
    ensures CellRect(p, rect, i, j + 1).top == CellRect(p, rect, i, j).Bottom()
  {
    var w := CellWidth(p, rect);
    var h := CellHeight(p, rect);
    assert (HeaderCount(p) + j) as real * h == HeaderCount(p) as real * h + j as real * h;
    assert (i + 1) as real * w == i as real * w + w;
    assert (j + 1) as real * h == j as real * h + h;
  }

  /** The last column ends at the page's right edge. */
  lemma LastColumnEndsAtRight(p: Page, rect: Rect, j: int)
    requires p.table.columnCount >= 1
    ensures CellRect(p, rect, p.table.columnCount - 1, j).Right() == rect.Right()
  {
    var w := CellWidth(p, rect);
    var n: int := p.table.columnCount;
    ColumnsFillWidth(p, rect);
    assert (n - 1) as real * w + w == n as real * w;
  }

  /** The header band is the full-width top band one cell tall, and the
      rows start right below it; the footer band is the full-width band one
      cell tall ending at the page bottom, and it starts rect.top above the
      bottom of the last row. */
  lemma BandLayout(p: Page, rect: Rect)
    ensures HeaderRect(p, rect) == Rect(rect.left, rect.top, rect.width, CellHeight(p, rect))
    ensures FooterRect(p, rect).left == rect.left && FooterRect(p, rect).width == rect.width
    ensures FooterRect(p, rect).height == CellHeight(p, rect)
    ensures FooterRect(p, rect).Bottom() == rect.Bottom()
    ensures HasHeader(p) ==> Offset(p, rect) == HeaderRect(p, rect).Bottom()
    ensures HasFooter(p) ==>
      FooterRect(p, rect).top == CellRect(p, rect, 0, p.table.rowCount - 1).Bottom() - rect.top
  {
    if HasFooter(p) {
      var h := CellHeight(p, rect);
      var n := NumRows(p);
      var r: int := p.table.rowCount;
      BandsFillHeight(p, rect);
      CellLayout(p, rect, 0, r - 1);
      assert n as real * h == (HeaderCount(p) + r - 1) as real * h + h + h;
    }
  }

  /** A table with no items lists no items. */
  lemma {:induction false} NoItemsNoSlots(t: Table, n: nat)
    requires t.items == map[]
    ensures Slots(t, n) == []
    decreases n
  {
    if n > 0 {
      NoItemsNoSlots(t, n - 1);
      NoItemsNoColumnSlots(t, n - 1, t.rowCount);
    }
  }

  lemma {:induction false} NoItemsNoColumnSlots(t: Table, col: int, n: nat)
    requires t.items == map[]
    ensures ColumnSlots(t, col, n) == []
    decreases n
  {
    if n > 0 {
      NoItemsNoColumnSlots(t, col, n - 1);
    }
  }

  /** A table with no items leaves only the header and footer to draw. */
  lemma NoItemsOnlyBands(p: Page, rect: Rect)
    requires p.table.items == map[]
    ensures PageCalls(p, rect)
         == (if HasHeader(p) then [Call(HeaderRect(p, rect), p.headerText)] else [])
          + (if HasFooter(p) then [Call(FooterRect(p, rect), p.footerText)] else [])
  {
    NoItemsNoSlots(p.table, p.table.columnCount);
  }

  /** A 2 x 2 table on a 400 x 300 page with no header or footer and no
      item in row 1, column 1: the items are drawn column by column and the
      empty cell is skipped. */
  lemma TwoByTwoExample()
    ensures var p := Page([], [], Table(2, 2, map[(0, 0) := "a", (1, 0) := "b", (0, 1) := "c"]));
      PageCalls(p, Rect(0.0, 0.0, 400.0, 300.0))
      == [Call(Rect(0.0, 0.0, 200.0, 150.0), "a"),
          Call(Rect(0.0, 150.0, 200.0, 150.0), "b"),
          Call(Rect(200.0, 0.0, 200.0, 150.0), "c")]
  {
    var t := Table(2, 2, map[(0, 0) := "a", (1, 0) := "b", (0, 1) := "c"]);
    var p := Page([], [], t);
    var page := Rect(0.0, 0.0, 400.0, 300.0);
    var m := PageMetrics(p, page);
    assert m == Metrics(200.0, 150.0, 0.0);
    assert ColumnSlots(t, 0, 2) == [Slot(0, 0, "a"), Slot(0, 1, "b")];
    assert ColumnSlots(t, 1, 1) == [Slot(1, 0, "c")];
    assert ColumnSlots(t, 1, 2) == [Slot(1, 0, "c")];
    assert Slots(t, 1) == [Slot(0, 0, "a"), Slot(0, 1, "b")];
    assert Slots(t, 2) == [Slot(0, 0, "a"), Slot(0, 1, "b"), Slot(1, 0, "c")];
    var slots := Slots(t, 2);
    assert SlotCall(page, m, slots[0]) == Call(Rect(0.0, 0.0, 200.0, 150.0), "a");
    assert SlotCall(page, m, slots[1]) == Call(Rect(0.0, 150.0, 200.0, 150.0), "b");
    assert SlotCall(page, m, slots[2]) == Call(Rect(200.0, 0.0, 200.0, 150.0), "c");
    assert SlotCalls(page, m, slots[..2]) == SlotCalls(page, m, slots[..1]) + [SlotCall(page, m, slots[1])];
    assert slots[..1][..0] == [];
  }
}
