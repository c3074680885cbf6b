// The current layout engine, Sheet::draw in src/sheet.cpp: a header band, a
// grid of rowCount x colCount cells separated by the sheet's spacing, and a
// footer band, each sent to fitText in that order.
//
// Kept as the code has it: the data rows are offset by rect.top twice (once
// through vOffset, once in the cell formula), the header shifts the rows by
// one cell height with no spacing after it, and a cell is looked up in the
// flat store at i + j * colCount.

module SheetLayout {
  import opened Painting
  import opened Autofit

  /** One entry of the grid. */
  datatype Cell = Cell(text: string)

  datatype Orientation = Portrait | Landscape

  /** The fields of a Sheet that the constructor and draw touch. The cell
      store is flat, as `cells.at(...)` in draw reads it. */
  datatype Sheet = Sheet(
    headerText: string,
    footerText: string,
    font: Font,
    orientation: Orientation,
    hSpacing: int,
    vSpacing: int,
    rowCount: nat,
    colCount: nat,
    cells: seq<Cell>)

  /** Sheet::Sheet(); `font` is the default-constructed QFont. */
  function NewSheet(font: Font): Sheet {
    Sheet([], [], font, Portrait, 0, 0, 0, 0, [])
  }

  predicate HasHeader(s: Sheet) { s.headerText != [] }

  predicate HasFooter(s: Sheet) { s.footerText != [] }

  /** draw returns at once unless there is at least one row and one column. */
  predicate Drawable(s: Sheet) { s.rowCount != 0 && s.colCount != 0 }

  /** drawRowCount: the horizontal bands the page is divided into. */
  function DrawRowCount(s: Sheet): nat {
    s.rowCount + (if HasHeader(s) then 1 else 0) + (if HasFooter(s) then 1 else 0)
  }

  /** cellWidth, with the spacing taken off the page width. */
  function CellWidth(s: Sheet, rect: Rect): real
    requires s.colCount > 0
  {
    (rect.width - (s.hSpacing * (s.colCount - 1)) as real) / s.colCount as real
  }

  /** cellHeight, with the spacing taken off the page height. */
  function CellHeight(s: Sheet, rect: Rect): real
    requires s.rowCount > 0
  {
    var n := DrawRowCount(s);
    (rect.height - (s.vSpacing * (n - 1)) as real) / n as real
  }

  /** vOffset once the header has been drawn. */
  function VOffset(s: Sheet, rect: Rect): real
    requires s.rowCount > 0
  {
    rect.top + (if HasHeader(s) then CellHeight(s, rect) else 0.0)
  }

  /** The rectangle draw gives cell (row i, column j), from the cell size,
      the spacing and the current vOffset. */
  function CellRectAt(rect: Rect, cellWidth: real, cellHeight: real, hSpacing: int, vSpacing: int,
                      vOffset: real, i: int, j: int): Rect
  {
    Rect(rect.left + j as real * (cellWidth + hSpacing as real),
         rect.top + i as real * (cellHeight + vSpacing as real) + vOffset,
         cellWidth,
         cellHeight)
  }

  /** The header band: full width, one cell tall, at the top of the page. */
  function HeaderRect(s: Sheet, rect: Rect): Rect
    requires s.rowCount > 0
  {
    TopBand(rect, CellHeight(s, rect))
  }

  /** The footer band: full width, one cell tall, ending at the bottom of
      the page. */
  function FooterRect(s: Sheet, rect: Rect): Rect
    requires s.rowCount > 0
  {
    BottomBand(rect, CellHeight(s, rect))
  }

  /** The rectangle of data cell (row i, column j) on the page. */
  function CellRect(s: Sheet, rect: Rect, i: int, j: int): Rect
    requires Drawable(s)
  {
    CellRectAt(rect, CellWidth(s, rect), CellHeight(s, rect), s.hSpacing, s.vSpacing, VOffset(s, rect), i, j)
  }

  /** The position in the flat store that draw reads for (row i, column j). */
  function CellIndex(s: Sheet, i: int, j: int): int {
    i + j * s.colCount
  }

  /** Every lookup draw makes stays inside the store. */
  ghost predicate CellIndicesInRange(s: Sheet) {
    forall i, j :: 0 <= i < s.rowCount && 0 <= j < s.colCount ==> 0 <= CellIndex(s, i, j) < |s.cells|
  }

  /** No two cells of the grid read the same stored cell. */
  ghost predicate CellIndexInjective(s: Sheet) {
    forall i1, j1, i2, j2 ::
      0 <= i1 < s.rowCount && 0 <= j1 < s.colCount &&
      0 <= i2 < s.rowCount && 0 <= j2 < s.colCount &&
      CellIndex(s, i1, j1) == CellIndex(s, i2, j2)
      ==> i1 == i2 && j1 == j2
  }

  function HeaderCalls(s: Sheet, rect: Rect): seq<Call>
    requires s.rowCount > 0
  {
    if HasHeader(s) then [Call(HeaderRect(s, rect), s.headerText)] else []
  }

  function FooterCalls(s: Sheet, rect: Rect): seq<Call>
    requires s.rowCount > 0
  {
    if HasFooter(s) then [Call(FooterRect(s, rect), s.footerText)] else []
  }

  function CellCall(s: Sheet, rect: Rect, i: int, j: int): Call
    requires Drawable(s) && CellIndicesInRange(s)
    requires 0 <= i < s.rowCount && 0 <= j < s.colCount
  {
    Call(CellRect(s, rect, i, j), s.cells[CellIndex(s, i, j)].text)
  }

  /** The calls for columns 0 .. n-1 of row i. */
  function RowCalls(s: Sheet, rect: Rect, i: int, n: nat): (calls: seq<Call>)
    requires Drawable(s) && CellIndicesInRange(s)
    requires 0 <= i < s.rowCount && n <= s.colCount
    ensures |calls| == n
  {
    if n == 0 then [] else RowCalls(s, rect, i, n - 1) + [CellCall(s, rect, i, n - 1)]
  }

  /** The calls for rows 0 .. n-1, row by row. */
  function GridCalls(s: Sheet, rect: Rect, n: nat): seq<Call>
    requires Drawable(s) && CellIndicesInRange(s)
    requires n <= s.rowCount
  {
    if n == 0 then [] else GridCalls(s, rect, n - 1) + RowCalls(s, rect, n - 1, s.colCount)
  }

  /** Every fitText call of one draw, in the order draw makes them. */
  function SheetCalls(s: Sheet, rect: Rect): seq<Call>
    requires CellIndicesInRange(s)
  {
    if !Drawable(s) then []
    else HeaderCalls(s, rect) + GridCalls(s, rect, s.rowCount) + FooterCalls(s, rect)
  }

  /** Row i holds the calls for its cells in column order. */
  lemma {:induction false} RowCallsAt(s: Sheet, rect: Rect, i: int, n: nat, j: int)
    requires Drawable(s) && CellIndicesInRange(s)
    requires 0 <= i < s.rowCount && n <= s.colCount && 0 <= j < n
    ensures RowCalls(s, rect, i, n)[j] == CellCall(s, rect, i, j)
    decreases n
  {
    if j < n - 1 {
      RowCallsAt(s, rect, i, n - 1, j);
    }
  }

  /** The first n rows hold n * colCount calls. */
  lemma {:induction false} GridCallsLength(s: Sheet, rect: Rect, n: nat)
    requires Drawable(s) && CellIndicesInRange(s)
    requires n <= s.rowCount
    ensures |GridCalls(s, rect, n)| == n * s.colCount
    decreases n
  {
    if n > 0 {
      GridCallsLength(s, rect, n - 1);
    }
  }

  /** Position i * width + j, for a column j of row i, comes before row m. */
  lemma BeforeRow(width: int, i: int, j: int, m: int)
    requires 0 <= i < m && 0 <= j < width
    ensures i * width + j < m * width
  {
    assert (i + 1) * width <= m * width;
  }

  /** Cell (i, j) is call number i * colCount + j of the grid: row by row,
      and within a row column by column. */
  lemma {:induction false} GridCallsAt(s: Sheet, rect: Rect, n: nat, i: int, j: int)
    requires Drawable(s) && CellIndicesInRange(s)
    requires n <= s.rowCount && 0 <= i < n && 0 <= j < s.colCount
    ensures 0 <= i * s.colCount + j < |GridCalls(s, rect, n)|
    ensures GridCalls(s, rect, n)[i * s.colCount + j] == CellCall(s, rect, i, j)
    decreases n
  {
    GridCallsLength(s, rect, n - 1);
    if i == n - 1 {
      RowCallsAt(s, rect, i, s.colCount, j);
    } else {
      GridCallsAt(s, rect, n - 1, i, j);
      BeforeRow(s.colCount, i, j, n - 1);
    }
  }

  /** 1 when draw makes a header call, 0 otherwise. */
  function HeaderCount(s: Sheet): nat { if HasHeader(s) then 1 else 0 }

  /** How many calls draw makes before it reaches row i. */
  function RowStart(s: Sheet, i: nat): nat {
    if i == 0 then HeaderCount(s) else RowStart(s, i - 1) + s.colCount
  }

  lemma {:induction false} RowStartIs(s: Sheet, i: nat)
    ensures RowStart(s, i) == HeaderCount(s) + i * s.colCount
  {
    if i > 0 {
      RowStartIs(s, i - 1);
    }
  }

  /** Later rows start later. */
  lemma {:induction false} RowStartMonotone(s: Sheet, i: nat, k: nat)
    requires i <= k
    ensures RowStart(s, i) <= RowStart(s, k)
    decreases k
  {
    if i < k {
      RowStartMonotone(s, i, k - 1);
    }
  }

  /** Where the header, the rows and the footer fall among the calls. */
  lemma SheetCallsEnds(s: Sheet, rect: Rect)
    requires Drawable(s) && CellIndicesInRange(s)
    ensures var calls := SheetCalls(s, rect);
      && |calls| == RowStart(s, s.rowCount) + (if HasFooter(s) then 1 else 0)
      && (HasHeader(s) ==> calls[0] == Call(HeaderRect(s, rect), s.headerText))
      && (HasFooter(s) ==> calls[|calls| - 1] == Call(FooterRect(s, rect), s.footerText))
  {
    GridCallsLength(s, rect, s.rowCount);
    RowStartIs(s, s.rowCount);
  }

  /** The calls of one draw: the header call first, when there is a header;
      then the rowCount * colCount cells; then the footer call last, when
      there is a footer. */
  lemma SheetCallsOrder(s: Sheet, rect: Rect)
    requires Drawable(s) && CellIndicesInRange(s)
    ensures var calls := SheetCalls(s, rect);
      && |calls| == HeaderCount(s) + s.rowCount * s.colCount + (if HasFooter(s) then 1 else 0)
      && (HasHeader(s) ==> calls[0] == Call(HeaderRect(s, rect), s.headerText))
      && (HasFooter(s) ==> calls[|calls| - 1] == Call(FooterRect(s, rect), s.footerText))
  {
    SheetCallsEnds(s, rect);
    RowStartIs(s, s.rowCount);
  }

  /** drawRowCount counts the bands one draw fills: the header band and the
      footer band make one call each, and each of the rowCount row bands
      makes colCount calls. */
  lemma BandsAndCalls(s: Sheet, rect: Rect)
    requires Drawable(s) && CellIndicesInRange(s)
    ensures |SheetCalls(s, rect)| == DrawRowCount(s) + s.rowCount * (s.colCount - 1)
  {
    SheetCallsOrder(s, rect);
    assert s.rowCount * s.colCount == s.rowCount + s.rowCount * (s.colCount - 1);
  }

  /** Cell (i, j) is call number RowStart(i) + j, that is h + i * colCount + j
      with h the number of header calls. */
  lemma SheetCallAt(s: Sheet, rect: Rect, i: int, j: int)
    requires Drawable(s) && CellIndicesInRange(s)
    requires 0 <= i < s.rowCount && 0 <= j < s.colCount
    ensures RowStart(s, i) == HeaderCount(s) + i * s.colCount
    ensures RowStart(s, i) + j < |SheetCalls(s, rect)|
    ensures SheetCalls(s, rect)[RowStart(s, i) + j] == CellCall(s, rect, i, j)
  {
    GridCallsAt(s, rect, s.rowCount, i, j);
    GridCallsLength(s, rect, s.rowCount);
    RowStartIs(s, i);
  }

  /** Drawing the header makes call 0. */
  lemma HeaderDrawn(measure: Measure, s: Sheet, rect: Rect, drawn: seq<DrawCommand>)
    requires Drawable(s) && CellIndicesInRange(s) && HasHeader(s)
    requires drawn == FitLog(measure, s.font, HeaderRect(s, rect), s.headerText)
    ensures 1 <= |SheetCalls(s, rect)|
    ensures drawn == Render(measure, s.font, SheetCalls(s, rect)[..1])
  {
    SheetCallsEnds(s, rect);
    RenderPrefix(measure, s.font, SheetCalls(s, rect), 0);
  }

  /** Drawing cell (i, j) makes call RowStart(i) + j. */
  lemma CellDrawn(measure: Measure, s: Sheet, rect: Rect, i: int, j: int, made: nat,
                  log: seq<DrawCommand>, drawn: seq<DrawCommand>)
    requires Drawable(s) && CellIndicesInRange(s)
    requires 0 <= i < s.rowCount && 0 <= j < s.colCount
    requires made == RowStart(s, i) + j <= |SheetCalls(s, rect)|
    requires log == Render(measure, s.font, SheetCalls(s, rect)[..made])
    requires drawn == FitLog(measure, s.font, CellRect(s, rect, i, j), s.cells[CellIndex(s, i, j)].text)
    ensures made + 1 <= |SheetCalls(s, rect)|
    ensures log + drawn == Render(measure, s.font, SheetCalls(s, rect)[..made + 1])
  {
    SheetCallAt(s, rect, i, j);
    RenderPrefix(measure, s.font, SheetCalls(s, rect), made);
  }

  /** Drawing the footer after the last row makes the last call; without a
      footer the last row ends the calls. */
  lemma FooterDrawn(measure: Measure, s: Sheet, rect: Rect, made: nat,
                    log: seq<DrawCommand>, drawn: seq<DrawCommand>)
    requires Drawable(s) && CellIndicesInRange(s)
    requires made == RowStart(s, s.rowCount) <= |SheetCalls(s, rect)|
    requires log == Render(measure, s.font, SheetCalls(s, rect)[..made])
    requires drawn == (if HasFooter(s) then FitLog(measure, s.font, FooterRect(s, rect), s.footerText) else [])
    ensures log + drawn == Render(measure, s.font, SheetCalls(s, rect))
  {
    var calls := SheetCalls(s, rect);
    SheetCallsEnds(s, rect);
    if HasFooter(s) {
      RenderPrefix(measure, s.font, calls, made);
      assert calls[..made + 1] == calls;
    } else {
      assert calls[..made] == calls;
    }
  }

  /** Sheet::draw. The painter is the returned log of draw commands. */
  method Draw(sheet: Sheet, measure: Measure, rect: Rect) returns (log: seq<DrawCommand>)
    requires CellIndicesInRange(sheet)
    ensures log == Render(measure, sheet.font, SheetCalls(sheet, rect))
    ensures sheet.rowCount == 0 || sheet.colCount == 0 ==> log == []
    ensures |log| <= |SheetCalls(sheet, rect)|
  {
    var hasHeader := sheet.headerText != [];
    var hasFooter := sheet.footerText != [];

    if sheet.rowCount == 0 || sheet.colCount == 0 {
      return [];
    }

    var vOffset := rect.top;
    var cellWidth := CellWidth(sheet, rect);
    var cellHeight := CellHeight(sheet, rect);

    // The calls made so far are the first `made` of SheetCalls.
    ghost var made := 0;
    RowStartMonotone(sheet, 0, sheet.rowCount);
    SheetCallsEnds(sheet, rect);
    log := [];

    if hasHeader {
      var drawn := FitText(measure, sheet.font, TopBand(rect, cellHeight), sheet.headerText);
      HeaderDrawn(measure, sheet, rect, drawn);
      log := drawn;
      made := 1;
      vOffset := vOffset + cellHeight;
    }

    for i := 0 to sheet.rowCount
      invariant vOffset == VOffset(sheet, rect)
      invariant made == RowStart(sheet, i) <= |SheetCalls(sheet, rect)|
      invariant log == Render(measure, sheet.font, SheetCalls(sheet, rect)[..made])
    {
      for j := 0 to sheet.colCount
        invariant made == RowStart(sheet, i) + j <= |SheetCalls(sheet, rect)|
        invariant log == Render(measure, sheet.font, SheetCalls(sheet, rect)[..made])
      {
        var cell := sheet.cells[CellIndex(sheet, i, j)];
        var cellRect := CellRectAt(rect, cellWidth, cellHeight, sheet.hSpacing, sheet.vSpacing, vOffset, i, j);
        var drawn := FitText(measure, sheet.font, cellRect, cell.text);
        CellDrawn(measure, sheet, rect, i, j, made, log, drawn);
        log := log + drawn;
        made := made + 1;
      }
    }

    var drawn := [];
    if hasFooter {
      drawn := FitText(measure, sheet.font, BottomBand(rect, cellHeight), sheet.footerText);
    }
    FooterDrawn(measure, sheet, rect, made, log, drawn);
    log := log + drawn;
  }

  // ---------------------------------------------------------------------
  // What a draw looks like on the page.

  /** A freshly constructed sheet has no rows, no columns, no spacing, no
      header or footer, portrait orientation, and draws nothing. */
  lemma NewSheetDrawsNothing(font: Font, measure: Measure, rect: Rect)
    ensures var s := NewSheet(font);
      && s.rowCount == 0 && s.colCount == 0 && s.hSpacing == 0 && s.vSpacing == 0
      && s.orientation == Portrait && !HasHeader(s) && !HasFooter(s)
      && CellIndicesInRange(s)
      && Render(measure, font, SheetCalls(s, rect)) == []
  {
  }

  /** The columns and the spacing between them fill the page width. */
  lemma ColumnsFillWidth(s: Sheet, rect: Rect)
    requires s.colCount > 0
    ensures s.colCount as real * CellWidth(s, rect) + (s.colCount - 1) as real * s.hSpacing as real == rect.width
  {
    var c := s.colCount as real;
    var spacing := (s.hSpacing * (s.colCount - 1)) as real;
    assert CellWidth(s, rect) * c == rect.width - spacing;
  }

  /** The drawRowCount bands and the spacing between them fill the page
      height. */
  lemma BandsFillHeight(s: Sheet, rect: Rect)
    requires s.rowCount > 0
    ensures var n := DrawRowCount(s);
      n as real * CellHeight(s, rect) + (n - 1) as real * s.vSpacing as real == rect.height
  {
    var n := DrawRowCount(s);
    var spacing := (s.vSpacing * (n - 1)) as real;
    assert CellHeight(s, rect) * n as real == rect.height - spacing;
  }

  /** Column j starts j steps of cellWidth + hSpacing from the left edge:
      the first column starts at the left edge, neighbouring columns are
      hSpacing apart, and the last column ends at the right edge. */
  lemma ColumnLayout(s: Sheet, rect: Rect, i: int, j: int)
    requires Drawable(s) && 0 <= j < s.colCount
    ensures CellRect(s, rect, i, j).width == CellWidth(s, rect)
    ensures CellRect(s, rect, i, j).left == rect.left + j as real * (CellWidth(s, rect) + s.hSpacing as real)
    ensures j == 0 ==> CellRect(s, rect, i, j).left == rect.left
    ensures j + 1 < s.colCount ==>
      CellRect(s, rect, i, j + 1).left == CellRect(s, rect, i, j).Right() + s.hSpacing as real
    ensures j == s.colCount - 1 ==> CellRect(s, rect, i, j).Right() == rect.Right()
  {
    var w := CellWidth(s, rect);
    var hs := s.hSpacing as real;
    assert (j + 1) as real * (w + hs) == j as real * (w + hs) + w + hs;
    if j == s.colCount - 1 {
      ColumnsFillWidth(s, rect);
      assert j as real * (w + hs) + w == s.colCount as real * w + (s.colCount - 1) as real * hs;
    }
  }

  /** Row i starts at twice the page top, plus one cell height per band
      above it (the header band and i data rows), plus i spacings. Rows are
      vSpacing apart; the first row follows the header band with no
      spacing, shifted by one more page top. */
  lemma RowLayout(s: Sheet, rect: Rect, i: int, j: int)
    requires Drawable(s) && 0 <= i < s.rowCount
    ensures CellRect(s, rect, i, j).height == CellHeight(s, rect)
    ensures CellRect(s, rect, i, j).top
         == 2.0 * rect.top + (HeaderCount(s) + i) as real * CellHeight(s, rect) + i as real * s.vSpacing as real
    ensures i + 1 < s.rowCount ==>
      CellRect(s, rect, i + 1, j).top == CellRect(s, rect, i, j).Bottom() + s.vSpacing as real
    ensures HasHeader(s) && i == 0 ==>
      CellRect(s, rect, i, j).top == HeaderRect(s, rect).Bottom() + rect.top
    ensures !HasHeader(s) && i == 0 ==> CellRect(s, rect, i, j).top == 2.0 * rect.top
  {
    var h := CellHeight(s, rect);
    var vs := s.vSpacing as real;
    assert (i + 1) as real * (h + vs) == i as real * (h + vs) + h + vs;
    assert (HeaderCount(s) + i) as real * h == HeaderCount(s) as real * h + i as real * h;
  }

  /** The header band spans the page width at the top; the footer band
      spans the page width and ends at the page bottom. Between the last
      data row and the footer lie vSpacing (one more with a header) less
      the page top. */
  lemma BandLayout(s: Sheet, rect: Rect)
    requires Drawable(s)
    ensures HeaderRect(s, rect) == Rect(rect.left, rect.top, rect.width, CellHeight(s, rect))
    ensures FooterRect(s, rect).left == rect.left && FooterRect(s, rect).width == rect.width
    ensures FooterRect(s, rect).height == CellHeight(s, rect)
    ensures FooterRect(s, rect).Bottom() == rect.Bottom()
    ensures HasFooter(s) ==>
      FooterRect(s, rect).top
      == CellRect(s, rect, s.rowCount - 1, 0).Bottom() + (HeaderCount(s) + 1) as real * s.vSpacing as real - rect.top
  {
    if HasFooter(s) {
      var h := CellHeight(s, rect);
      var vs := s.vSpacing as real;
      var r := s.rowCount;
      var hc := HeaderCount(s);
      BandsFillHeight(s, rect);
      RowLayout(s, rect, r - 1, 0);
      assert DrawRowCount(s) == r + hc + 1;
      assert rect.height == (r + hc + 1) as real * h + (r + hc) as real * vs;
      assert CellRect(s, rect, r - 1, 0).Bottom() == 2.0 * rect.top + (hc + r) as real * h + (r - 1) as real * vs;
    }
  }

  // ---------------------------------------------------------------------
  // The lookup cells.at(i + j * colCount) against a store of
  // rowCount * colCount cells.

  /** Every lookup stays in the store exactly when there are no more
      columns than rows. */
  lemma CellIndicesInRangeIff(s: Sheet)
    requires s.rowCount >= 1 && s.colCount >= 1
    requires |s.cells| == s.rowCount * s.colCount
    ensures CellIndicesInRange(s) <==> s.colCount <= s.rowCount
  {
    var r, c := s.rowCount, s.colCount;
    if CellIndicesInRange(s) {
      assert 0 <= CellIndex(s, r - 1, c - 1) < |s.cells|;
      if r < c {
        MulMonotone(r, c - 1, c);
      }
    }
    if c <= r {
      forall i, j | 0 <= i < r && 0 <= j < c
        ensures 0 <= CellIndex(s, i, j) < |s.cells|
      {
        MulMonotone(0, j, c);
        MulMonotone(j, c - 1, c);
        MulMonotone(c, r, c - 1);
        assert (c - 1) * r == r * c - r;
      }
    }
  }

  /** Distinct grid positions read distinct stored cells exactly when there
      are no more rows than columns, or a single column. */
  lemma CellIndexInjectiveIff(s: Sheet)
    requires s.rowCount >= 1 && s.colCount >= 1
    ensures CellIndexInjective(s) <==> s.rowCount <= s.colCount || s.colCount == 1
  {
    var r, c := s.rowCount, s.colCount;
    if r <= c || c == 1 {
      forall i1, j1, i2, j2 |
        0 <= i1 < r && 0 <= j1 < c && 0 <= i2 < r && 0 <= j2 < c &&
        CellIndex(s, i1, j1) == CellIndex(s, i2, j2)
        ensures i1 == i2 && j1 == j2
      {
        if c == 1 {
          assert j1 == 0 && j2 == 0;
        } else {
          SameQuotient(c, i1, j1, i2, j2);
        }
      }
    } else {
      assert CellIndex(s, c, 0) == CellIndex(s, 0, 1);
    }
  }

  lemma {:induction false} MulMonotone(a: int, b: int, c: int)
    requires a <= b && 0 <= c
    ensures a * c <= b * c
    decreases b - a
  {
    if a < b {
      MulMonotone(a + 1, b, c);
      assert (a + 1) * c == a * c + c;
    }
  }

  /** i1 + j1 * c == i2 + j2 * c with both i below c forces equal j. */
  lemma SameQuotient(c: int, i1: int, j1: int, i2: int, j2: int)
    requires 0 <= i1 < c && 0 <= i2 < c
    requires i1 + j1 * c == i2 + j2 * c
    ensures i1 == i2 && j1 == j2
  {
    if j1 < j2 {
      assert i1 == i2 + (j2 - j1) * c;
      MulMonotone(1, j2 - j1, c);
    } else if j2 < j1 {
      assert i2 == i1 + (j1 - j2) * c;
      MulMonotone(1, j1 - j2, c);
    }
  }

  /** A 2 x 2 sheet on a 400 x 300 page, without spacing, header or footer:
      the cells are drawn row by row at the four quarters of the page, and
      the store [a, b, c, d] is read as a, c, b, d. */
  lemma TwoByTwoExample(font: Font)
    ensures var s := Sheet([], [], font, Portrait, 0, 0, 2, 2,
                           [Cell("a"), Cell("b"), Cell("c"), Cell("d")]);
      && CellIndicesInRange(s)
      && SheetCalls(s, Rect(0.0, 0.0, 400.0, 300.0))
         == [Call(Rect(0.0, 0.0, 200.0, 150.0), "a"),
             Call(Rect(200.0, 0.0, 200.0, 150.0), "c"),
             Call(Rect(0.0, 150.0, 200.0, 150.0), "b"),
             Call(Rect(200.0, 150.0, 200.0, 150.0), "d")]
  {
    var s := Sheet([], [], font, Portrait, 0, 0, 2, 2,
                   [Cell("a"), Cell("b"), Cell("c"), Cell("d")]);
    var page := Rect(0.0, 0.0, 400.0, 300.0);
    assert CellIndicesInRange(s);
    assert CellWidth(s, page) == 200.0;
    assert CellHeight(s, page) == 150.0;
    assert VOffset(s, page) == 0.0;
    assert CellCall(s, page, 0, 0) == Call(Rect(0.0, 0.0, 200.0, 150.0), "a");
    assert CellCall(s, page, 0, 1) == Call(Rect(200.0, 0.0, 200.0, 150.0), "c");
    assert CellCall(s, page, 1, 0) == Call(Rect(0.0, 150.0, 200.0, 150.0), "b");
    assert CellCall(s, page, 1, 1) == Call(Rect(200.0, 150.0, 200.0, 150.0), "d");
    assert RowCalls(s, page, 0, 2) == [CellCall(s, page, 0, 0), CellCall(s, page, 0, 1)];
    assert RowCalls(s, page, 1, 2) == [CellCall(s, page, 1, 0), CellCall(s, page, 1, 1)];
    assert GridCalls(s, page, 1) == RowCalls(s, page, 0, 2);
    assert GridCalls(s, page, 2) == RowCalls(s, page, 0, 2) + RowCalls(s, page, 1, 2);
  }
}

