// The two revisions of the layout engine side by side: with no spacing, the
// current Sheet::draw places the header, the footer and every cell exactly
// where the older PageWidget::draw placed them. Only the visiting order
// differs in where cells go (rows outer in the current engine, columns outer
// in the older one). What is drawn differs in two more ways: the older widget
// skips table cells with no item, and it still draws the header and footer
// when the table has no rows or columns, where Sheet::draw returns at once.

module Revisions {
  import opened Painting
  import SheetLayout
  import PageLayout

  /** The page of the older widget that shows the same texts and has the
      same dimensions as the sheet. */
  predicate SameShape(s: SheetLayout.Sheet, p: PageLayout.Page) {
    && p.headerText == s.headerText
    && p.footerText == s.footerText
    && p.table.rowCount == s.rowCount
    && p.table.columnCount == s.colCount
  }

  /** Without spacing, sheet cell (row i, column j) is the page widget's
      cell (column j, row i), and the header and footer bands agree. */
  lemma ZeroSpacingMatchesPageWidget(s: SheetLayout.Sheet, p: PageLayout.Page, rect: Rect, i: int, j: int)
    requires SheetLayout.Drawable(s) && s.hSpacing == 0 && s.vSpacing == 0
    requires SameShape(s, p)
    ensures SheetLayout.CellRect(s, rect, i, j) == PageLayout.CellRect(p, rect, j, i)
    ensures SheetLayout.HeaderRect(s, rect) == PageLayout.HeaderRect(p, rect)
    ensures SheetLayout.FooterRect(s, rect) == PageLayout.FooterRect(p, rect)
  {
    assert SheetLayout.DrawRowCount(s) == PageLayout.NumRows(p);
    assert SheetLayout.CellWidth(s, rect) == PageLayout.CellWidth(p, rect);
    assert SheetLayout.CellHeight(s, rect) == PageLayout.CellHeight(p, rect);
  }
}
