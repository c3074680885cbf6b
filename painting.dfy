// The painting vocabulary shared by both revisions of the layout engine:
// rectangles with exact real coordinates, fonts, and the draw commands a
// painter receives. The painter itself is modelled as the sequence of draw
// commands it was given, in order.

module Painting {

  datatype Option<T> = None | Some(value: T)

  /** A QRectF: origin (left, top) and size (width, height). */
  datatype Rect = Rect(left: real, top: real, width: real, height: real) {

    /** QRectF::bottom(), which is top + height. */
    function Bottom(): real { top + height }

    /** QRectF::right(), which is left + width. */
    function Right(): real { left + width }
  }

  /** The full-width band of the given height at the top of `rect`. */
  function TopBand(rect: Rect, height: real): Rect {
    Rect(rect.left, rect.top, rect.width, height)
  }

  /** The full-width band of the given height ending at rect.bottom(). */
  function BottomBand(rect: Rect, height: real): Rect {
    Rect(rect.left, rect.Bottom() - height, rect.width, height)
  }

  /** The part of a QFont the layout engine touches: the family the user
      picked and the point size that autofit sets. */
  datatype Font = Font(family: string, pointSize: int)

  /** Qt::AlignVCenter, the only flag autofit draws with. */
  const AlignVCenter: int := 0x0080

  /** One QPainter::drawText(rect, flags, text) call, made while `font` was
      the painter's font. */
  datatype DrawCommand = DrawCommand(font: Font, rect: Rect, flags: int, text: string)

  /** QPainter::boundingRect(rect, 0, text) under a given font: the
      rectangle the text needs when laid out in `rect`. Qt's text metrics
      are not modelled, so every operation takes the measurement as a
      parameter. */
  type Measure = (Font, Rect, string) -> Rect
}
