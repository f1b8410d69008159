/**
  The caption arithmetic of `generate_qr` in qr_generator.py: whether a
  caption band is added, the size of the canvas, where the QR image and the
  caption text go, and how the caption text is measured.

  Canvas creation, pasting, font loading and drawing are image-library
  primitives. Only their numbers enter here: the size of the rendered QR
  image, and the result of each text-measuring primitive as an Option that
  is None when the primitive raises.
*/
module CaptionLayout {
  import opened Wrappers

  /** Space between the QR image and the caption band, and below the band. */
  const DrawMargin: int := 16
  /** Height reserved for the caption text. */
  const CaptionHeight: int := 40
  /** The last-resort estimate: 6 pixels per character, 12 pixels high. */
  const FallbackCharWidth: int := 6
  const FallbackTextHeight: int := 12

  datatype Size = Size(width: int, height: int)
  datatype Point = Point(x: int, y: int)

  /** A text bounding box as `textbbox` gives it: left, top, right, bottom. */
  datatype BBox = BBox(left: int, top: int, right: int, bottom: int)

  /** Python's `if not caption`: no caption and the empty caption both mean no band. */
  predicate HasCaption(caption: Option<string>) {
    caption.Some? && caption.value != ""
  }

  // ---------------------------------------------------------------------------
  // Measuring the caption
  // ---------------------------------------------------------------------------

  /**
    A list of measuring strategies tried in order: the first that succeeds
    decides, and `last` (which cannot fail) is used when none does.
  */
  function FirstSuccess(attempts: seq<Option<Size>>, last: Size): (r: Size)
    ensures (forall i :: 0 <= i < |attempts| ==> attempts[i].None?) ==> r == last
    ensures forall i :: 0 <= i < |attempts| && attempts[i].Some? && (forall j :: 0 <= j < i ==> attempts[j].None?)
              ==> r == attempts[i].value
    decreases |attempts|
  {
    if attempts == [] then last
    else if attempts[0].Some? then attempts[0].value
    else FirstSuccess(attempts[1..], last)
  }

  /** The size a bounding box stands for, if `textbbox` returned one. */
  function BBoxSize(bbox: Option<BBox>): Option<Size> {
    match bbox
    case None => None
    case Some(b) => Some(Size(b.right - b.left, b.bottom - b.top))
  }

  /**
    The caption's measured size, by the nested fallbacks of the source:
    the bounding box if `textbbox` succeeds, else what `textsize` returns,
    else 6 pixels per character by 12. It is the first success of the three
    strategies in that order, so measuring never fails.
  */
  function MeasureCaption(text: string, bbox: Option<BBox>, legacy: Option<Size>): (r: Size)
    ensures r == FirstSuccess([BBoxSize(bbox), legacy], Size(FallbackCharWidth * |text|, FallbackTextHeight))
    ensures bbox.None? && legacy.None? ==> r.width == 6 * |text| && r.height == 12
  {
    match BBoxSize(bbox)
    case Some(size) => size
    case None =>
      match legacy
      case Some(size) => size
      case None => Size(|text| * FallbackCharWidth, FallbackTextHeight)
  }

  // ---------------------------------------------------------------------------
  // Placing the caption
  // ---------------------------------------------------------------------------

  /**
    Where the caption text is drawn: centred horizontally on the QR image by
    floor division (any odd spare pixel goes to the right, and the position
    is negative exactly when the text is wider than the image), and one
    margin below the image.
  */
  function CaptionPosition(qr: Size, text: Size): (p: Point)
    ensures 0 <= (qr.width - p.x - text.width) - p.x <= 1
    ensures p.x < 0 <==> text.width > qr.width
    ensures p.y - qr.height == DrawMargin
  {
    // Dafny's `/` by a positive divisor rounds down, as Python's `//` does.
    Point((qr.width - text.width) / 2, qr.height + DrawMargin)
  }

  // ---------------------------------------------------------------------------
  // The composed output
  // ---------------------------------------------------------------------------

  /** What `generate_qr` saves. */
  datatype Output =
    | Plain(size: Size)  // the QR image itself, no canvas built
    | Captioned(canvas: Size, qrAt: Point, captionAt: Point, caption: string)

  function OutputSize(o: Output): Size {
    match o
    case Plain(size) => size
    case Captioned(canvas, _, _, _) => canvas
  }

  /**
    The layout `generate_qr` builds around a QR image of size `qr`. Without a
    caption the image is saved unchanged. With one, a canvas as wide as the
    image and 72 pixels taller holds the image at (0, 0) and the caption
    below it; the caption band ends one margin above the bottom edge.
  */
  function Compose(qr: Size, caption: Option<string>, bbox: Option<BBox>, legacy: Option<Size>): (r: Output)
    ensures r.Plain? <==> !HasCaption(caption)
    ensures r.Plain? ==> r.size == qr
    ensures OutputSize(r).width == qr.width
    ensures OutputSize(r).height == if HasCaption(caption) then qr.height + 72 else qr.height
    ensures r.Captioned? ==> r.qrAt == Point(0, 0) && r.caption == caption.value
    ensures r.Captioned? ==> r.captionAt == CaptionPosition(qr, MeasureCaption(caption.value, bbox, legacy))
    ensures r.Captioned? ==> r.captionAt.y + CaptionHeight + DrawMargin == r.canvas.height
  {
    if !HasCaption(caption) then Plain(qr)
    else
      var canvas := Size(qr.width, qr.height + CaptionHeight + DrawMargin * 2);
      var text := MeasureCaption(caption.value, bbox, legacy);
      Captioned(canvas, Point(0, 0), CaptionPosition(qr, text), caption.value)
  }
}
