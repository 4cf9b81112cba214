/**
  The value helpers of the Qt container's header: the clip-stack entry
  `cairo_clip_box` and the static conversions `qUrl`, `qColor` and `qRect`
  from the layout engine's types to Qt's.
 */
module QtHelpers {
  import opened Litehtml

  // ---------------------------------------------------------------------
  // cairo_clip_box
  // ---------------------------------------------------------------------

  /** One entry of the clip stack: a rectangle and its corner radii. */
  datatype ClipBox = ClipBox(box: Position, radius: BorderRadiuses)

  /** The two-argument constructor: stores exactly the given box and radii. */
  function MakeClipBox(vBox: Position, vRad: BorderRadiuses): (c: ClipBox)
    ensures c.box == vBox && c.radius == vRad
  {
    ClipBox(vBox, vRad)
  }

  /** The copy constructor: the copy agrees with the original on both fields,
      so it is the same value. */
  function CopyClipBox(val: ClipBox): (c: ClipBox)
    ensures c.box == val.box && c.radius == val.radius
    ensures c == val
  {
    ClipBox(val.box, val.radius)
  }

  /** Copy assignment `target = val`: returns the new value of the target and
      the reference the operator returns. Every field of the target is
      overwritten, so its old value does not matter, and the returned
      reference denotes the assigned object. */
  function AssignClipBox(target: ClipBox, val: ClipBox): (r: (ClipBox, ClipBox))
    ensures r.0.box == val.box && r.0.radius == val.radius
    ensures r.1 == r.0
  {
    var updated := target.(box := val.box).(radius := val.radius);
    (updated, updated)
  }

  // ---------------------------------------------------------------------
  // qRect
  // ---------------------------------------------------------------------

  /** QRect as Qt stores it: the top-left and the bottom-right corner, both
      inclusive, so that width() is x2 - x1 + 1. */
  datatype QRect = QRect(x1: int, y1: int, x2: int, y2: int)
  {
    function Left(): int { x1 }
    function Top(): int { y1 }
    function Width(): int { x2 - x1 + 1 }
    function Height(): int { y2 - y1 + 1 }
  }

  /** The constructor QRect(x, y, width, height): reading the rectangle back
      gives the four arguments. */
  function MakeQRect(x: int, y: int, width: int, height: int): (r: QRect)
    ensures r.Left() == x && r.Top() == y
    ensures r.Width() == width && r.Height() == height
  {
    QRect(x, y, x + width - 1, y + height - 1)
  }

  /** qRect: the Qt rectangle with the same origin and extent as a litehtml
      position. */
  function QRectOf(rect: Position): (r: QRect)
    ensures r.Left() == rect.x && r.Top() == rect.y
    ensures r.Width() == rect.width && r.Height() == rect.height
  {
    MakeQRect(rect.x, rect.y, rect.width, rect.height)
  }

  /** Two positions give the same Qt rectangle only when they are equal. */
  lemma QRectOfInjective(p: Position, q: Position)
    requires QRectOf(p) == QRectOf(q)
    ensures p == q
  {
  }

  // ---------------------------------------------------------------------
  // qColor
  // ---------------------------------------------------------------------

  /** QRgb: a colour packed as 0xAARRGGBB. */
  type QRgb = bv32

  /** qRgba(r, g, b, a) */
  function QRgba(r: bv8, g: bv8, b: bv8, a: bv8): QRgb {
    (a as bv32 << 24) | (r as bv32 << 16) | (g as bv32 << 8) | (b as bv32)
  }

  function QRed(rgb: QRgb): bv8 { ((rgb >> 16) & 0xff) as bv8 }
  function QGreen(rgb: QRgb): bv8 { ((rgb >> 8) & 0xff) as bv8 }
  function QBlue(rgb: QRgb): bv8 { (rgb & 0xff) as bv8 }
  function QAlpha(rgb: QRgb): bv8 { ((rgb >> 24) & 0xff) as bv8 }

  /** Unpacking a packed colour gives back each of its four channels. */
  lemma QRgbaChannels(r: bv8, g: bv8, b: bv8, a: bv8)
    ensures QRed(QRgba(r, g, b, a)) == r && QGreen(QRgba(r, g, b, a)) == g
    ensures QBlue(QRgba(r, g, b, a)) == b && QAlpha(QRgba(r, g, b, a)) == a
  {
  }

  /** A QColor, seen through its 8-bit channel accessors. */
  datatype QColor = QColor(red: bv8, green: bv8, blue: bv8, alpha: bv8)

  /** The implicit conversion QColor(QRgb): Qt reads red, green and blue from
      the packed value and ignores its alpha, making the colour opaque. */
  function QColorFromRgb(rgb: QRgb): QColor {
    QColor(QRed(rgb), QGreen(rgb), QBlue(rgb), 0xff)
  }

  /** QColor::fromRgba(QRgb): all four channels, alpha included. */
  function QColorFromRgba(rgb: QRgb): QColor {
    QColor(QRed(rgb), QGreen(rgb), QBlue(rgb), QAlpha(rgb))
  }

  /** qColor as written: it returns the packed qRgba value from a function
      whose result type is QColor, so the value passes through QColor(QRgb).
      Red, green and blue survive; alpha is always 255. */
  function QColorAsWritten(color: WebColor): (c: QColor)
    ensures c.red == color.red && c.green == color.green && c.blue == color.blue
    ensures c.alpha == 0xff
  {
    QRgbaChannels(color.red, color.green, color.blue, color.alpha);
    QColorFromRgb(QRgba(color.red, color.green, color.blue, color.alpha))
  }

  /** A translucent colour loses its alpha through qColor as written. */
  lemma QColorAsWrittenDropsAlpha()
    ensures QColorAsWritten(WebColor(0x20, 0x40, 0x60, 0x80)).alpha != 0x80
  {
  }

  /** qColor as intended: red, green, blue and alpha map one to one. */
  function QColorOf(color: WebColor): (c: QColor)
    ensures c.red == color.red && c.green == color.green && c.blue == color.blue
    ensures c.alpha == color.alpha
  {
    QRgbaChannels(color.red, color.green, color.blue, color.alpha);
    QColorFromRgba(QRgba(color.red, color.green, color.blue, color.alpha))
  }

  /** The two agree exactly on opaque colours. */
  lemma QColorAsWrittenAgreesWhenOpaque(color: WebColor)
    ensures QColorAsWritten(color) == QColorOf(color) <==> color.alpha == 0xff
  {
  }

  // ---------------------------------------------------------------------
  // qUrl
  // ---------------------------------------------------------------------

  /** A parsed QUrl, by component. */
  datatype Url = Url(scheme: string, authority: string, path: string, query: string, fragment: string)

  /** qUrl(url, basepath). Parsing a string into a QUrl is Qt's and is passed
      in as `parse`; a null basepath is None. With a base, the result is the
      base URL with `/` and `url` appended to its path; without one it is
      `url` parsed on its own. */
  function QUrlOf(parse: string -> Url, url: string, basepath: Option<string>): (r: Url)
    ensures basepath.None? ==> r == parse(url)
    ensures basepath.Some? ==>
      var base := parse(basepath.value);
      && r.path == base.path + "/" + url
      && r.scheme == base.scheme && r.authority == base.authority
      && r.query == base.query && r.fragment == base.fragment
  {
    match basepath
    case None => parse(url)
    case Some(base) =>
      var ret := parse(base);
      ret.(path := ret.path + "/" + url)
  }
}
