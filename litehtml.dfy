/**
  The value types the layout engine hands to a document container:
  rectangles, corner radii, colours, borders, background descriptions and
  media features. They mirror litehtml's own structs field for field; the
  container only reads them.
 */
module Litehtml {

  datatype Option<+T> = None | Some(value: T)

  /** litehtml::position: an integer rectangle given by its origin and extent. */
  datatype Position = Position(x: int, y: int, width: int, height: int)
  {
    function Left(): int { x }
    function Top(): int { y }
    function Right(): int { x + width }
    function Bottom(): int { y + height }
  }

  /** litehtml::size */
  datatype Size = Size(width: int, height: int)

  /** litehtml::border_radiuses: the horizontal and vertical radius of each corner. */
  datatype BorderRadiuses = BorderRadiuses(
    topLeftX: int, topLeftY: int,
    topRightX: int, topRightY: int,
    bottomRightX: int, bottomRightY: int,
    bottomLeftX: int, bottomLeftY: int)

  /** litehtml::web_color: four unsigned bytes. */
  datatype WebColor = WebColor(red: bv8, green: bv8, blue: bv8, alpha: bv8)

  /** litehtml::border_style, in declaration order. */
  datatype BorderStyle =
    | StyleNone | StyleHidden | StyleDotted | StyleDashed | StyleSolid
    | StyleDouble | StyleGroove | StyleRidge | StyleInset | StyleOutset
  {
    /** The enumerator's integer value, which is what a C++ comparison sees. */
    function Ordinal(): nat {
      match this
      case StyleNone => 0
      case StyleHidden => 1
      case StyleDotted => 2
      case StyleDashed => 3
      case StyleSolid => 4
      case StyleDouble => 5
      case StyleGroove => 6
      case StyleRidge => 7
      case StyleInset => 8
      case StyleOutset => 9
    }

    /** Section 4.3 of CSS Backgrounds and Borders Level 3: a border whose
        style is none or hidden has a used width of zero. */
    predicate Paints() {
      !(StyleNone? || StyleHidden?)
    }
  }

  /** litehtml::border: one edge of a box. */
  datatype Border = Border(width: int, style: BorderStyle, color: WebColor)

  /** litehtml::borders: the four edges and the corner radii. */
  datatype Borders = Borders(left: Border, top: Border, right: Border, bottom: Border, radius: BorderRadiuses)

  /** litehtml::background_repeat: the keywords of section 3.4 of CSS
      Backgrounds and Borders Level 3 that the engine supports. */
  datatype BackgroundRepeat = Repeat | RepeatX | RepeatY | NoRepeat

  /** litehtml::background_paint: what the engine asks a container to paint
      behind one box. */
  datatype BackgroundPaint = BackgroundPaint(
    image: string,
    baseurl: string,
    color: WebColor,
    repeat: BackgroundRepeat,
    clipBox: Position,
    borderBox: Position,
    positionX: int,
    positionY: int,
    imageSize: Size)

  /** litehtml::font_style */
  datatype FontStyle = FontStyleNormal | FontStyleItalic

  /** Bits of the decoration mask passed to create_font. */
  const FontDecorationUnderline: bv32 := 0x01
  const FontDecorationLinethrough: bv32 := 0x02
  const FontDecorationOverline: bv32 := 0x04

  /** litehtml::media_type */
  datatype MediaType = MediaNone | MediaAll | MediaScreen | MediaPrint | MediaOther

  /** litehtml::media_features */
  datatype MediaFeatures = MediaFeatures(
    mediaType: MediaType,
    width: int,
    height: int,
    deviceWidth: int,
    deviceHeight: int,
    color: int,
    colorIndex: int,
    monochrome: int,
    resolution: int)
}
