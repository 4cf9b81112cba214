/**
  The Qt document container: the callbacks through which the layout engine
  creates fonts, caches images, asks for image sizes and media features,
  paints backgrounds and borders, and pushes and pops clip regions.

  What is modelled is the part that decides values: the weight bucket of a
  font, the image cache, the clip stack, the edge widths of a border, the
  rectangles a background paints, and the fixed answers to the engine's
  queries. Drawing itself is Qt's and is not modelled.
 */
module ContainerQt {
  import opened Litehtml
  import opened QtHelpers

  // ---------------------------------------------------------------------
  // Font weight (create_font)
  // ---------------------------------------------------------------------

  /** The nine weight buckets of QFont. */
  datatype FontWeight = Thin | ExtraLight | Light | Normal | Medium | DemiBold | Bold | ExtraBold | Black
  {
    /** The value of the QFont::Weight enumerator (Qt 5). */
    function QtValue(): int {
      match this
      case Thin => 0
      case ExtraLight => 12
      case Light => 25
      case Normal => 50
      case Medium => 57
      case DemiBold => 63
      case Bold => 75
      case ExtraBold => 81
      case Black => 87
    }
  }

  /** The keyword weights of section 3.2 of CSS Fonts Module Level 3:
      100 thin, 200 extra light, ..., 900 black, indexed by hundreds. */
  function CssWeight(hundreds: int): FontWeight
    requires 1 <= hundreds <= 9
  {
    [Thin, ExtraLight, Light, Normal, Medium, DemiBold, Bold, ExtraBold, Black][hundreds - 1]
  }

  /** The keyword weight nearest to a non-negative numeric weight, counted in
      hundreds and clamped to 1..9 (ties round up). */
  function NearestHundred(weight: int): (n: int)
    requires weight >= 0
    ensures 1 <= n <= 9
    ensures 50 <= weight < 950 ==> n * 100 - 50 <= weight < n * 100 + 50
    ensures weight < 50 ==> n == 1
    ensures weight >= 950 ==> n == 9
  {
    var n := (weight + 50) / 100;
    if n < 1 then 1 else if n > 9 then 9 else n
  }

  /** The weight bucketing in create_font as written. Negative weights keep
      the initial Normal; every non-negative weight goes to its nearest
      keyword, except that 850..949 matches no branch and also keeps Normal. */
  function WeightBucketAsWritten(weight: int): (r: FontWeight)
    ensures weight < 0 ==> r == Normal
    ensures weight >= 0 && !(850 <= weight < 950) ==> r == CssWeight(NearestHundred(weight))
    ensures 850 <= weight < 950 ==> r == Normal
  {
    if weight < 0 then Normal
    else if weight < 150 then Thin
    else if weight < 250 then ExtraLight
    else if weight < 350 then Light
    else if weight < 450 then Normal
    else if weight < 550 then Medium
    else if weight < 650 then DemiBold
    else if weight < 750 then Bold
    else if weight < 850 then ExtraBold
    else if weight >= 950 then Black
    else Normal
  }

  /** The CSS weight 900 ("black") is rendered at Normal weight, lighter than
      800, because it lies in the gap of the if-chain. */
  lemma WeightBucketAsWrittenGap()
    ensures WeightBucketAsWritten(900) == Normal
    ensures WeightBucketAsWritten(900).QtValue() < WeightBucketAsWritten(800).QtValue()
  {
  }

  /** The weight bucketing with the gap closed: the last test is dropped, so
      every weight from 850 up is Black. Every non-negative weight goes to its
      nearest CSS keyword; negative weights are reported and keep Normal. */
  function WeightBucket(weight: int): (r: FontWeight)
    ensures weight < 0 ==> r == Normal
    ensures weight >= 0 ==> r == CssWeight(NearestHundred(weight))
  {
    if weight < 0 then Normal
    else if weight < 150 then Thin
    else if weight < 250 then ExtraLight
    else if weight < 350 then Light
    else if weight < 450 then Normal
    else if weight < 550 then Medium
    else if weight < 650 then DemiBold
    else if weight < 750 then Bold
    else if weight < 850 then ExtraBold
    else Black
  }

  /** The keyword table grows heavier with its index. */
  lemma CssWeightMonotone(m: int, n: int)
    requires 1 <= m <= n <= 9
    ensures CssWeight(m).QtValue() <= CssWeight(n).QtValue()
  {
  }

  /** A heavier CSS weight never gives a lighter QFont weight. */
  lemma WeightBucketMonotone(w1: int, w2: int)
    requires 0 <= w1 <= w2
    ensures WeightBucket(w1).QtValue() <= WeightBucket(w2).QtValue()
  {
    CssWeightMonotone(NearestHundred(w1), NearestHundred(w2));
  }

  /** The two bucketings differ exactly on the gap. */
  lemma WeightBucketAsWrittenDiffersOnGap(weight: int)
    ensures WeightBucketAsWritten(weight) != WeightBucket(weight) <==> 850 <= weight < 950
  {
  }

  /** A QFont as create_font configures it. The family list is kept as the
      raw comma-separated string. The pixel size is None while the font
      keeps the toolkit's default size. */
  datatype Font = Font(families: string, pixelSize: Option<int>, weight: FontWeight, italic: bool, strikeOut: bool, underline: bool)

  /** QFont::setPixelSize on a new font: a positive size is stored; a size
      of zero or less is rejected with a warning, and the default stays. */
  function SetPixelSize(size: int): (px: Option<int>)
    ensures px.Some? <==> size > 0
    ensures px.Some? ==> px.value == size
  {
    if size <= 0 then None else Some(size)
  }

  /** The font create_font builds from its arguments, with the weight
      bucketing as written. */
  function MakeFont(faceName: string, size: int, weight: int, italic: FontStyle, decoration: bv32): (f: Font)
    ensures f.families == faceName
    ensures f.pixelSize.Some? <==> size > 0
    ensures f.pixelSize.Some? ==> f.pixelSize.value == size
    ensures f.weight == WeightBucketAsWritten(weight)
    ensures 0 <= weight && !(850 <= weight < 950) ==> f.weight == CssWeight(NearestHundred(weight))
    ensures f.italic <==> italic == FontStyleItalic
    ensures f.strikeOut <==> decoration & FontDecorationLinethrough != 0
    ensures f.underline <==> decoration & FontDecorationUnderline != 0
  {
    Font(faceName, SetPixelSize(size), WeightBucketAsWritten(weight), italic == FontStyleItalic,
         decoration & FontDecorationLinethrough != 0,
         decoration & FontDecorationUnderline != 0)
  }

  /** Each decoration flag is read from its own bit: setting the underline or
      the line-through bit changes only the flag it names, and the overline
      bit, which a QFont has no use for here, changes neither. */
  lemma DecorationBitsIndependent(faceName: string, size: int, weight: int, italic: FontStyle, decoration: bv32)
    ensures MakeFont(faceName, size, weight, italic, decoration | FontDecorationUnderline).underline
    ensures MakeFont(faceName, size, weight, italic, decoration | FontDecorationUnderline).strikeOut
         == MakeFont(faceName, size, weight, italic, decoration).strikeOut
    ensures MakeFont(faceName, size, weight, italic, decoration | FontDecorationLinethrough).strikeOut
    ensures MakeFont(faceName, size, weight, italic, decoration | FontDecorationLinethrough).underline
         == MakeFont(faceName, size, weight, italic, decoration).underline
    ensures MakeFont(faceName, size, weight, italic, decoration | FontDecorationOverline).underline
         == MakeFont(faceName, size, weight, italic, decoration).underline
    ensures MakeFont(faceName, size, weight, italic, decoration | FontDecorationOverline).strikeOut
         == MakeFont(faceName, size, weight, italic, decoration).strikeOut
  {
    assert (decoration | FontDecorationOverline) & FontDecorationUnderline == decoration & FontDecorationUnderline;
    assert (decoration | FontDecorationOverline) & FontDecorationLinethrough == decoration & FontDecorationLinethrough;
  }

  // ---------------------------------------------------------------------
  // Border edge widths (draw_borders)
  // ---------------------------------------------------------------------

  /** The width draw_borders gives one edge: its own width when that is
      non-zero and its style comes after `hidden`; zero otherwise. This is the
      CSS rule that none and hidden borders have no width. */
  function EdgeWidth(edge: Border): (w: int)
    ensures w == (if edge.style.Paints() then edge.width else 0)
  {
    if edge.width != 0 && edge.style.Ordinal() > StyleHidden.Ordinal() then edge.width else 0
  }

  datatype EdgeWidths = EdgeWidths(top: int, bottom: int, left: int, right: int)

  /** The four edge widths of draw_borders; each is decided by its own edge
      alone. */
  function BorderWidths(borders: Borders): (r: EdgeWidths)
    ensures r.top == (if borders.top.style.Paints() then borders.top.width else 0)
    ensures r.bottom == (if borders.bottom.style.Paints() then borders.bottom.width else 0)
    ensures r.left == (if borders.left.style.Paints() then borders.left.width else 0)
    ensures r.right == (if borders.right.style.Paints() then borders.right.width else 0)
  {
    EdgeWidths(EdgeWidth(borders.top), EdgeWidth(borders.bottom), EdgeWidth(borders.left), EdgeWidth(borders.right))
  }

  // ---------------------------------------------------------------------
  // Clip stack (set_clip, del_clip)
  // ---------------------------------------------------------------------

  /** The rectangle set_clip pushes: along each axis whose flag is false, the
      position's offset and extent are replaced by the client rectangle's. */
  function ClipPosition(pos: Position, client: Position, validX: bool, validY: bool): (r: Position)
    ensures (r.x, r.width) == (if validX then (pos.x, pos.width) else (client.x, client.width))
    ensures (r.y, r.height) == (if validY then (pos.y, pos.height) else (client.y, client.height))
  {
    var clipPos := if validX then pos else pos.(x := client.x, width := client.width);
    if validY then clipPos else clipPos.(y := client.y, height := client.height)
  }

  /** A call to set_clip (with the entry it pushes) or to del_clip. */
  datatype ClipOp = PushClip(entry: ClipBox) | PopClip

  /** The clip stack after one call. */
  function ApplyClipOp(stack: seq<ClipBox>, op: ClipOp): seq<ClipBox> {
    match op
    case PushClip(entry) => stack + [entry]
    case PopClip => if stack == [] then [] else stack[..|stack| - 1]
  }

  /** The clip stack after a sequence of calls, the last call last. */
  function Replay(stack: seq<ClipBox>, ops: seq<ClipOp>): seq<ClipBox>
    decreases |ops|
  {
    if ops == [] then stack
    else ApplyClipOp(Replay(stack, ops[..|ops| - 1]), ops[|ops| - 1])
  }

  /** Pushes minus pops. */
  function Depth(ops: seq<ClipOp>): int
    decreases |ops|
  {
    if ops == [] then 0
    else Depth(ops[..|ops| - 1]) + (if ops[|ops| - 1].PushClip? then 1 else -1)
  }

  /** No prefix of the calls pops more than it pushed. */
  ghost predicate NeverUnderflows(ops: seq<ClipOp>) {
    forall k :: 0 <= k <= |ops| ==> Depth(ops[..k]) >= 0
  }

  /** set_clip followed by del_clip gives back the stack it started from. */
  lemma PushThenPopRestores(stack: seq<ClipBox>, entry: ClipBox)
    ensures ApplyClipOp(ApplyClipOp(stack, PushClip(entry)), PopClip) == stack
  {
  }

  /** Calls that never pop more than they pushed leave the entries that were
      already on the stack in place, below Depth(ops) new ones. */
  lemma {:induction false} ReplayKeepsBase(stack: seq<ClipBox>, ops: seq<ClipOp>)
    requires NeverUnderflows(ops)
    ensures Depth(ops) >= 0
    ensures |Replay(stack, ops)| == |stack| + Depth(ops)
    ensures Replay(stack, ops)[..|stack|] == stack
    decreases |ops|
  {
    assert ops[..|ops|] == ops;
    if ops != [] {
      var init := ops[..|ops| - 1];
      assert NeverUnderflows(init) by {
        forall k | 0 <= k <= |init| ensures Depth(init[..k]) >= 0 {
          assert init[..k] == ops[..k];
        }
      }
      ReplayKeepsBase(stack, init);
      var prev := Replay(stack, init);
      match ops[|ops| - 1]
      case PushClip(entry) =>
        assert Replay(stack, ops) == prev + [entry];
        assert (prev + [entry])[..|stack|] == prev[..|stack|];
      case PopClip =>
        assert |prev| > |stack|;
        assert Replay(stack, ops) == prev[..|prev| - 1];
        assert prev[..|prev| - 1][..|stack|] == prev[..|stack|];
    }
  }

  /** The paint traversal's nesting discipline: calls that never underflow and
      pop as often as they push restore the clip stack; in particular a
      top-level paint that starts with an empty stack ends with one. */
  lemma BalancedCallsRestoreStack(stack: seq<ClipBox>, ops: seq<ClipOp>)
    requires NeverUnderflows(ops) && Depth(ops) == 0
    ensures Replay(stack, ops) == stack
  {
    ReplayKeepsBase(stack, ops);
  }

  // ---------------------------------------------------------------------
  // Images and backgrounds
  // ---------------------------------------------------------------------

  /** A QImage by its dimensions. An image without area is a null image, and
      a null image reports the size 0 x 0. */
  datatype Image = Image(w: int, h: int)
  {
    predicate IsNull() { w <= 0 || h <= 0 }
    function Width(): nat { if IsNull() then 0 else w }
    function Height(): nat { if IsNull() then 0 else h }
  }

  /** A solid colour painted over a rounded rectangle. */
  datatype SolidFill = SolidFill(color: QColor, rect: QRect)

  /** What draw_background does with the cached image: nothing, draw it
      scaled into a rectangle, draw it at a point, or tile it over an area. */
  datatype ImageDraw =
    | NoImage
    | DrawScaled(target: QRect)
    | DrawAt(x: int, y: int, width: int, height: int)
    | Tile(area: QRect)

  /** The decisions of one draw_background call: the clip rectangles
      (intersected), the optional solid fill, and the image drawing. */
  datatype BackgroundPlan = BackgroundPlan(clips: seq<QRect>, fill: Option<SolidFill>, image: ImageDraw)

  // ---------------------------------------------------------------------
  // Fixed queries
  // ---------------------------------------------------------------------

  /** get_media_features: the viewport is the client rectangle, the device
      size is the screen's, and the colour depth, palette size, monochrome
      depth and resolution are fixed for a colour screen. */
  function GetMediaFeatures(client: Position, screenWidth: int, screenHeight: int): (media: MediaFeatures)
    ensures media.mediaType == MediaScreen
    ensures media.width == client.width && media.height == client.height
    ensures media.deviceWidth == screenWidth && media.deviceHeight == screenHeight
    ensures media.color == 8 && media.monochrome == 0
    ensures media.colorIndex == 256 && media.resolution == 96
  {
    MediaFeatures(MediaScreen, client.width, client.height, screenWidth, screenHeight, 8, 256, 0, 96)
  }

  /** get_language: English, with no culture. */
  function GetLanguage(): (r: (string, string))
    ensures r.0 == "en" && r.1 == ""
  {
    ("en", "")
  }

  /** get_default_font_name */
  function GetDefaultFontName(): (name: string)
    ensures name == "Times New Roman"
  {
    "Times New Roman"
  }

  // ---------------------------------------------------------------------
  // The container
  // ---------------------------------------------------------------------

  /** A font handle; 0 is the null handle. */
  type FontHandle = nat

  /** container_qt: its image cache and clip stack, plus the fonts it has
      allocated and not yet deleted. Parsing a URL and decoding an image
      (the pure virtual get_image) are supplied when the container is made. */
  class Container {
    /** QUrl's parser. */
    const parse: string -> Url
    /** get_image(url, redraw_on_ready), provided by the subclass. */
    const getImage: (Url, bool) -> Image

    /** m_images: resolved URL to decoded image. */
    var images: map<Url, Image>
    /** The URLs handed to get_image, in order. */
    ghost var requests: seq<Url>
    /** m_clips: the clip stack, innermost last. */
    var clips: seq<ClipBox>
    /** The live fonts, by handle. */
    var fonts: map<FontHandle, Font>
    /** The next handle to hand out. */
    var nextHandle: FontHandle

    ghost predicate Valid()
      reads this
    {
      && 0 < nextHandle
      && forall h :: h in fonts ==> 0 < h < nextHandle
    }

    constructor (parse: string -> Url, getImage: (Url, bool) -> Image)
      ensures Valid()
      ensures this.parse == parse && this.getImage == getImage
      ensures images == map[] && requests == [] && clips == [] && fonts == map[]
    {
      this.parse := parse;
      this.getImage := getImage;
      images := map[];
      requests := [];
      clips := [];
      fonts := map[];
      nextHandle := 1;
    }

    // ----- fonts -----

    /** create_font: allocates a new font with the requested family list,
        pixel size, weight bucket, italic flag and decorations, and returns
        its handle, which is not null and not the handle of a live font. */
    method CreateFont(faceName: string, size: int, weight: int, italic: FontStyle, decoration: bv32)
      returns (hFont: FontHandle)
      requires Valid()
      modifies this
      ensures Valid()
      ensures hFont != 0 && hFont !in old(fonts)
      ensures fonts == old(fonts)[hFont := MakeFont(faceName, size, weight, italic, decoration)]
      ensures images == old(images) && requests == old(requests) && clips == old(clips)
    {
      hFont := nextHandle;
      fonts := fonts[hFont := MakeFont(faceName, size, weight, italic, decoration)];
      nextHandle := nextHandle + 1;
    }

    /** delete_font: releases a live font. The null handle is ignored and
        changes nothing. */
    method DeleteFont(hFont: FontHandle)
      requires Valid()
      requires hFont == 0 || hFont in fonts
      modifies this
      ensures Valid()
      ensures hFont == 0 ==> unchanged(this)
      ensures fonts == old(fonts) - {hFont}
      ensures images == old(images) && requests == old(requests) && clips == old(clips)
    {
      if hFont == 0 {
        return;
      }
      fonts := fonts - {hFont};
    }

    // ----- images -----

    /** The key an image is cached under: qUrl(src, baseurl). */
    function ImageUrl(src: string, baseurl: Option<string>): Url {
      QUrlOf(parse, src, baseurl)
    }

    /** True when the cache holds a non-null image for the URL. */
    predicate HasImage(url: Url)
      reads this
    {
      url in images && !images[url].IsNull()
    }

    /** load_image: decodes and caches the image unless a non-null one is
        already cached. An absent or null entry is (re)decoded, with the
        redraw flag always true; no other entry changes. */
    method LoadImage(src: string, baseurl: Option<string>, redrawOnReady: bool)
      modifies this
      ensures var url := ImageUrl(src, baseurl);
        if old(HasImage(url)) then
          images == old(images) && requests == old(requests)
        else
          images == old(images)[url := getImage(url, true)] && requests == old(requests) + [url]
      ensures clips == old(clips) && fonts == old(fonts) && nextHandle == old(nextHandle)
    {
      var url := QUrlOf(parse, src, baseurl);
      if url in images && !images[url].IsNull() {
        return;
      }
      images := images[url := getImage(url, true)];
      requests := requests + [url];
    }

    /** get_image_size: the cached image's size when the URL is cached (0 x 0
        for a null image), and 0 x 0 when it is not. */
    function ImageSize(src: string, baseurl: Option<string>): (sz: Size)
      reads this
      ensures var url := ImageUrl(src, baseurl);
        && (url in images ==> sz == Size(images[url].Width(), images[url].Height()))
        && (url !in images ==> sz == Size(0, 0))
      ensures sz.width >= 0 && sz.height >= 0
      ensures sz.width == 0 <==> sz.height == 0
    {
      var url := QUrlOf(parse, src, baseurl);
      if url in images then Size(images[url].Width(), images[url].Height()) else Size(0, 0)
    }

    /** draw_background. Painting is clipped to the clip box; a colour with
        non-zero alpha fills the border box (through qColor, so the fill is
        opaque) and then narrows the clip to it.
        The image, looked up with the background's base URL (never null here),
        is drawn only when a non-null image is cached: at the given size when
        both its dimensions are positive and at the position otherwise when it
        does not repeat, as a strip across the clip box for repeat-x and
        repeat-y, and over the whole clip box for repeat. */
    function DrawBackground(bg: BackgroundPaint): (p: BackgroundPlan)
      reads this
      ensures p.clips == if bg.color.alpha != 0 then [QRectOf(bg.clipBox), QRectOf(bg.borderBox)] else [QRectOf(bg.clipBox)]
      ensures p.fill.Some? <==> bg.color.alpha != 0
      ensures p.fill.Some? ==> p.fill.value.color == QColorAsWritten(bg.color) && p.fill.value.color.alpha == 0xff
      ensures p.fill.Some? ==> p.fill.value.rect == QRectOf(bg.borderBox)
      ensures var url := ImageUrl(bg.image, Some(bg.baseurl));
        && (p.image.NoImage? <==> !HasImage(url))
        && (HasImage(url) ==>
          var image := images[url];
          && (bg.repeat.NoRepeat? && bg.imageSize.width > 0 && bg.imageSize.height > 0 ==>
                p.image.DrawScaled? && p.image.target == MakeQRect(bg.positionX, bg.positionY, bg.imageSize.width, bg.imageSize.height))
          && (bg.repeat.NoRepeat? && !(bg.imageSize.width > 0 && bg.imageSize.height > 0) ==>
                p.image == DrawAt(bg.positionX, bg.positionY, bg.imageSize.width, bg.imageSize.height))
          && (bg.repeat.RepeatX? ==>
                && p.image.Tile?
                && p.image.area.Left() == bg.clipBox.Left() && p.image.area.Width() == bg.clipBox.width
                && p.image.area.Top() == bg.positionY && p.image.area.Height() == image.Height())
          && (bg.repeat.RepeatY? ==>
                && p.image.Tile?
                && p.image.area.Left() == bg.positionX && p.image.area.Width() == image.Width()
                && p.image.area.Top() == bg.clipBox.Top() && p.image.area.Height() == bg.clipBox.height)
          && (bg.repeat.Repeat? ==> p.image == Tile(QRectOf(bg.clipBox))))
    {
      var clip := QRectOf(bg.clipBox);
      var clips := if bg.color.alpha != 0 then [clip, QRectOf(bg.borderBox)] else [clip];
      var fill := if bg.color.alpha != 0 then Some(SolidFill(QColorAsWritten(bg.color), QRectOf(bg.borderBox))) else None;
      var url := QUrlOf(parse, bg.image, Some(bg.baseurl));
      var draw :=
        if url in images && !images[url].IsNull() then
          var image := images[url];
          match bg.repeat
          case NoRepeat =>
            if bg.imageSize.width > 0 && bg.imageSize.height > 0 then
              DrawScaled(MakeQRect(bg.positionX, bg.positionY, bg.imageSize.width, bg.imageSize.height))
            else
              DrawAt(bg.positionX, bg.positionY, bg.imageSize.width, bg.imageSize.height)
          case RepeatX =>
            Tile(MakeQRect(bg.clipBox.Left(), bg.positionY, bg.clipBox.width, image.Height()))
          case RepeatY =>
            Tile(MakeQRect(bg.positionX, bg.clipBox.Top(), image.Width(), bg.clipBox.height))
          case Repeat =>
            Tile(MakeQRect(bg.clipBox.Left(), bg.clipBox.Top(), bg.clipBox.width, bg.clipBox.height))
        else NoImage;
      BackgroundPlan(clips, fill, draw)
    }

    // ----- clipping -----

    /** set_clip: pushes one entry, the clip rectangle (with the client
        rectangle standing in along each axis that is not valid) and the given
        radii. The earlier entries are untouched. */
    method SetClip(pos: Position, bdrRadius: BorderRadiuses, validX: bool, validY: bool, client: Position)
      modifies this
      ensures clips == ApplyClipOp(old(clips), PushClip(MakeClipBox(ClipPosition(pos, client, validX, validY), bdrRadius)))
      ensures |clips| == |old(clips)| + 1 && clips[..|old(clips)|] == old(clips)
      ensures clips[|old(clips)|].box == ClipPosition(pos, client, validX, validY)
      ensures clips[|old(clips)|].radius == bdrRadius
      ensures images == old(images) && requests == old(requests)
      ensures fonts == old(fonts) && nextHandle == old(nextHandle)
    {
      var clipPos := pos;
      if !validX {
        clipPos := clipPos.(x := client.x, width := client.width);
      }
      if !validY {
        clipPos := clipPos.(y := client.y, height := client.height);
      }
      clips := clips + [MakeClipBox(clipPos, bdrRadius)];
    }

    /** del_clip: removes the innermost entry; on an empty stack it does
        nothing. */
    method DelClip()
      modifies this
      ensures clips == ApplyClipOp(old(clips), PopClip)
      ensures old(clips) == [] ==> unchanged(this)
      ensures old(clips) != [] ==> clips == old(clips)[..|old(clips)| - 1]
      ensures images == old(images) && requests == old(requests)
      ensures fonts == old(fonts) && nextHandle == old(nextHandle)
    {
      if clips != [] {
        clips := clips[..|clips| - 1];
      }
    }
  }

  /** Loading the same image twice: the second call decodes again only when
      the first left a null image, and the cache ends as after one call. */
  method LoadImageTwice(c: Container, src: string, baseurl: Option<string>, redrawOnReady: bool)
    modifies c
    ensures var url := c.ImageUrl(src, baseurl);
      && c.images == (if old(c.HasImage(url)) then old(c.images) else old(c.images)[url := c.getImage(url, true)])
      && (old(c.HasImage(url)) ==> c.requests == old(c.requests))
      && (!old(c.HasImage(url)) && !c.getImage(url, true).IsNull() ==> c.requests == old(c.requests) + [url])
      && (!old(c.HasImage(url)) && c.getImage(url, true).IsNull() ==> c.requests == old(c.requests) + [url, url])
  {
    c.LoadImage(src, baseurl, redrawOnReady);
    c.LoadImage(src, baseurl, redrawOnReady);
  }

  /** get_image_size after load_image: the size of the image already cached
      if it was non-null, and otherwise the size of the freshly decoded one. */
  method LoadImageThenSize(c: Container, src: string, baseurl: Option<string>, redrawOnReady: bool)
    returns (sz: Size)
    modifies c
    ensures var url := c.ImageUrl(src, baseurl);
      && (old(c.HasImage(url)) ==> sz == Size(old(c.images)[url].Width(), old(c.images)[url].Height()))
      && (!old(c.HasImage(url)) ==> sz == Size(c.getImage(url, true).Width(), c.getImage(url, true).Height()))
  {
    c.LoadImage(src, baseurl, redrawOnReady);
    sz := c.ImageSize(src, baseurl);
  }

  /** set_clip followed by del_clip leaves the clip stack as it was. */
  method SetClipThenDelClip(c: Container, pos: Position, bdrRadius: BorderRadiuses, validX: bool, validY: bool, client: Position)
    modifies c
    ensures c.clips == old(c.clips)
  {
    c.SetClip(pos, bdrRadius, validX, validY, client);
    c.DelClip();
  }
}
