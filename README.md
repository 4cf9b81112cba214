# Qt document container for litehtml, modelled in Dafny

litehtml is an HTML/CSS layout engine. It leaves every drawing and measuring
call to a *document container* supplied by the host toolkit. This project
models the value-deciding parts of the Qt container (`container_qt`). Each
part is written in the form the C++ has:

- **Font creation** (`create_font`). A numeric CSS weight is mapped to one of
  QFont's nine weight buckets. The italic flag and the underline and
  line-through bits are read from the arguments. Qt's `QFont::setPixelSize`
  refuses a size of zero or less, so such a font keeps the default size. `delete_font` ignores a null
  handle.
- **Image cache** (`m_images`). `load_image` decodes and stores an image
  unless a non-null one is already cached. `get_image_size` reads the
  cache and never changes it.
- **Clip stack** (`m_clips`). `set_clip` pushes a rectangle and its radii.
  Along an axis flagged invalid, the client rectangle is used instead.
  `del_clip` pops, and does nothing on an empty stack.
- **Border edge widths** in `draw_borders`.
- **Background plan** of `draw_background`. This covers the clip rectangles,
  the solid fill and the rectangle the image is drawn or tiled into for each
  `background-repeat` keyword.
- **Fixed queries**: media features, language and default font name.
- **Header helpers**: `cairo_clip_box`, `qRect`, `qColor` and `qUrl`.

Layout:

- `litehtml.dfy` (module `Litehtml`) holds the engine's value types: position,
  radii, colour, border, background description and media features.
- `qt_helpers.dfy` (module `QtHelpers`) holds the header's helpers.
- `container_qt.dfy` (module `ContainerQt`) holds the pure decisions as
  functions. It also holds the class `Container`, which has the image cache,
  the clip stack and the live fonts as fields. The methods that update these
  fields state the whole new state.

Inputs the container does not compute are passed in:

- Qt's URL parser and the subclass's pure virtual `get_image` are the `const`
  fields `parse` and `getImage` of `Container`. Both are arbitrary functions.
- `get_client_rect` and the screen size become parameters of `SetClip` and
  `GetMediaFeatures`.

A ghost field `requests` records every URL handed to `get_image`. This makes
it visible when `load_image` decodes again.

`m_clips` is declared as a `QRegion` (containers/qt/container_qt.h:72). The code
uses it as a vector of `cairo_clip_box` (`emplace_back`, `pop_back`,
range-for). The model follows the code: a sequence of clip boxes.

## Model

| member | source | states |
|---|---|---|
| `QtHelpers.MakeClipBox` | containers/qt/container_qt.h:37-41 | the constructed clip box holds exactly the given box and radii |
| `QtHelpers.CopyClipBox` | containers/qt/container_qt.h:43-47 | the copy has the original's box and radii, so it equals the original |
| `QtHelpers.AssignClipBox` | containers/qt/container_qt.h:48-54 | after assignment the target holds the source's box and radii whatever it held before; the returned reference is the assigned object |
| `QtHelpers.QRectOf` | containers/qt/container_qt.h:126-128 | the Qt rectangle, stored as inclusive corners, reads back left = x, top = y, width and height unchanged |
| `QtHelpers.QRectOfInjective` | containers/qt/container_qt.h:126-128 | distinct positions give distinct Qt rectangles, so no field is lost |
| `QtHelpers.QRgbaChannels` | containers/qt/container_qt.h:123-125 | packing four channels with qRgba and unpacking with qRed/qGreen/qBlue/qAlpha returns each channel |
| `QtHelpers.QColorAsWritten` | containers/qt/container_qt.h:123-125 | qColor as written keeps red, green and blue, and its alpha is always 255 |
| `QtHelpers.QColorAsWrittenDropsAlpha` | containers/qt/container_qt.h:123-125 | a colour with alpha 0x80 comes out of qColor as written with another alpha |
| `QtHelpers.QColorOf` | containers/qt/container_qt.h:123-125 | corrected qColor: red, green, blue and alpha map one to one |
| `QtHelpers.QColorAsWrittenAgreesWhenOpaque` | containers/qt/container_qt.h:123-125 | qColor as written and corrected qColor agree exactly when the colour is opaque |
| `QtHelpers.QUrlOf` | containers/qt/container_qt.h:112-122 | with a base path, the result is the parsed base with `/` and the url appended to its path and every other component unchanged; without one, it is the url parsed alone |
| `ContainerQt.WeightBucketAsWritten` | containers/qt/container_qt.cpp:58-80 | negative weights give Normal; 850..949 give Normal; every other weight gives the nearest CSS keyword weight (thresholds 150, 250, …, 850; ≥ 950 Black) |
| `ContainerQt.WeightBucketAsWrittenGap` | containers/qt/container_qt.cpp:76-80 | weight 900 gives Normal, lighter than the ExtraBold that 800 gives |
| `ContainerQt.WeightBucket` | containers/qt/container_qt.cpp:58-80 | corrected bucketing: a negative weight gives Normal; every other weight gives its nearest CSS keyword weight, clamped to Thin..Black |
| `ContainerQt.WeightBucketMonotone` | containers/qt/container_qt.cpp:58-80 | for non-negative weights, a heavier request never gives a lighter QFont weight |
| `ContainerQt.WeightBucketAsWrittenDiffersOnGap` | containers/qt/container_qt.cpp:76-80 | the as-written and corrected bucketings differ exactly on weights 850..949 |
| `ContainerQt.SetPixelSize` | containers/qt/container_qt.cpp:83 | a positive size becomes the font's pixel size; a size of zero or less is refused and the default size stays |
| `ContainerQt.MakeFont` | containers/qt/container_qt.cpp:55-87 | the font gets the family list, the pixel size (only when positive) and the as-written weight bucket, which is the nearest CSS keyword except on 850..949; it is italic iff the style is italic; it has strike-out iff the line-through bit is set and underline iff the underline bit is set |
| `ContainerQt.DecorationBitsIndependent` | containers/qt/container_qt.cpp:86-87 | setting the underline bit turns on underline and leaves strike-out as it was, and the same holds the other way round; the overline bit changes neither flag |
| `ContainerQt.Container.CreateFont` | containers/qt/container_qt.cpp:43-98 | returns a non-null handle that names no live font and binds it to the font `MakeFont` configures (weight bucketing as written); the cache and clip stack are unchanged |
| `ContainerQt.Container.DeleteFont` | containers/qt/container_qt.cpp:101-107 | a null handle changes nothing; a live handle is released and nothing else changes |
| `ContainerQt.EdgeWidth` | containers/qt/container_qt.cpp:295-297 | an edge's width counts only if its style is neither none nor hidden; otherwise it is 0 |
| `ContainerQt.BorderWidths` | containers/qt/container_qt.cpp:290-306 | each of the four edge widths is its own edge's width if that edge's style paints, else 0, so the edges are independent |
| `ContainerQt.ClipPosition` | containers/qt/container_qt.cpp:561-571 | the clip rectangle keeps x/width iff valid_x, else takes the client's; the same for y/height with valid_y |
| `ContainerQt.Container.SetClip` | containers/qt/container_qt.cpp:559-573 | the stack grows by exactly one entry at the end: the adjusted rectangle with the given radii; earlier entries and the other fields are unchanged |
| `ContainerQt.Container.DelClip` | containers/qt/container_qt.cpp:575-580 | an empty stack is left alone; otherwise exactly the last entry is removed |
| `ContainerQt.PushThenPopRestores` | containers/qt/container_qt.cpp:559-580 | a push followed by a pop gives back the original stack |
| `ContainerQt.SetClipThenDelClip` | containers/qt/container_qt.cpp:559-580 | on a container, set_clip followed by del_clip leaves the clip stack as it was |
| `ContainerQt.ReplayKeepsBase` | containers/qt/container_qt.cpp:559-580 | if no prefix of the calls pops more than it pushed, the entries already on the stack stay in place below pushes − pops new entries |
| `ContainerQt.BalancedCallsRestoreStack` | containers/qt/container_qt.cpp:559-580 | well-nested set_clip/del_clip calls restore the stack, so a paint that starts with an empty stack ends with one |
| `ContainerQt.Container.constructor` | containers/qt/container_qt.h:69-72 | a new container has an empty image cache, an empty clip stack and no live fonts |
| `ContainerQt.Container.LoadImage` | containers/qt/container_qt.cpp:183-192 | if a non-null image is cached for the url, nothing changes and nothing is decoded; otherwise the entry becomes get_image(url, true), only that entry changes, and one decode is recorded |
| `ContainerQt.LoadImageThenSize` | containers/qt/container_qt.cpp:183-206 | get_image_size after load_image gives the size of the non-null image that was already cached, or else the size of get_image(url, true) |
| `ContainerQt.LoadImageTwice` | containers/qt/container_qt.cpp:187-191 | loading twice leaves the cache as one load would; the second call decodes again only when the first stored a null image |
| `ContainerQt.Container.ImageSize` | containers/qt/container_qt.cpp:194-206 | a cached url gives the cached image's width and height (0 x 0 for a null image); an uncached url gives 0 x 0; the cache is only read |
| `ContainerQt.Container.DrawBackground` | containers/qt/container_qt.cpp:208-251 | clipping is to the clip box; when the colour's alpha is non-zero, the border box is first filled with qColor of the colour (as written, so opaque) and then the clip is narrowed to the border box. The image is drawn only if a non-null image is cached under the background's url. No-repeat draws it at the given size or position; repeat-x tiles (clip.left, position_y, clip.width, image.height); repeat-y tiles (position_x, clip.top, image.width, clip.height); repeat tiles the whole clip box |
| `ContainerQt.GetMediaFeatures` | containers/qt/container_qt.cpp:727-740 | type screen, width/height from the client rectangle, device size from the screen, colour 8, monochrome 0, colour index 256, resolution 96 |
| `ContainerQt.GetLanguage` | containers/qt/container_qt.cpp:742-746 | the language is "en" and the culture is empty |
| `ContainerQt.GetDefaultFontName` | containers/qt/container_qt.cpp:646-649 | the default font name is "Times New Roman" |

## Findings

| source | as written | input that shows it | evidently intended | confidence | as-written member | corrected member |
|---|---|---|---|---|---|---|
| containers/qt/container_qt.cpp:76-80 | the last test is `else if (weight >= 950)`, so weights 850..949 match no branch and keep the initial `Normal` | weight 900, the CSS keyword `black`, gives Normal, lighter than the ExtraBold of 800 | a plain `else` that makes every weight from 850 up Black, which continues the 100-wide bands | high; not executed | `ContainerQt.WeightBucketAsWritten`, `ContainerQt.WeightBucketAsWrittenGap` | `ContainerQt.WeightBucket`, `ContainerQt.WeightBucketMonotone` |
| containers/qt/container_qt.h:123-125 | qColor returns the packed `qRgba(...)` value from a function returning `QColor`. The value is converted by `QColor(QRgb)`, which Qt documents as ignoring alpha and making the colour opaque | web colour (0x20, 0x40, 0x60, 0x80): the semi-transparent background fill in draw_background is painted fully opaque | keep alpha, e.g. with `QColor::fromRgba` | medium; not executed; relies on Qt's documented conversion, which is not part of this model | `QtHelpers.QColorAsWritten`, `QtHelpers.QColorAsWrittenDropsAlpha` | `QtHelpers.QColorOf` |

The rest of the model follows the code as written: `MakeFont` uses
`WeightBucketAsWritten`, and `DrawBackground` fills with `QColorAsWritten`. The
corrected members and their lemmas sit beside them as the intended behaviour.

## Left out

- Drawing through QPainter is a toolkit side effect with no result in the model. This covers `draw_text`, `draw_list_marker`, the fills and image draws in `draw_background`, `set_color` and `apply_clip`.
- `draw_borders` past the edge widths is left out: the arc geometry of the rounded corners uses floating-point angles, and it calls cairo functions that are not Qt's. The same goes for `add_path_arc`, `rounded_rectangle`, `draw_ellipse` and `fill_ellipse`.
- `draw_pixbuf` and `surface_from_pixbuf` are Gdk/Cairo code. The screen size that `get_media_features` reads from Gdk is a parameter.
- `text_width`, the font metrics `create_font` writes through `fm`, and `get_default_font_size` all come from QFontMetrics or QFont defaults.
- The family list in `create_font` is not split on commas or trimmed. `split_string` and `trim` are not part of this model, so the list is kept as the raw string.
- `get_image` is pure virtual and is modelled as an arbitrary function. QUrl parsing is also an arbitrary function. Any normalisation `QUrl::setPath` applies to the joined path is not modelled.
- `DrawBackground` does not model the corner radius passed to `drawRoundedRect`.
- `draw_text` sets its clip from `m_clip`, which the header does not declare. This is not modelled.
- `make_url`, `transform_text`, `create_element`, `link` and `clear_images` are trivial stubs: `make_url` copies the url unchanged, `create_element` returns null, and the others are empty or commented out.
- `pt_to_px` is declared in the header but not defined in container_qt.cpp.
- The destructor and the temporary surface and painter made by the constructor are not modelled, and neither is logging.
- `Container.CreateFont` does not model heap addresses. Handles come from a counter, so a handle is never reused after deletion, while an allocator may reuse a freed address.
- `Container.DeleteFont` requires a null or live handle. Deleting any other pointer is undefined behaviour in C++.
- `QtHelpers.QRectOf` does not model 32-bit overflow. Coordinates are unbounded integers, so wrap-around in `x + width - 1` is left out.
