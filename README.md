# Image compression tool: format resolution and output naming

A browser tool loads an image, re-compresses it at a chosen quality, optionally
converts it to another format or icon size, and offers the result for download.
The pixel work is done by a compression library and the browser canvas. What the
repository itself decides is modelled here:

- which format a conversion aims at — the format requested, or, for `original`,
  the subtype read off the source file's MIME type, with `jpeg` written `jpg`;
- how each target is dispatched: the SVG wrapper (a PNG snapshot inside an
  `<svg>` document), the "ICO" branch (a 32x32 PNG), or the generic canvas encoder;
  the canvas size (the image's own, 32x32 or 180x180), the MIME string handed to
  the encoder, whether the quality is forwarded, and the failure messages;
- the constant tables: icon sizes, the sparse MIME table, the selector's options;
- what the component derives from a finished conversion: the file's MIME type,
  `converted.<ext>`, the "bigger than the original" advisory, and the download
  name `<basename>-compressed.<ext>`; and the guards and resets of its three
  handlers (drop, compress, download).

Modules, leaves first:

- `Wrappers` (`wrappers.dfy`): `Option` for nullable values, `Result` for promises
  that resolve or reject with a message.
- `JsStrings` (`js_strings.dfy`): the JavaScript built-ins the code relies on —
  `split` on one character, `trim`, the decimal text of a number in a template
  literal, the UTF-8 size of a string blob — with their properties (split and
  join are inverse, trimming padded text, decimal text reads back).
- `ImageFormats` (`image_formats.dfy`): the `OutputFormat` union, `FAVICON_SIZE`,
  `APPLE_TOUCH_SIZE`, `MIME_TYPES`, `FORMAT_OPTIONS`.
- `ImageConverter` (`image_converter.dfy`): `getOriginalFormat`, the resolution of
  `original`, `convertToIco`, `convertToSvg`, `convertImageFormat`; the dispatch
  table stated once (`CanvasSize`, `EncoderMime`, `ExpectedRequest`) and proved to
  be what the three code paths do.
- `Compressor` (`image_compressor.dfy`): the derived values of the component and a
  class `ImageCompressor` holding its state, with one method per handler.

The browser is a parameter, `Platform`: whether the image decodes, whether a 2D
context is available, and what `toBlob` and `toDataURL` return for a request
(draw this bitmap at W x H, encode with this MIME string and this optional
quality). A raster result records the request it was encoded from, so the size,
MIME string and quality are visible in the result.

JavaScript `undefined` — what `getOriginalFormat` returns for a MIME type with no
`/` — is its own value, `Target.Undefined`, which template literals render as
`undefined` (so the encoder is asked for `image/undefined` and the file is named
`converted.undefined`).

Three behaviours of the code deserve stating outright:

- the generic branch forwards the quality for every target it handles, including
  `png`, `png-favicon` and `png-apple-touch`; no quality is passed only on the SVG
  and ICO branches;
- `png-favicon` keeps `png-favicon` as its extension in both names and is typed
  `image/png-favicon`; only the download name maps `png-apple-touch` to `png`;
- `original` resolves to whatever subtype the source has (`svg+xml`, `gif`,
  `x-icon`, …), which is then dispatched like any other string: a subtype that is
  not one of the three special names goes through the generic encoder.

One consequence worth noting: the download extension agrees with the converted
file's extension for every selection except `png-apple-touch` — and except
`original` on a source whose MIME subtype is `svg-favicon`, where the converted
file is named `.svg` but the download keeps `.svg-favicon` (`ExtensionAgreement`).

The order of the SVG and ICO checks in `convertImageFormat` cannot matter: the
conditions are disjoint, which `BranchFor` makes visible.

## Model

| member | source | states |
|---|---|---|
| `JsStrings.JoinSplit` | src/app/utils/image-converter.ts:5 | joining the pieces of `split` with the separator gives the original string back |
| `JsStrings.SplitJoin` | src/app/components/ImageCompressor.tsx:114 | splitting a join of separator-free pieces gives the pieces back |
| `JsStrings.Split` | src/app/utils/image-converter.ts:5 | `split` never returns an empty list and no piece contains the separator |
| `JsStrings.SplitCount` | src/app/utils/image-converter.ts:5 | a string contains the separator exactly when it splits into two or more pieces |
| `JsStrings.TrimPadded` | src/app/utils/image-converter.ts:47 | trimming white space around a text that starts and ends with other characters gives that text |
| `JsStrings.DecimalRoundTrip` | src/app/utils/image-converter.ts:44-45 | the decimal text of a size attribute reads back as the number |
| `JsStrings.Utf8Length` | src/app/utils/image-converter.ts:49 | the size of a string blob lies between its length and four times it, and equals the length for ASCII text |
| `ImageFormats.AllFormatsComplete` | src/app/types/image-compressor.ts:8 | every value of the union is in `ALL_FORMATS`, and the union has exactly nine members |
| `ImageFormats.ValueInjective` | src/app/types/image-compressor.ts:8 | two members of the union have the same literal exactly when they are the same member |
| `ImageFormats.MimeTypeTable` | src/app/constants/image-formats.ts:4-9 | the MIME table has entries for `ico`, `svg`, `svg-favicon`, `jpg` only; both SVG formats map to `image/svg+xml`, `ico` to `image/x-icon`, `jpg` to `image/jpeg` and not `image/jpg` |
| `ImageFormats.FormatOptionsDistinct` | src/app/constants/image-formats.ts:12-22 | the selector has nine options with pairwise-distinct values, `original` first |
| `ImageFormats.FormatOptionsCover` | src/app/constants/image-formats.ts:12-22 | the option values are exactly the members of the union |
| `ImageConverter.GetOriginalFormat` | src/app/utils/image-converter.ts:3-7 | no file gives the empty string `''`; the format read off a file is never `jpeg` |
| `ImageConverter.GetOriginalFormatUndefined` | src/app/utils/image-converter.ts:5-6 | a file's format is `undefined` exactly when its MIME type contains no `/` |
| `ImageConverter.GetOriginalFormatSubtype` | src/app/utils/image-converter.ts:3-7 | for a MIME type `p/q` (optionally followed by `/...`) the format is `q`, with `jpeg` written `jpg` |
| `ImageConverter.ResolveTarget` | src/app/utils/image-converter.ts:53 | every request other than `original` resolves to itself |
| `ImageConverter.ResolveOriginalPng` | src/app/utils/image-converter.ts:53 | `original` against an `image/png` source resolves to the same target as an explicit `png` |
| `ImageConverter.BranchByFormat` | src/app/utils/image-converter.ts:59-65 | `svg` and `svg-favicon` take the SVG branch, `isFavicon` only for `svg-favicon`; `ico` the ICO branch; every other format the canvas encoder |
| `ImageConverter.TrimmedSvgTemplate` | src/app/utils/image-converter.ts:43-47 | trimming the SVG template leaves exactly the document, and the document is already trimmed |
| `ImageConverter.RasterBranchRequest` | src/app/utils/image-converter.ts:13-28 | the ICO and canvas branches encode exactly the table's request (size, MIME string, quality or none) and fail with their own message on a null blob |
| `ImageConverter.ConversionErrors` | src/app/utils/image-converter.ts:52-98 | a decode error rejects with `Image loading failed`, a missing context with `Canvas context not available`, a null blob with `ICO conversion failed` on the ICO branch and `Blob conversion failed` otherwise; the SVG branch cannot fail after the context; nothing else rejects |
| `ImageConverter.RasterOutput` | src/app/utils/image-converter.ts:63-90 | a raster conversion resolves with the encoder's bytes for the table's request: 32x32 `image/png` without quality for `ico`, otherwise the table's size, `image/jpeg` for `jpg` or `image/<target>`, with the quality |
| `ImageConverter.SvgOutput` | src/app/utils/image-converter.ts:30-50 | an SVG conversion resolves with an `image/svg+xml` document whose `<svg>` and `<image>` carry the same canvas size and which embeds the PNG data URL of that canvas |
| `ImageConverter.QualityIgnoredOffCanvas` | src/app/utils/image-converter.ts:13-49 | on the SVG and ICO branches, two qualities give the same outcome |
| `ImageConverter.FixedSizes` | src/app/utils/image-converter.ts:68-75 | `ico`, `svg-favicon` and `png-favicon` are 32x32 and `png-apple-touch` 180x180 whatever the source; `jpg`, `png`, `webp`, `svg` keep the source size |
| `ImageConverter.JpgFromPngScenario` | src/app/utils/image-converter.ts:67-90 | a 1000x800 image converted to `jpg` at 0.5 is encoded at 1000x800 as `image/jpeg` with quality 0.5 |
| `Compressor.FinalFormat` | src/app/components/ImageCompressor.tsx:88 | the final format is the source's own for `original` and the selection otherwise |
| `Compressor.ResultMimeType` | src/app/components/ImageCompressor.tsx:89 | the converted file's MIME type always starts with `image/` |
| `Compressor.MimeTypeByFormat` | src/app/components/ImageCompressor.tsx:89 | each selectable format's MIME type: the table's entry for four formats, `image/<format>` for the rest (`png` gives `image/png`, `png-favicon` gives `image/png-favicon`) |
| `Compressor.MimeTypeMatchesEncoder` | src/app/components/ImageCompressor.tsx:88-89 | on the canvas branch the file is typed with the MIME string the encoder was given; an ICO file is typed `image/x-icon` over PNG bytes; SVG files are `image/svg+xml` |
| `Compressor.ConvertedFileName` | src/app/components/ImageCompressor.tsx:90-92 | the converted file is `converted.<ext>`, whose text before the first `.` is `converted` |
| `Compressor.ExtensionByFormat` | src/app/components/ImageCompressor.tsx:115-120 | the converted extension is `svg` for `svg-favicon` and the format otherwise; the download extension also maps `png-apple-touch` to `png`, and `png-favicon` stays `png-favicon`; for `original` the download extension is the source's own format and the converted extension is that format too, except `svg` for a source subtype `svg-favicon` |
| `Compressor.ExtensionAgreement` | src/app/components/ImageCompressor.tsx:90-120 | the two extensions agree exactly when the selection is neither `png-apple-touch` nor `original` on a source whose MIME subtype is `svg-favicon` |
| `Compressor.SizeAdvisory` | src/app/components/ImageCompressor.tsx:97-99 | the advisory is present exactly when the converted size is strictly greater than the original's; equal sizes give none |
| `Compressor.BaseName` | src/app/components/ImageCompressor.tsx:114 | the download base name is `image` when there is no original, and is never empty and contains no `.` |
| `Compressor.BaseNameOf` | src/app/components/ImageCompressor.tsx:114 | the base name is the original name's text before its first `.`, or `image` when that text is empty or there is no original |
| `Compressor.DownloadFileNameBase` | src/app/components/ImageCompressor.tsx:121 | the download name's text before its first `.` is `<basename>-compressed`, which is also the base name a file dropped under that name gets |
| `Compressor.JpgFromPngResult` | src/app/components/ImageCompressor.tsx:81-92 | a 1000x800 PNG converted to `jpg` is encoded at 1000x800 as `image/jpeg`, typed `image/jpeg`, and named `converted.jpg` |
| `Compressor.SvgFaviconResult` | src/app/components/ImageCompressor.tsx:81-92 | any source converted to `svg-favicon` becomes a 32x32 SVG document typed `image/svg+xml` and saved with the extension `svg` |
| `Compressor.ImageCompressor.constructor` | src/app/components/ImageCompressor.tsx:26-36 | the initial state: no original, no result, quality 0.7, both formats `original`, no advisory |
| `Compressor.ImageCompressor.OnDrop` | src/app/components/ImageCompressor.tsx:51-59 | an empty drop changes nothing; otherwise the first file becomes the original and the result and its URL are cleared, all else unchanged |
| `Compressor.ImageCompressor.SelectQuality` | src/app/components/ImageCompressor.tsx:163 | the slider sets the quality only |
| `Compressor.ImageCompressor.SelectFormat` | src/app/components/ImageCompressor.tsx:176 | the selector sets the selection only |
| `Compressor.ImageCompressor.HandleCompress` | src/app/components/ImageCompressor.tsx:70-108 | no original: nothing changes; otherwise the advisory is cleared, and on success the format is recorded and the result is named, typed and sized after it, with the advisory set exactly when the file grew; a failure keeps the old result |
| `Compressor.ImageCompressor.HandleDownload` | src/app/components/ImageCompressor.tsx:111-121 | no download without a result and a non-empty URL; otherwise the link gets the URL and `<basename>-compressed.<ext>` for the recorded format |
| `Compressor.DownloadIgnoresLaterSelection` | src/app/components/ImageCompressor.tsx:86-121 | changing the selector after a compress does not change the downloaded file |

## Left out

- The compression library call (src/app/components/ImageCompressor.tsx:81) runs on a web worker outside this code; the model has only whether it succeeds.
- Decoding, drawing and encoding pixels are platform behaviour: bitmaps, bytes and data URLs are opaque, and so is what the browser does with a MIME string it cannot encode (`image/png-favicon`, `image/gif`).
- Object URLs (creation and revocation, including the original image preview's effect), the hidden `<a>` element and its click are DOM resources; the model keeps only the URL string and the file name a download gets.
- Promises, `async`/`await` and the `onload`/`onerror` wiring are modelled as their outcomes; a handler running while another is in flight, and handlers reading values captured at an earlier render, are not modelled.
- Compressor.ImageCompressor.HandleCompress: models the state after the `finally` only, not the intermediate `loading = true` render.
- The `console.error` log in `handleCompress`'s `catch` (src/app/components/ImageCompressor.tsx:103-104) is console output; the model keeps only the failure's effect on the component state.
- The advisory's message text and every MB figure use floating-point `toFixed`; the model keeps the two byte sizes instead. The slider's percent mapping is display only; quality is an opaque number that is forwarded or not.
- A MIME table lookup with a key inherited from `Object.prototype` (a source typed `image/constructor`, say) would return a function in JavaScript; the model treats such keys as absent.
- The `File` constructor's normalisation of its `type` option (lower-casing, dropping non-ASCII types) is platform behaviour.
- Page layout, rendering, site metadata, sitemap and robots files have no logic of their own.
