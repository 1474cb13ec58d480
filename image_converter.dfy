/**
 * The format conversion step: reading a format name off a file's MIME type,
 * resolving `original` to it, and the dispatch that draws the decoded image
 * on a canvas of the right size and encodes it (as an SVG wrapper, as a
 * 32x32 PNG labelled ICO, or through the platform encoder).
 *
 * The canvas itself is abstracted: a draw at W x H followed by an encode with
 * a MIME string and an optional quality is an `EncodeRequest`, and what the
 * platform returns for it (bytes, a data URL, or nothing) is a parameter.
 */
module ImageConverter {

  import opened Wrappers
  import opened JsStrings
  import opened ImageFormats

  /** A `File`: its name, its declared MIME type (`file.type`) and its byte size. */
  datatype SourceFile = SourceFile(name: string, mimeType: string, size: nat)

  /** A format name as the code handles it: a string, or JavaScript's
      `undefined` when the MIME type has no `/`. */
  datatype Target = Undefined | Named(name: string) {
    /** The text a template literal `${t}` produces. */
    function Text(): string {
      match this
      case Undefined => "undefined"
      case Named(n) => n
    }
  }

  /** `getOriginalFormat`: the second `/`-separated piece of the MIME type,
      with `jpeg` written `jpg`; `''` for no file. */
  function GetOriginalFormat(file: Option<SourceFile>): (t: Target)
    ensures file.None? ==> t == Named("")
    ensures t != Named("jpeg")
  {
    match file
    case None => Named("")
    case Some(f) =>
      var pieces := Split(f.mimeType, '/');
      if |pieces| < 2 then Undefined
      else if pieces[1] == "jpeg" then Named("jpg")
      else Named(pieces[1])
  }

  /** A MIME type without `/` gives `undefined`, and only such a type does. */
  lemma GetOriginalFormatUndefined(f: SourceFile)
    ensures GetOriginalFormat(Some(f)) == Undefined <==> '/' !in f.mimeType
  {
    SplitCount(f.mimeType, '/');
  }

  /** For `p/q` followed by nothing or by another `/...`, the format is `q`,
      except that `jpeg` becomes `jpg`. */
  lemma GetOriginalFormatSubtype(f: SourceFile, p: string, q: string, rest: string)
    requires f.mimeType == p + "/" + q + rest
    requires '/' !in p && '/' !in q
    requires rest == "" || rest[0] == '/'
    ensures GetOriginalFormat(Some(f)) == Named(if q == "jpeg" then "jpg" else q)
  {
    assert f.mimeType == p + ['/'] + (q + rest);
    SplitAtSeparator(p, '/', q + rest);
    FirstPiece(q, '/', rest);
  }

  /** The format a conversion aims at (also `finalFormat` in the component):
      the source's own format for `original`, the request itself otherwise. */
  function ResolveTarget(format: string, original: Option<SourceFile>): (t: Target)
    ensures format != "original" ==> t == Named(format)
  {
    if format == "original" then GetOriginalFormat(original) else Named(format)
  }

  /** Resolving `original` against a PNG source is the same as asking for `png`. */
  lemma ResolveOriginalPng(f: SourceFile, other: Option<SourceFile>)
    requires f.mimeType == "image/png"
    ensures ResolveTarget("original", Some(f)) == ResolveTarget("png", other) == Named("png")
  {
    GetOriginalFormatSubtype(f, "image", "png", "");
  }

  /** The branch of `convertImageFormat` a target takes. */
  datatype Branch = SvgWrapper(isFavicon: bool) | IcoIcon | GenericCanvas

  function BranchFor(t: Target): Branch {
    if t == Named("svg") || t == Named("svg-favicon") then SvgWrapper(t == Named("svg-favicon"))
    else if t == Named("ico") then IcoIcon
    else GenericCanvas
  }

  /** The branch each selectable format takes: both SVG formats the wrapper
      (`isFavicon` only for `svg-favicon`), `ico` the ICO branch, the rest the
      canvas encoder. */
  lemma BranchByFormat(f: OutputFormat)
    requires f != Original
    ensures BranchFor(Named(Value(f))) ==
      match f
      case Svg => SvgWrapper(false)
      case SvgFavicon => SvgWrapper(true)
      case Ico => IcoIcon
      case _ => GenericCanvas
  {
  }

  /** A decoded image: its natural size and its (opaque) pixels. */
  datatype Bitmap = Bitmap(width: nat, height: nat, pixels: seq<bv8>)

  /** Draw `source` on a `width` x `height` canvas, then encode it with `mime`,
      passing `quality` to the encoder when present. */
  datatype EncodeRequest = EncodeRequest(source: Bitmap, width: nat, height: nat, mime: string, quality: Option<real>)

  /** What the browser does: decode the image (`None`: `onerror`), hand out a
      2D context (or not), and encode a canvas with `toBlob` (`None`: a null
      blob) or `toDataURL`. */
  datatype Platform = Platform(
    decoded: Option<Bitmap>,
    hasContext2d: bool,
    toBlob: EncodeRequest -> Option<seq<bv8>>,
    toDataUrl: EncodeRequest -> string)

  /** A converted blob: encoder output for a request, or the SVG text with its type. */
  datatype Blob = RasterBlob(request: EncodeRequest, bytes: seq<bv8>) | SvgBlob(text: string, blobType: string)

  const IMAGE_LOADING_FAILED := "Image loading failed"
  const CONTEXT_NOT_AVAILABLE := "Canvas context not available"
  const BLOB_CONVERSION_FAILED := "Blob conversion failed"
  const ICO_CONVERSION_FAILED := "ICO conversion failed"

  const SVG_OPEN: string := "<svg xmlns=\"http://www.w3.org/2000/svg\" "
  const IMAGE_OPEN: string := ">\n      <image "
  const HREF_OPEN: string := " href=\""
  const SVG_CLOSE: string := "\" />\n    </svg>"

  /** The `width="..." height="..."` pair both elements carry. */
  function SizeAttributes(width: nat, height: nat): string {
    "width=\"" + Decimal(width) + "\" height=\"" + Decimal(height) + "\""
  }

  /** The SVG document of `convertToSvg` once trimmed: an `<svg>` element and
      the `<image>` inside it carry the same size attributes, and the image
      refers to `href`. */
  function SvgDocument(width: nat, height: nat, href: string): string {
    SVG_OPEN + SizeAttributes(width, height) + IMAGE_OPEN + SizeAttributes(width, height) + HREF_OPEN + href + SVG_CLOSE
  }

  /** The template literal of `convertToSvg`, before `trim()`: the document on
      its own lines, after a line break and indentation. */
  function SvgTemplate(width: nat, height: nat, href: string): string {
    "\n    " + SvgDocument(width, height, href) + "\n  "
  }

  /** Trimming the template leaves exactly the document, which trimming again
      does not change. */
  lemma TrimmedSvgTemplate(width: nat, height: nat, href: string)
    ensures Trim(SvgTemplate(width, height, href)) == SvgDocument(width, height, href)
    ensures Trim(SvgDocument(width, height, href)) == SvgDocument(width, height, href)
  {
    var doc := SvgDocument(width, height, href);
    SvgDocumentEnds(width, height, href);
    assert AllWhiteSpace("\n    ") && AllWhiteSpace("\n  ") && AllWhiteSpace("");
    TrimPadded("\n    ", doc, "\n  ");
    TrimPadded("", doc, "");
    assert "" + doc + "" == doc;
  }

  /** The document starts with `<` and ends with `>`. */
  lemma SvgDocumentEnds(width: nat, height: nat, href: string)
    ensures var doc := SvgDocument(width, height, href);
      doc != [] && doc[0] == '<' && doc[|doc| - 1] == '>'
  {
    var doc := SvgDocument(width, height, href);
    var tail := SizeAttributes(width, height) + IMAGE_OPEN + SizeAttributes(width, height) + HREF_OPEN + href;
    assert doc == SVG_OPEN + (tail + SVG_CLOSE);
    assert doc == (SVG_OPEN + tail) + SVG_CLOSE;
  }

  /** `convertToIco`: a 32x32 canvas encoded as PNG, with no quality argument. */
  function ConvertToIco(img: Bitmap, p: Platform): Result<Blob> {
    var request := EncodeRequest(img, FAVICON_SIZE, FAVICON_SIZE, "image/png", None);
    if !p.hasContext2d then Failure(CONTEXT_NOT_AVAILABLE)
    else
      match p.toBlob(request)
      case None => Failure(ICO_CONVERSION_FAILED)
      case Some(bytes) => Success(RasterBlob(request, bytes))
  }

  /** `convertToSvg`: a PNG snapshot of the canvas (32x32 for a favicon, the
      image's own size otherwise) wrapped in an SVG document. */
  function ConvertToSvg(img: Bitmap, isFavicon: bool, p: Platform): Result<Blob> {
    var width := if isFavicon then FAVICON_SIZE else img.width;
    var height := if isFavicon then FAVICON_SIZE else img.height;
    if !p.hasContext2d then Failure(CONTEXT_NOT_AVAILABLE)
    else
      var dataUrl := p.toDataUrl(EncodeRequest(img, width, height, "image/png", None));
      Success(SvgBlob(Trim(SvgTemplate(width, height, dataUrl)), "image/svg+xml"))
  }

  /** The generic branch of `convertImageFormat`: the image's own size unless
      the target is `png-favicon` or `png-apple-touch`, then `toBlob` with
      `image/<target>` (`image/jpeg` for `jpg`) and the quality. */
  function ConvertOnCanvas(img: Bitmap, target: Target, quality: real, p: Platform): Result<Blob> {
    var width :=
      if target == Named("png-favicon") then FAVICON_SIZE
      else if target == Named("png-apple-touch") then APPLE_TOUCH_SIZE
      else img.width;
    var height :=
      if target == Named("png-favicon") then FAVICON_SIZE
      else if target == Named("png-apple-touch") then APPLE_TOUCH_SIZE
      else img.height;
    if !p.hasContext2d then Failure(CONTEXT_NOT_AVAILABLE)
    else
      var request := EncodeRequest(img, width, height,
        "image/" + (if target == Named("jpg") then "jpeg" else target.Text()), Some(quality));
      match p.toBlob(request)
      case None => Failure(BLOB_CONVERSION_FAILED)
      case Some(bytes) => Success(RasterBlob(request, bytes))
  }

  /** `convertImageFormat`: the outcome of the promise it returns. */
  function ConvertImageFormat(format: string, quality: real, original: Option<SourceFile>, p: Platform): Result<Blob> {
    var target := ResolveTarget(format, original);
    match p.decoded
    case None => Failure(IMAGE_LOADING_FAILED)
    case Some(img) =>
      match BranchFor(target)
      case SvgWrapper(isFavicon) => ConvertToSvg(img, isFavicon, p)
      case IcoIcon => ConvertToIco(img, p)
      case GenericCanvas => ConvertOnCanvas(img, target, quality, p)
  }

  // ---------------------------------------------------------------------
  // The dispatch table, stated once per column
  // ---------------------------------------------------------------------

  /** Output size: 32x32 for `ico`, `svg-favicon` and `png-favicon`, 180x180
      for `png-apple-touch`, the image's own size for everything else. */
  function CanvasSize(t: Target, img: Bitmap): (nat, nat) {
    if t == Named("ico") || t == Named("svg-favicon") || t == Named("png-favicon") then (FAVICON_SIZE, FAVICON_SIZE)
    else if t == Named("png-apple-touch") then (APPLE_TOUCH_SIZE, APPLE_TOUCH_SIZE)
    else (img.width, img.height)
  }

  /** The MIME string handed to the encoder on the raster branches. */
  function EncoderMime(t: Target): string {
    if t == Named("ico") then "image/png"
    else if t == Named("jpg") then "image/jpeg"
    else "image/" + t.Text()
  }

  /** The request the raster branches make for a target. */
  function ExpectedRequest(t: Target, img: Bitmap, quality: real): EncodeRequest {
    var (w, h) := CanvasSize(t, img);
    EncodeRequest(img, w, h, EncoderMime(t), if t == Named("ico") then None else Some(quality))
  }

  /** The raster branches encode exactly the request of the table. */
  lemma RasterBranchRequest(t: Target, img: Bitmap, quality: real, p: Platform)
    requires !BranchFor(t).SvgWrapper? && p.hasContext2d
    ensures var req := ExpectedRequest(t, img, quality);
      var r := if BranchFor(t) == IcoIcon then ConvertToIco(img, p) else ConvertOnCanvas(img, t, quality, p);
      r == if p.toBlob(req).Some? then Success(RasterBlob(req, p.toBlob(req).value))
           else Failure(if BranchFor(t) == IcoIcon then ICO_CONVERSION_FAILED else BLOB_CONVERSION_FAILED)
  {
    if BranchFor(t) == GenericCanvas {
      assert t != Named("ico") && t != Named("svg-favicon");
      var sub := if t == Named("jpg") then "jpeg" else t.Text();
      assert "image/" + sub == EncoderMime(t);
    }
  }

  /** Which conversions reject, and with which message. */
  lemma ConversionErrors(format: string, quality: real, original: Option<SourceFile>, p: Platform)
    ensures var r := ConvertImageFormat(format, quality, original, p);
      var t := ResolveTarget(format, original);
      && (p.decoded.None? ==> r == Failure(IMAGE_LOADING_FAILED))
      && (p.decoded.Some? && !p.hasContext2d ==> r == Failure(CONTEXT_NOT_AVAILABLE))
      && (p.decoded.Some? && p.hasContext2d ==>
            if BranchFor(t).SvgWrapper? then r.Success?
            else if p.toBlob(ExpectedRequest(t, p.decoded.value, quality)).Some? then r.Success?
            else r == Failure(if BranchFor(t) == IcoIcon then ICO_CONVERSION_FAILED else BLOB_CONVERSION_FAILED))
  {
    if p.decoded.Some? && p.hasContext2d && !BranchFor(ResolveTarget(format, original)).SvgWrapper? {
      RasterBranchRequest(ResolveTarget(format, original), p.decoded.value, quality, p);
    }
  }

  /** A successful raster conversion carries the request of the table for its
      target: size, encoder MIME, and quality forwarded exactly off the ICO
      branch; its bytes are what the encoder returned for that request. */
  lemma RasterOutput(format: string, quality: real, original: Option<SourceFile>, p: Platform)
    requires p.decoded.Some? && p.hasContext2d
    requires !BranchFor(ResolveTarget(format, original)).SvgWrapper?
    ensures var t := ResolveTarget(format, original);
      var req := ExpectedRequest(t, p.decoded.value, quality);
      ConvertImageFormat(format, quality, original, p) ==
        if p.toBlob(req).Some? then Success(RasterBlob(req, p.toBlob(req).value))
        else Failure(if BranchFor(t) == IcoIcon then ICO_CONVERSION_FAILED else BLOB_CONVERSION_FAILED)
  {
    RasterBranchRequest(ResolveTarget(format, original), p.decoded.value, quality, p);
  }

  /** A successful SVG conversion is the trimmed document at the table's size,
      embedding the PNG data URL of that canvas, typed `image/svg+xml`. */
  lemma SvgOutput(format: string, quality: real, original: Option<SourceFile>, p: Platform)
    requires p.decoded.Some? && p.hasContext2d
    requires BranchFor(ResolveTarget(format, original)).SvgWrapper?
    ensures var t := ResolveTarget(format, original);
      var img := p.decoded.value;
      var size := CanvasSize(t, img);
      var href := p.toDataUrl(EncodeRequest(img, size.0, size.1, "image/png", None));
      ConvertImageFormat(format, quality, original, p) ==
        Success(SvgBlob(SvgDocument(size.0, size.1, href), "image/svg+xml"))
  {
    var t := ResolveTarget(format, original);
    var img := p.decoded.value;
    var fav := BranchFor(t).isFavicon;
    var size := CanvasSize(t, img);
    assert size == if fav then (FAVICON_SIZE, FAVICON_SIZE) else (img.width, img.height);
    var href := p.toDataUrl(EncodeRequest(img, size.0, size.1, "image/png", None));
    assert ConvertImageFormat(format, quality, original, p) == ConvertToSvg(img, fav, p);
    assert ConvertToSvg(img, fav, p) == Success(SvgBlob(Trim(SvgTemplate(size.0, size.1, href)), "image/svg+xml"));
    TrimmedSvgTemplate(size.0, size.1, href);
  }

  /** Quality cannot influence the SVG and ICO branches. */
  lemma QualityIgnoredOffCanvas(format: string, q1: real, q2: real, original: Option<SourceFile>, p: Platform)
    requires BranchFor(ResolveTarget(format, original)) != GenericCanvas
    ensures ConvertImageFormat(format, q1, original, p) == ConvertImageFormat(format, q2, original, p)
  {
  }

  /** The fixed icon sizes do not depend on the source image. */
  lemma FixedSizes(img: Bitmap)
    ensures CanvasSize(Named("ico"), img) == CanvasSize(Named("svg-favicon"), img)
         == CanvasSize(Named("png-favicon"), img) == (32, 32)
    ensures CanvasSize(Named("png-apple-touch"), img) == (180, 180)
    ensures forall f: OutputFormat :: f in {Jpg, Png, Webp, Svg} ==>
              CanvasSize(Named(Value(f)), img) == (img.width, img.height)
  {
  }

  /** A 1000x800 PNG converted to `jpg`: a 1000x800 JPEG encode at the chosen quality. */
  lemma JpgFromPngScenario(original: SourceFile, p: Platform)
    requires original.mimeType == "image/png"
    requires p.decoded.Some? && p.decoded.value.width == 1000 && p.decoded.value.height == 800
    requires p.hasContext2d
    requires p.toBlob(EncodeRequest(p.decoded.value, 1000, 800, "image/jpeg", Some(0.5))).Some?
    ensures var r := ConvertImageFormat("jpg", 0.5, Some(original), p);
      r.Success? && r.value.RasterBlob? &&
      r.value.request == EncodeRequest(p.decoded.value, 1000, 800, "image/jpeg", Some(0.5))
  {
    RasterOutput("jpg", 0.5, Some(original), p);
  }
}
