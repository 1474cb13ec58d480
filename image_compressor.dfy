/**
 * The image compressor component: what it derives from a finished conversion
 * (the result's MIME type and file name, the size advisory, the download
 * name), and the state its three handlers keep — a dropped file, the last
 * converted result and the format it was converted with.
 */
module Compressor {

  import opened Wrappers
  import opened JsStrings
  import opened ImageFormats
  import opened ImageConverter

  // ---------------------------------------------------------------------
  // Derived values
  // ---------------------------------------------------------------------

  /** `finalFormat`: the source's own format for `original`, the selection otherwise. */
  function FinalFormat(selection: OutputFormat, original: Option<SourceFile>): (t: Target)
    ensures selection == Original ==> t == GetOriginalFormat(original)
    ensures selection != Original ==> t == Named(Value(selection))
  {
    ValueInjective(selection, Original);
    ResolveTarget(Value(selection), original)
  }

  /** The MIME type of the converted file: the table's entry when it has one,
      `image/<format>` otherwise. */
  function ResultMimeType(final: Target): (m: string)
    ensures "image/" <= m
  {
    var key := final.Text();
    if key in MIME_TYPES then
      assert MIME_TYPES[key] in {"image/x-icon", "image/svg+xml", "image/jpeg"};
      MIME_TYPES[key]
    else "image/" + key
  }

  /** The extension of `converted.<ext>`: `svg` for `svg-favicon`, the format itself otherwise. */
  function ConvertedExtension(final: Target): string {
    if final == Named("svg-favicon") then "svg" else final.Text()
  }

  /** The name of the converted file. */
  function ConvertedFileName(final: Target): (name: string)
    ensures name == "converted." + ConvertedExtension(final)
    ensures Split(name, '.')[0] == "converted"
  {
    var name := "converted." + ConvertedExtension(final);
    assert name == "converted" + ("." + ConvertedExtension(final));
    FirstPiece("converted", '.', "." + ConvertedExtension(final));
    name
  }

  /** The data the advisory reports: both sizes in bytes. */
  datatype SizeWarning = SizeWarning(convertedSize: nat, originalSize: nat)

  /** The "bigger than the original" advisory: present exactly when the
      converted file is strictly larger. */
  function SizeAdvisory(convertedSize: nat, originalSize: nat): (w: Option<SizeWarning>)
    ensures w.Some? <==> convertedSize > originalSize
    ensures w.Some? ==> w.value.convertedSize == convertedSize && w.value.originalSize == originalSize
  {
    if convertedSize > originalSize then Some(SizeWarning(convertedSize, originalSize)) else None
  }

  /** The extension of the downloaded file, read off the format recorded at
      compress time. */
  function DownloadExtension(current: OutputFormat, original: Option<SourceFile>): string {
    if current == Original then GetOriginalFormat(original).Text()
    else if current == SvgFavicon then "svg"
    else if current == PngAppleTouch then "png"
    else Value(current)
  }

  /** The text of the original name before its first `.`, or `image` when
      that is empty or there is no original. */
  function BaseName(original: Option<SourceFile>): (base: string)
    ensures original.None? ==> base == "image"
    ensures base != "" && '.' !in base
  {
    match original
    case None => "image"
    case Some(f) =>
      var first := Split(f.name, '.')[0];
      if first == "" then "image" else first
  }

  /** `<basename>-compressed.<ext>`. */
  function DownloadFileName(original: Option<SourceFile>, current: OutputFormat): string {
    BaseName(original) + "-compressed." + DownloadExtension(current, original)
  }

  // ---------------------------------------------------------------------
  // Properties of the derived values
  // ---------------------------------------------------------------------

  /** The MIME type for each selectable format: four from the table, the rest
      `image/<format>`, so `png-favicon` is typed `image/png-favicon`. */
  lemma MimeTypeByFormat(f: OutputFormat)
    requires f != Original
    ensures ResultMimeType(FinalFormat(f, None)) ==
      match f
      case Jpg => "image/jpeg"
      case Png => "image/png"
      case Webp => "image/webp"
      case Ico => "image/x-icon"
      case Svg => "image/svg+xml"
      case SvgFavicon => "image/svg+xml"
      case PngFavicon => "image/png-favicon"
      case PngAppleTouch => "image/png-apple-touch"
  {
    MimeTypeTable(f);
  }

  /** On the generic canvas branch the file is typed with the very MIME
      string the encoder was asked for; an ICO result is typed `image/x-icon`
      although its bytes were encoded as `image/png`; an SVG result is typed
      like its blob. */
  lemma MimeTypeMatchesEncoder(t: Target)
    ensures BranchFor(t) == GenericCanvas ==> ResultMimeType(t) == EncoderMime(t)
    ensures BranchFor(t) == IcoIcon ==> ResultMimeType(t) == "image/x-icon" && EncoderMime(t) == "image/png"
    ensures BranchFor(t).SvgWrapper? ==> ResultMimeType(t) == "image/svg+xml"
  {
    if BranchFor(t) == GenericCanvas {
      if t.Text() in MIME_TYPES {
        assert t.Text() == "jpg";
        assert t == Named("jpg");
      }
    }
  }

  /** The converted-file and download extensions for each selection; for
      `original` both come from the source's own format. */
  lemma ExtensionByFormat(f: OutputFormat, original: Option<SourceFile>)
    ensures f != Original ==>
      ConvertedExtension(FinalFormat(f, original)) == (if f == SvgFavicon then "svg" else Value(f))
    ensures f != Original ==>
      DownloadExtension(f, original) ==
        (if f == SvgFavicon then "svg" else if f == PngAppleTouch then "png" else Value(f))
    ensures f == Original ==>
      ConvertedExtension(FinalFormat(f, original)) ==
        (if GetOriginalFormat(original) == Named("svg-favicon") then "svg" else GetOriginalFormat(original).Text())
    ensures f == Original ==> DownloadExtension(f, original) == GetOriginalFormat(original).Text()
  {
    ValueInjective(f, SvgFavicon);
  }

  /** The download extension agrees with the converted file's extension except
      for `png-apple-touch`, and for `original` on a source whose MIME subtype
      is `svg-favicon`. */
  lemma ExtensionAgreement(f: OutputFormat, original: Option<SourceFile>)
    ensures DownloadExtension(f, original) == ConvertedExtension(FinalFormat(f, original))
        <==> !(f == PngAppleTouch || (f == Original && GetOriginalFormat(original) == Named("svg-favicon")))
  {
    ExtensionByFormat(f, original);
    ValueInjective(f, PngAppleTouch);
  }

  /** The base name is the text before the first `.` of the original's name,
      `image` when that text is empty or there is no original. */
  lemma BaseNameOf(f: SourceFile, stem: string, rest: string)
    requires f.name == stem + rest
    requires '.' !in stem
    requires rest == "" || rest[0] == '.'
    ensures BaseName(Some(f)) == if stem == "" then "image" else stem
    ensures BaseName(None) == "image"
  {
    FirstPiece(stem, '.', rest);
  }

  /** The download name's text before its first `.` is `<basename>-compressed`,
      so a file dropped under that name gets that text as its base name. */
  lemma DownloadFileNameBase(original: Option<SourceFile>, current: OutputFormat, mimeType: string, size: nat)
    ensures Split(DownloadFileName(original, current), '.')[0] == BaseName(original) + "-compressed"
    ensures BaseName(Some(SourceFile(DownloadFileName(original, current), mimeType, size)))
         == BaseName(original) + "-compressed"
  {
    var stem := BaseName(original) + "-compressed";
    var rest := "." + DownloadExtension(current, original);
    assert DownloadFileName(original, current) == stem + rest;
    assert '.' !in "-compressed";
    FirstPiece(stem, '.', rest);
  }

  /** Selecting `jpg` for a 1000x800 PNG gives a 1000x800 JPEG encode, a file
      typed `image/jpeg` and the extension `jpg`. */
  lemma JpgFromPngResult(original: SourceFile, p: Platform)
    requires original.mimeType == "image/png"
    requires p.decoded.Some? && p.decoded.value.width == 1000 && p.decoded.value.height == 800
    requires p.hasContext2d
    requires p.toBlob(EncodeRequest(p.decoded.value, 1000, 800, "image/jpeg", Some(0.5))).Some?
    ensures var r := ConvertImageFormat(Value(Jpg), 0.5, Some(original), p);
      && r.Success? && r.value.RasterBlob?
      && r.value.request.width == 1000 && r.value.request.height == 800
      && r.value.request.mime == "image/jpeg"
    ensures ResultMimeType(FinalFormat(Jpg, Some(original))) == "image/jpeg"
    ensures ConvertedFileName(FinalFormat(Jpg, Some(original))) == "converted.jpg"
    ensures DownloadExtension(Jpg, Some(original)) == "jpg"
  {
    JpgFromPngScenario(original, p);
    MimeTypeByFormat(Jpg);
  }

  /** Selecting `svg-favicon` for any source gives a 32x32 SVG wrapper typed
      `image/svg+xml`, saved with the extension `svg`. */
  lemma SvgFaviconResult(original: SourceFile, quality: real, p: Platform)
    requires p.decoded.Some? && p.hasContext2d
    ensures var img := p.decoded.value;
      var href := p.toDataUrl(EncodeRequest(img, 32, 32, "image/png", None));
      ConvertImageFormat(Value(SvgFavicon), quality, Some(original), p) ==
        Success(SvgBlob(SvgDocument(32, 32, href), "image/svg+xml"))
    ensures ResultMimeType(FinalFormat(SvgFavicon, Some(original))) == "image/svg+xml"
    ensures ConvertedFileName(FinalFormat(SvgFavicon, Some(original))) == "converted.svg"
    ensures DownloadExtension(SvgFavicon, Some(original)) == "svg"
  {
    SvgOutput(Value(SvgFavicon), quality, Some(original), p);
    MimeTypeByFormat(SvgFavicon);
  }

  // ---------------------------------------------------------------------
  // Component state
  // ---------------------------------------------------------------------

  /** The converted `File`: its name, its type and the blob it wraps. */
  datatype ConvertedFile = ConvertedFile(name: string, mimeType: string, blob: Blob)

  /** The byte size of a blob: the encoder's bytes, or the UTF-8 text of the SVG. */
  function BlobSize(b: Blob): nat {
    match b
    case RasterBlob(_, bytes) => |bytes|
    case SvgBlob(text, _) => Utf8Length(text)
  }

  /** What a download link is given: the object URL and the file name. */
  datatype Download = Download(href: string, fileName: string)

  class ImageCompressor {
    var originalImage: Option<SourceFile>
    var compressedImage: Option<ConvertedFile>
    var compressedImageUrl: Option<string>
    var loading: bool
    var quality: real
    var outputFormat: OutputFormat
    var currentFormat: OutputFormat
    var sizeWarning: Option<SizeWarning>

    /** Between handlers nothing is loading; a result and its URL come and go
        together, exist only for an original, and are named and typed after
        the format recorded when they were made. */
    ghost predicate Valid()
      reads this
    {
      && !loading
      && (compressedImage.Some? <==> compressedImageUrl.Some?)
      && (compressedImage.Some? ==>
            && originalImage.Some?
            && compressedImage.value.name == ConvertedFileName(FinalFormat(currentFormat, originalImage))
            && compressedImage.value.mimeType == ResultMimeType(FinalFormat(currentFormat, originalImage)))
    }

    /** The initial state: nothing loaded, quality 0.7, format `original`. */
    constructor ()
      ensures Valid()
      ensures originalImage == None && compressedImage == None && compressedImageUrl == None
      ensures !loading && quality == 0.7 && outputFormat == Original && currentFormat == Original
      ensures sizeWarning == None
    {
      originalImage := None;
      compressedImage := None;
      compressedImageUrl := None;
      loading := false;
      quality := 0.7;
      outputFormat := Original;
      currentFormat := Original;
      sizeWarning := None;
    }

    /** `onDrop`: nothing for an empty list; otherwise the first file becomes
        the original and the previous result is cleared. */
    method OnDrop(acceptedFiles: seq<SourceFile>)
      requires Valid()
      modifies this
      ensures Valid()
      ensures |acceptedFiles| == 0 ==> unchanged(this)
      ensures |acceptedFiles| > 0 ==>
        && originalImage == Some(acceptedFiles[0])
        && compressedImage == None && compressedImageUrl == None
        && loading == old(loading) && quality == old(quality)
        && outputFormat == old(outputFormat) && currentFormat == old(currentFormat)
        && sizeWarning == old(sizeWarning)
    {
      if |acceptedFiles| == 0 {
        return;
      }
      var file := acceptedFiles[0];
      compressedImage := None;
      compressedImageUrl := None;
      originalImage := Some(file);
    }

    /** The quality slider. */
    method SelectQuality(q: real)
      requires Valid()
      modifies this`quality
      ensures Valid() && quality == q
    {
      quality := q;
    }

    /** The format selector: it changes the selection only, not the format of
        the result already made. */
    method SelectFormat(f: OutputFormat)
      requires Valid()
      modifies this`outputFormat
      ensures Valid() && outputFormat == f
    {
      outputFormat := f;
    }

    /** `handleCompress`, from the click to its `finally`: nothing without an
        original; otherwise the advisory is cleared, and if the compression
        library and the conversion both succeed, the format is recorded, the
        converted file is named and typed after it, the advisory is set when
        the file grew, and the result and its URL are stored. Failures leave
        the previous result in place. */
    method HandleCompress(compressionSucceeded: bool, p: Platform, objectUrl: string)
      requires Valid()
      modifies this
      ensures Valid()
      ensures old(originalImage).None? ==> unchanged(this)
      ensures old(originalImage).Some? ==>
        var r := ConvertImageFormat(Value(old(outputFormat)), old(quality), old(originalImage), p);
        var final := FinalFormat(old(outputFormat), old(originalImage));
        && originalImage == old(originalImage) && outputFormat == old(outputFormat)
        && quality == old(quality) && !loading
        && if compressionSucceeded && r.Success? then
             && currentFormat == old(outputFormat)
             && compressedImage == Some(ConvertedFile(ConvertedFileName(final), ResultMimeType(final), r.value))
             && compressedImageUrl == Some(objectUrl)
             && sizeWarning == SizeAdvisory(BlobSize(r.value), old(originalImage).value.size)
           else
             && currentFormat == old(currentFormat)
             && compressedImage == old(compressedImage) && compressedImageUrl == old(compressedImageUrl)
             && sizeWarning == None
    {
      if originalImage.None? {
        return;
      }
      var original := originalImage.value;
      loading := true;
      sizeWarning := None;
      if compressionSucceeded {
        var converted := ConvertImageFormat(Value(outputFormat), quality, originalImage, p);
        if converted.Success? {
          currentFormat := outputFormat;
          var final := FinalFormat(outputFormat, originalImage);
          var file := ConvertedFile(ConvertedFileName(final), ResultMimeType(final), converted.value);
          var size := BlobSize(converted.value);
          if size > original.size {
            sizeWarning := Some(SizeWarning(size, original.size));
          }
          compressedImage := Some(file);
          compressedImageUrl := Some(objectUrl);
        }
      }
      loading := false;
    }

    /** `handleDownload`: nothing without a result and a non-empty URL;
        otherwise the link gets the URL and `<basename>-compressed.<ext>`. */
    method HandleDownload() returns (d: Option<Download>)
      ensures d.None? <==> compressedImage.None? || compressedImageUrl.None? || compressedImageUrl.value == ""
      ensures d.Some? ==> d.value.href == compressedImageUrl.value
      ensures d.Some? ==> d.value.fileName == DownloadFileName(originalImage, currentFormat)
    {
      if compressedImage.None? || compressedImageUrl.None? || compressedImageUrl.value == "" {
        return None;
      }
      var baseName := BaseName(originalImage);
      var extension := DownloadExtension(currentFormat, originalImage);
      d := Some(Download(compressedImageUrl.value, baseName + "-compressed." + extension));
    }
  }

  /** Changing the selector after a compress does not change what is downloaded. */
  method DownloadIgnoresLaterSelection(c: ImageCompressor, f: OutputFormat) returns (before: Option<Download>, after: Option<Download>)
    requires c.Valid()
    modifies c
    ensures before == after
  {
    before := c.HandleDownload();
    c.SelectFormat(f);
    after := c.HandleDownload();
  }
}
