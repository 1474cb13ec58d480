/**
 * The output formats a user can pick, and the constant tables that go with
 * them: the fixed icon sizes, the sparse table of MIME types, and the list of
 * options shown in the format selector.
 */
module ImageFormats {

  import opened Wrappers

  /** The `OutputFormat` union of string literals. */
  datatype OutputFormat =
    | Jpg | Png | Webp | Ico | Svg | SvgFavicon | PngFavicon | PngAppleTouch | Original

  /** Every member of the union. */
  const ALL_FORMATS: set<OutputFormat> :=
    {Jpg, Png, Webp, Ico, Svg, SvgFavicon, PngFavicon, PngAppleTouch, Original}

  /** The union has exactly nine members. */
  lemma AllFormatsComplete(f: OutputFormat)
    ensures f in ALL_FORMATS
    ensures |ALL_FORMATS| == 9
  {
  }

  /** The string literal each member of the union stands for. */
  function Value(f: OutputFormat): string {
    match f
    case Jpg => "jpg"
    case Png => "png"
    case Webp => "webp"
    case Ico => "ico"
    case Svg => "svg"
    case SvgFavicon => "svg-favicon"
    case PngFavicon => "png-favicon"
    case PngAppleTouch => "png-apple-touch"
    case Original => "original"
  }

  /** The member of the union a string literal names, if any. */
  function Parse(s: string): (r: Option<OutputFormat>)
    ensures r.Some? ==> Value(r.value) == s
  {
    if s == "jpg" then Some(Jpg)
    else if s == "png" then Some(Png)
    else if s == "webp" then Some(Webp)
    else if s == "ico" then Some(Ico)
    else if s == "svg" then Some(Svg)
    else if s == "svg-favicon" then Some(SvgFavicon)
    else if s == "png-favicon" then Some(PngFavicon)
    else if s == "png-apple-touch" then Some(PngAppleTouch)
    else if s == "original" then Some(Original)
    else None
  }

  /** Every member of the union is named by its literal. */
  lemma ParseValue(f: OutputFormat)
    ensures Parse(Value(f)) == Some(f)
  {
  }

  /** The literals are pairwise distinct, so comparing the strings compares
      the members. */
  lemma ValueInjective(f: OutputFormat, g: OutputFormat)
    ensures Value(f) == Value(g) <==> f == g
  {
    ParseValue(f);
    ParseValue(g);
  }

  /** `IMAGE_FORMATS.FAVICON_SIZE`: the side of a 32x32 favicon. */
  const FAVICON_SIZE: nat := 32

  /** `IMAGE_FORMATS.APPLE_TOUCH_SIZE`: the side of a 180x180 Apple touch icon. */
  const APPLE_TOUCH_SIZE: nat := 180

  /** `IMAGE_FORMATS.MIME_TYPES`: explicit entries for four formats only. */
  const MIME_TYPES: map<string, string> :=
    map["ico" := "image/x-icon",
        "svg" := "image/svg+xml",
        "svg-favicon" := "image/svg+xml",
        "jpg" := "image/jpeg"]

  /** The table holds exactly four formats; `png`, `webp`, `png-favicon`,
      `png-apple-touch` and `original` have no entry. */
  lemma MimeTypeTable(f: OutputFormat)
    ensures Value(f) in MIME_TYPES <==> f in {Ico, Svg, SvgFavicon, Jpg}
    ensures MIME_TYPES.Keys == {"ico", "svg", "svg-favicon", "jpg"}
    ensures MIME_TYPES["svg"] == MIME_TYPES["svg-favicon"] == "image/svg+xml"
    ensures MIME_TYPES["ico"] == "image/x-icon"
    ensures MIME_TYPES["jpg"] == "image/jpeg" != "image/jpg"
  {
    ParseValue(f);
  }

  /** One entry of `FORMAT_OPTIONS`. */
  datatype FormatOption = FormatOption(value: OutputFormat, caption: string)

  /** `FORMAT_OPTIONS`, in the order the selector shows them. */
  const FORMAT_OPTIONS: seq<FormatOption> := [
    FormatOption(Original, "元画像と同じ"),
    FormatOption(Jpg, "JPG"),
    FormatOption(Png, "PNG"),
    FormatOption(Webp, "WebP"),
    FormatOption(Svg, "SVG"),
    FormatOption(Ico, "ICO (Favicon用 32x32)"),
    FormatOption(SvgFavicon, "SVG (Favicon用 32x32)"),
    FormatOption(PngFavicon, "PNG (Favicon用 32x32)"),
    FormatOption(PngAppleTouch, "PNG (Apple Touch Icon用 180x180)")
  ]

  /** The position of a format in the selector. */
  function OptionIndex(f: OutputFormat): (i: nat)
    ensures i < |FORMAT_OPTIONS| && FORMAT_OPTIONS[i].value == f
  {
    match f
    case Original => 0
    case Jpg => 1
    case Png => 2
    case Webp => 3
    case Svg => 4
    case Ico => 5
    case SvgFavicon => 6
    case PngFavicon => 7
    case PngAppleTouch => 8
  }

  /** The selector lists nine pairwise-distinct values, `original` first. */
  lemma FormatOptionsDistinct()
    ensures |FORMAT_OPTIONS| == 9 && FORMAT_OPTIONS[0].value == Original
    ensures forall i, j :: 0 <= i < j < |FORMAT_OPTIONS| ==> FORMAT_OPTIONS[i].value != FORMAT_OPTIONS[j].value
  {
    forall i, j | 0 <= i < j < |FORMAT_OPTIONS|
      ensures FORMAT_OPTIONS[i].value != FORMAT_OPTIONS[j].value
    {
      assert OptionIndex(FORMAT_OPTIONS[i].value) == i;
    }
  }

  /** The values in the selector are exactly the members of the union. */
  lemma FormatOptionsCover()
    ensures (set i | 0 <= i < |FORMAT_OPTIONS| :: FORMAT_OPTIONS[i].value) == ALL_FORMATS
  {
    var listed := set i | 0 <= i < |FORMAT_OPTIONS| :: FORMAT_OPTIONS[i].value;
    forall f | f in ALL_FORMATS ensures f in listed {
      var i := OptionIndex(f);
      assert FORMAT_OPTIONS[i].value == f;
    }
    forall f | f in listed ensures f in ALL_FORMATS {
      AllFormatsComplete(f);
    }
  }
}
