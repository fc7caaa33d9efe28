/**
 * `ImageProcessor` of `src/image_processor.py`: configuration merge, case
 * extraction (alpha refinement by the largest contour), placeholder location,
 * compositing and the per-pair pipeline.
 *
 * Loading (`Image.open` + `convert('RGBA')`), `cv2.findContours`, resizing,
 * pasting, brightness/contrast enhancement and saving are library work; they
 * enter as oracles or are described by the values the code hands to them.
 */
module ImageProcessing {
  import opened Wrappers
  import opened Text
  import opened Config
  import opened Masks

  /** One pixel of an RGBA image. */
  datatype Pixel = Pixel(r: byte, g: byte, b: byte, a: byte)

  /** A PIL image in RGBA mode: `size` is `(width, height)`, rows run top to bottom. */
  datatype Image = Image(width: nat, height: nat, px: seq<seq<Pixel>>)

  predicate WellFormed(img: Image)
  {
    |img.px| == img.height && forall i :: 0 <= i < img.height ==> |img.px[i]| == img.width
  }

  /** The transparency channel as a mask-shaped grid. */
  function AlphaOf(img: Image): (g: Grid)
    requires WellFormed(img)
    ensures IsGrid(g, img.height, img.width)
  {
    seq(img.height, i requires 0 <= i < img.height =>
      seq(img.width, j requires 0 <= j < img.width => img.px[i][j].a))
  }

  predicate SameColours(p: Image, q: Image)
    requires WellFormed(p) && WellFormed(q) && p.height == q.height && p.width == q.width
  {
    forall i, j :: 0 <= i < p.height && 0 <= j < p.width ==>
      p.px[i][j].r == q.px[i][j].r && p.px[i][j].g == q.px[i][j].g && p.px[i][j].b == q.px[i][j].b
  }

  /** Channel `c` of a pixel of `cv2.cvtColor(np.array(image), cv2.COLOR_RGBA2BGRA)`. */
  function BgraChannel(p: Pixel, c: nat): byte
    requires c < 4
  {
    if c == 0 then p.b else if c == 1 then p.g else if c == 2 then p.r else p.a
  }

  /** `arr[:, :, c]` of a height x width x 4 array. */
  function ChannelGrid(arr: array3<byte>, c: nat): (g: Grid)
    reads arr
    requires c < arr.Length2
    ensures IsGrid(g, arr.Length0, arr.Length1)
  {
    seq(arr.Length0, i requires 0 <= i < arr.Length0 reads arr =>
      seq(arr.Length1, j requires 0 <= j < arr.Length1 reads arr => arr[i, j, c]))
  }

  /** `Image.fromarray(cv2.cvtColor(arr, cv2.COLOR_BGRA2RGBA))` */
  function FromBgra(arr: array3<byte>): (img: Image)
    reads arr
    requires arr.Length2 == 4
    ensures WellFormed(img) && img.height == arr.Length0 && img.width == arr.Length1
  {
    Image(arr.Length1, arr.Length0,
      seq(arr.Length0, i requires 0 <= i < arr.Length0 reads arr =>
        seq(arr.Length1, j requires 0 <= j < arr.Length1 reads arr =>
          Pixel(arr[i, j, 2], arr[i, j, 1], arr[i, j, 0], arr[i, j, 3]))))
  }

  /** A `PIL.ImageEnhance` step applied to the colour channels. */
  datatype Enhancement = Brightness(factor: real) | Contrast(factor: real)

  /** What `detect_phone_case` returns: the masked image and the enhancements then applied to it, in order. */
  datatype CaseImage = CaseImage(masked: Image, enhancements: seq<Enhancement>)

  /** A resampling filter of `PIL.Image`. */
  datatype Filter = Nearest | BoxFilter | Bilinear | Hamming | Bicubic | Lanczos

  /** `getattr(Image, name.upper())`; `None` where the attribute lookup or the `upper` call raises. */
  function ResizeFilter(v: Value): Option<Filter>
  {
    if !v.Str? then None
    else
      var name := Upper(v.s);
      if name == "NEAREST" then Some(Nearest)
      else if name == "BOX" then Some(BoxFilter)
      else if name == "BILINEAR" then Some(Bilinear)
      else if name == "HAMMING" then Some(Hamming)
      else if name == "BICUBIC" then Some(Bicubic)
      else if name == "LANCZOS" then Some(Lanczos)
      else None
  }

  /** The encoder name `process_images` saves with: upper-cased, with "JPG" renamed "JPEG". */
  function NormalizeFormat(format: string): string
  {
    var upper := Upper(format);
    if upper == "JPG" then "JPEG" else upper
  }

  /** `self.config["output_format"].upper()` and its renaming; `None` where `upper` raises. */
  function OutputFormat(v: Value): Option<string>
  {
    if v.Str? then Some(NormalizeFormat(v.s)) else None
  }

  /**
   * `result = template.copy(); result.paste(case.resize((at.w, at.h), filter), (at.x, at.y), mask)`,
   * described rather than rendered.
   */
  datatype Composite = Composite(base: Image, overlay: CaseImage, at: Box, filter: Filter)

  /** The arguments of `result_image.save(output_path, format=…, quality=…)`. */
  datatype SaveRequest = SaveRequest(path: string, image: Composite, format: string, quality: Value)

  /**
   * The alpha channel `detect_phone_case` leaves: with edge detection on and
   * a contour in the alpha > 10 mask, the alpha masked by the filled largest
   * contour; otherwise the alpha as it was.
   */
  function CaseAlpha(img: Image, detectEdges: bool, findContours: Grid -> seq<Contour>): (g: Grid)
    requires WellFormed(img)
    ensures IsGrid(g, img.height, img.width)
  {
    var alpha := AlphaOf(img);
    var contours := findContours(Threshold(alpha, 10, 255, false));
    if detectEdges && |contours| > 0 then
      RefinedAlphaExact(alpha, contours[MaxByArea(contours)], img.height, img.width);
      BitwiseAnd(alpha, FilledMask(contours[MaxByArea(contours)], img.height, img.width))
    else alpha
  }

  /**
   * With edge detection on and at least one contour, a pixel keeps its alpha
   * exactly when it lies in the first contour of largest area, and becomes
   * fully transparent otherwise; without either, the alpha is unchanged. No
   * pixel ever becomes more opaque.
   */
  lemma CaseAlphaExact(img: Image, detectEdges: bool, findContours: Grid -> seq<Contour>)
    requires WellFormed(img)
    ensures var contours := findContours(Threshold(AlphaOf(img), 10, 255, false));
      var g := CaseAlpha(img, detectEdges, findContours);
      (detectEdges && contours != [] ==>
        exists k: nat :: IsFirstMax(contours, k) &&
          forall i, j :: 0 <= i < img.height && 0 <= j < img.width ==>
            g[i][j] == if (i, j) in contours[k].interior then img.px[i][j].a else 0) &&
      (!detectEdges || contours == [] ==> g == AlphaOf(img)) &&
      (forall i, j :: 0 <= i < img.height && 0 <= j < img.width ==> g[i][j] <= img.px[i][j].a)
  {
    var alpha := AlphaOf(img);
    var contours := findContours(Threshold(alpha, 10, 255, false));
    if detectEdges && contours != [] {
      var k := MaxByArea(contours);
      RefinedAlphaExact(alpha, contours[k], img.height, img.width);
      assert IsFirstMax(contours, k);
    }
  }

  /** When the largest contour covers every pixel that is not fully transparent, the case keeps its alpha. */
  lemma CaseAlphaCovered(img: Image, findContours: Grid -> seq<Contour>)
    requires WellFormed(img)
    requires var contours := findContours(Threshold(AlphaOf(img), 10, 255, false));
      contours != [] &&
      forall i, j :: 0 <= i < img.height && 0 <= j < img.width && img.px[i][j].a != 0 ==>
        (i, j) in contours[MaxByArea(contours)].interior
    ensures CaseAlpha(img, true, findContours) == AlphaOf(img)
  {
    var alpha := AlphaOf(img);
    var contours := findContours(Threshold(alpha, 10, 255, false));
    var g := CaseAlpha(img, true, findContours);
    RefinedAlphaExact(alpha, contours[MaxByArea(contours)], img.height, img.width);
    forall i | 0 <= i < img.height ensures g[i] == alpha[i] {
      assert forall j :: 0 <= j < img.width ==> g[i][j] == alpha[i][j];
    }
  }

  lemma BgraAlpha(arr: array3<byte>, img: Image)
    requires WellFormed(img)
    requires arr.Length0 == img.height && arr.Length1 == img.width && arr.Length2 == 4
    requires forall i, j, c :: 0 <= i < img.height && 0 <= j < img.width && 0 <= c < 4 ==>
      arr[i, j, c] == BgraChannel(img.px[i][j], c)
    ensures ChannelGrid(arr, 3) == AlphaOf(img)
  {
    var g := ChannelGrid(arr, 3);
    forall i | 0 <= i < img.height ensures g[i] == AlphaOf(img)[i] {
      assert forall j :: 0 <= j < img.width ==> g[i][j] == BgraChannel(img.px[i][j], 3);
    }
  }

  /** Converting back to RGBA restores the colour channels and takes the alpha from channel 3. */
  lemma FromBgraWithAlpha(arr: array3<byte>, img: Image, g: Grid)
    requires WellFormed(img) && IsGrid(g, img.height, img.width)
    requires arr.Length0 == img.height && arr.Length1 == img.width && arr.Length2 == 4
    requires forall i, j, c :: 0 <= i < img.height && 0 <= j < img.width && 0 <= c < 3 ==>
      arr[i, j, c] == BgraChannel(img.px[i][j], c)
    requires forall i, j :: 0 <= i < img.height && 0 <= j < img.width ==> arr[i, j, 3] == g[i][j]
    ensures var out := FromBgra(arr);
      out.width == img.width && out.height == img.height && SameColours(out, img) && AlphaOf(out) == g
  {
    var out := FromBgra(arr);
    forall i | 0 <= i < img.height ensures AlphaOf(out)[i] == g[i] {
      assert forall j :: 0 <= j < img.width ==> AlphaOf(out)[i][j] == arr[i, j, 3];
    }
    forall i, j | 0 <= i < img.height && 0 <= j < img.width
      ensures out.px[i][j].r == img.px[i][j].r && out.px[i][j].g == img.px[i][j].g && out.px[i][j].b == img.px[i][j].b
    {
      assert arr[i, j, 0] == BgraChannel(img.px[i][j], 0);
      assert arr[i, j, 1] == BgraChannel(img.px[i][j], 1);
      assert arr[i, j, 2] == BgraChannel(img.px[i][j], 2);
    }
  }

  class ImageProcessor {
    var config: map<string, Value>

    ghost predicate Valid()
      reads this
    {
      DefaultKeys <= config.Keys
    }

    /** `ImageProcessor(config)`: `config or {}`, with each missing default added in turn. */
    constructor (userConfig: Option<map<string, Value>>)
      ensures config == WithDefaults(if userConfig.None? then map[] else userConfig.value)
      ensures Valid()
    {
      var given := if userConfig.None? then map[] else userConfig.value;
      config := given;
      new;
      var i := 0;
      while i < |DefaultConfig|
        invariant 0 <= i <= |DefaultConfig|
        invariant config == AddMissing(given, DefaultConfig[..i])
      {
        var key, value := DefaultConfig[i].0, DefaultConfig[i].1;
        if key !in config {
          config := config[key := value];
        }
        assert DefaultConfig[..i + 1][..i] == DefaultConfig[..i];
        i := i + 1;
      }
      assert DefaultConfig[..|DefaultConfig|] == DefaultConfig;
      DefaultConfigDistinct();
      AddMissingIsOverlay(given, DefaultConfig);
      WithDefaultsProperties(given);
    }

    /**
     * `detect_phone_case(case_image)`: size and colour channels are kept, the
     * alpha channel becomes `CaseAlpha` (see `CaseAlphaExact` for what that
     * is), and the enhancements follow the two `auto_adjust_*` flags, each
     * with the fixed factor 1.1.
     */
    method DetectPhoneCase(caseImage: Image, findContours: Grid -> seq<Contour>) returns (result: CaseImage)
      requires Valid() && WellFormed(caseImage)
      ensures WellFormed(result.masked)
      ensures result.masked.width == caseImage.width && result.masked.height == caseImage.height
      ensures SameColours(result.masked, caseImage)
      ensures AlphaOf(result.masked) == CaseAlpha(caseImage, Truthy(config["detect_edges"]), findContours)
      ensures result.enhancements ==
        (if Truthy(config["auto_adjust_brightness"]) then [Brightness(1.1)] else []) +
        (if Truthy(config["auto_adjust_contrast"]) then [Contrast(1.1)] else [])
    {
      var h, w := caseImage.height, caseImage.width;
      var caseCv := new byte[h, w, 4]((i, j, c) requires 0 <= i < h && 0 <= j < w && 0 <= c < 4 =>
        BgraChannel(caseImage.px[i][j], c));
      BgraAlpha(caseCv, caseImage);
      ghost var target := CaseAlpha(caseImage, Truthy(config["detect_edges"]), findContours);
      if Truthy(config["detect_edges"]) {
        var alpha := ChannelGrid(caseCv, 3);
        var mask := Threshold(alpha, 10, 255, false);
        var contours := findContours(mask);
        if |contours| > 0 {
          var maxContour := contours[MaxByArea(contours)];
          var refinedMask := FilledMask(maxContour, h, w);
          var refinedAlpha := BitwiseAnd(alpha, refinedMask);
          forall i, j | 0 <= i < h && 0 <= j < w {
            caseCv[i, j, 3] := refinedAlpha[i][j];
          }
        }
      }
      FromBgraWithAlpha(caseCv, caseImage, target);
      var masked := FromBgra(caseCv);
      var enhancements := [];
      if Truthy(config["auto_adjust_brightness"]) || Truthy(config["auto_adjust_contrast"]) {
        if Truthy(config["auto_adjust_brightness"]) {
          enhancements := enhancements + [Brightness(1.1)];
        }
        if Truthy(config["auto_adjust_contrast"]) {
          enhancements := enhancements + [Contrast(1.1)];
        }
      }
      result := CaseImage(masked, enhancements);
    }

    /**
     * `find_template_placeholder(template_image)`: the bounding box of the
     * first contour of largest area in the alpha <= 100 mask, or, when that
     * mask has no contour, the centred fallback box, which lies inside the
     * template.
     */
    static function FindTemplatePlaceholder(template: Image, findContours: Grid -> seq<Contour>): (box: Box)
      requires WellFormed(template)
      ensures var contours := findContours(Threshold(AlphaOf(template), 100, 255, true));
        (contours != [] ==> exists k: nat :: IsFirstMax(contours, k) && box == contours[k].bounds) &&
        (contours == [] ==> box == FallbackBox(template.width, template.height) &&
                            WithinBounds(box, template.width, template.height))
    {
      var contours := findContours(Threshold(AlphaOf(template), 100, 255, true));
      if |contours| > 0 then
        var k := MaxByArea(contours);
        assert IsFirstMax(contours, k);
        contours[k].bounds
      else
        FallbackBoxFits(template.width, template.height);
        FallbackBox(template.width, template.height)
    }

    /** `composite_images(case_image, template_image)`; `None` where the resize filter lookup raises. */
    function CompositeImages(caseImage: CaseImage, template: Image, findContours: Grid -> seq<Contour>): (r: Option<Composite>)
      reads this
      requires Valid() && WellFormed(template)
      ensures r.Some? <==> ResizeFilter(config["resize_method"]).Some?
      ensures r.Some? ==>
        r.value.base == template && r.value.overlay == caseImage &&
        r.value.at == FindTemplatePlaceholder(template, findContours) &&
        ResizeFilter(config["resize_method"]) == Some(r.value.filter)
      ensures r.Some? ==>
        var contours := findContours(Threshold(AlphaOf(template), 100, 255, true));
        (contours != [] ==> exists k: nat :: IsFirstMax(contours, k) && r.value.at == contours[k].bounds) &&
        (contours == [] ==> r.value.at == FallbackBox(template.width, template.height) &&
                            WithinBounds(r.value.at, template.width, template.height))
    {
      var box := FindTemplatePlaceholder(template, findContours);
      var filter := ResizeFilter(config["resize_method"]);
      if filter.None? then None else Some(Composite(template, caseImage, box, filter.value))
    }

    /**
     * `process_images(case_path, template_path, output_path)`. `request` is
     * the save the code attempts, if it gets that far; `ok` is its return
     * value. Either image failing to load stops it before any save; every
     * exception on the way counts as failure.
     */
    method ProcessImages(casePath: string, templatePath: string, outputPath: string,
                         load: string -> Option<Image>, findContours: Grid -> seq<Contour>,
                         save: SaveRequest -> bool) returns (ok: bool, request: Option<SaveRequest>)
      requires Valid()
      requires forall p :: load(p).Some? ==> WellFormed(load(p).value)
      ensures (load(casePath).None? || load(templatePath).None?) ==> !ok && request.None?
      ensures ok <==> request.Some? && save(request.value)
      ensures request.Some? ==>
        PipelineSave(config, casePath, templatePath, outputPath, load, findContours, request.value)
      ensures (load(casePath).Some? && load(templatePath).Some? &&
               ResizeFilter(config["resize_method"]).Some? && OutputFormat(config["output_format"]).Some?) ==>
        request.Some?
    {
      var caseImage := load(casePath);
      var templateImage := load(templatePath);
      if caseImage.None? || templateImage.None? {
        return false, None;
      }
      var caseProcessed := DetectPhoneCase(caseImage.value, findContours);
      var resultImage := CompositeImages(caseProcessed, templateImage.value, findContours);
      if resultImage.None? {
        return false, None;
      }
      var outputFormat := OutputFormat(config["output_format"]);
      if outputFormat.None? {
        return false, None;
      }
      request := Some(SaveRequest(outputPath, resultImage.value, outputFormat.value, config["output_quality"]));
      ok := save(request.value);
    }
  }

  /**
   * `r` is the save `process_images` attempts for these paths under the
   * configuration `cfg`: both images loaded; `r` goes to the output path with
   * the normalised format, the configured quality and the configured filter;
   * its base is the template and its box the placeholder; its overlay is the
   * loaded case with its colours, the alpha `CaseAlpha` gives and the
   * enhancements the two flags select.
   */
  predicate PipelineSave(cfg: map<string, Value>, casePath: string, templatePath: string, outputPath: string,
                         load: string -> Option<Image>, findContours: Grid -> seq<Contour>, r: SaveRequest)
    requires DefaultKeys <= cfg.Keys
  {
    load(casePath).Some? && load(templatePath).Some? &&
    WellFormed(load(casePath).value) && WellFormed(load(templatePath).value) &&
    var source, template, overlay := load(casePath).value, load(templatePath).value, r.image.overlay;
    r.path == outputPath &&
    OutputFormat(cfg["output_format"]) == Some(r.format) &&
    r.quality == cfg["output_quality"] &&
    ResizeFilter(cfg["resize_method"]) == Some(r.image.filter) &&
    r.image.base == template &&
    r.image.at == ImageProcessor.FindTemplatePlaceholder(template, findContours) &&
    WellFormed(overlay.masked) &&
    overlay.masked.width == source.width && overlay.masked.height == source.height &&
    SameColours(overlay.masked, source) &&
    AlphaOf(overlay.masked) == CaseAlpha(source, Truthy(cfg["detect_edges"]), findContours) &&
    overlay.enhancements ==
      (if Truthy(cfg["auto_adjust_brightness"]) then [Brightness(1.1)] else []) +
      (if Truthy(cfg["auto_adjust_contrast"]) then [Contrast(1.1)] else [])
  }

  /** The inputs of `process_images` determine the save it attempts: at most one request is a `PipelineSave`. */
  lemma PipelineSaveUnique(cfg: map<string, Value>, casePath: string, templatePath: string, outputPath: string,
                           load: string -> Option<Image>, findContours: Grid -> seq<Contour>,
                           r1: SaveRequest, r2: SaveRequest)
    requires DefaultKeys <= cfg.Keys
    requires PipelineSave(cfg, casePath, templatePath, outputPath, load, findContours, r1)
    requires PipelineSave(cfg, casePath, templatePath, outputPath, load, findContours, r2)
    ensures r1 == r2
  {
    var source := load(casePath).value;
    SameImage(r1.image.overlay.masked, r2.image.overlay.masked, source);
    assert r1.image == r2.image;
  }

  /** Two well-formed images of one size with the colours of `source` and the same alpha are equal. */
  lemma SameImage(p: Image, q: Image, source: Image)
    requires WellFormed(p) && WellFormed(q) && WellFormed(source)
    requires p.width == source.width && p.height == source.height
    requires q.width == source.width && q.height == source.height
    requires SameColours(p, source) && SameColours(q, source) && AlphaOf(p) == AlphaOf(q)
    ensures p == q
  {
    forall i | 0 <= i < p.height ensures p.px[i] == q.px[i] {
      forall j | 0 <= j < p.width ensures p.px[i][j] == q.px[i][j] {
        assert AlphaOf(p)[i][j] == AlphaOf(q)[i][j];
      }
    }
  }

  /**
   * A fully opaque template (every alpha above 100) gives an all-zero
   * placeholder mask; if the contour finder reports nothing for such a mask,
   * the placeholder is exactly the centred fallback box.
   */
  lemma OpaqueTemplateFallback(template: Image, findContours: Grid -> seq<Contour>)
    requires WellFormed(template)
    requires forall i, j :: 0 <= i < template.height && 0 <= j < template.width ==> template.px[i][j].a > 100
    requires forall g: Grid :: (forall i, j :: 0 <= i < |g| && 0 <= j < |g[i]| ==> g[i][j] == 0) ==> findContours(g) == []
    ensures ImageProcessor.FindTemplatePlaceholder(template, findContours) == FallbackBox(template.width, template.height)
  {
    var mask := Threshold(AlphaOf(template), 100, 255, true);
    PlaceholderMaskExact(AlphaOf(template));
    assert forall i, j :: 0 <= i < |mask| && 0 <= j < |mask[i]| ==> mask[i][j] == 0;
  }

  /** "jpg" and "jpeg" in any letter case both select the JPEG encoder, and nothing else does. */
  lemma NormalizeFormatJpeg(format: string)
    ensures NormalizeFormat(format) == "JPEG" <==> Upper(format) == "JPG" || Upper(format) == "JPEG"
  {
  }

  /**
   * The encoder name depends only on the upper-cased format, holds no
   * lower-case letter, and is left as it is by a second normalisation.
   */
  lemma NormalizeFormatCanonical(format: string, other: string)
    ensures Upper(format) == Upper(other) ==> NormalizeFormat(format) == NormalizeFormat(other)
    ensures NoLower(NormalizeFormat(format))
    ensures NormalizeFormat(NormalizeFormat(format)) == NormalizeFormat(format)
  {
    UpperNormalises(format);
    var u := Upper(format);
    if u == "JPG" {
      assert NoLower("JPEG") by {
        var s := "JPEG";
        assert s[0] == 'J' && s[1] == 'P' && s[2] == 'E' && s[3] == 'G';
      }
      UpperNormalises("JPEG");
    }
  }

  /** An all-lower-case ASCII name upper-cases letter by letter. */
  lemma UpperLetters(s: string, u: string)
    requires |s| == |u| && forall i :: 0 <= i < |s| ==> IsAsciiLower(s[i]) && u[i] == UpperChar(s[i])
    ensures Upper(s) == u
  {
  }

  /** The command line's four format choices select the PNG, JPEG, JPEG and WEBP encoders. */
  lemma CommandLineFormats()
    ensures NormalizeFormat("png") == "PNG"
    ensures NormalizeFormat("jpg") == "JPEG"
    ensures NormalizeFormat("jpeg") == "JPEG"
    ensures NormalizeFormat("webp") == "WEBP"
  {
    UpperLetters("png", "PNG");
    UpperLetters("jpg", "JPG");
    UpperLetters("jpeg", "JPEG");
    UpperLetters("webp", "WEBP");
  }

  /** Each of the command line's six resize choices names a filter. */
  lemma CommandLineResizeMethods()
    ensures ResizeFilter(Str("nearest")) == Some(Nearest)
    ensures ResizeFilter(Str("box")) == Some(BoxFilter)
    ensures ResizeFilter(Str("bilinear")) == Some(Bilinear)
    ensures ResizeFilter(Str("hamming")) == Some(Hamming)
    ensures ResizeFilter(Str("bicubic")) == Some(Bicubic)
    ensures ResizeFilter(Str("lanczos")) == Some(Lanczos)
  {
    UpperLetters("nearest", "NEAREST");
    UpperLetters("box", "BOX");
    UpperLetters("bilinear", "BILINEAR");
    UpperLetters("hamming", "HAMMING");
    UpperLetters("bicubic", "BICUBIC");
    UpperLetters("lanczos", "LANCZOS");
  }

  /** The resize filter depends only on the upper-cased name, and the six names the command line offers each select one. */
  lemma ResizeFilterByName(name: string, other: string)
    ensures Upper(name) == Upper(other) ==> ResizeFilter(Str(name)) == ResizeFilter(Str(other))
    ensures ResizeFilter(Str(name)).Some? <==>
      Upper(name) in ["NEAREST", "BOX", "BILINEAR", "HAMMING", "BICUBIC", "LANCZOS"]
  {
  }
}
