/**
 * The conversion engine of ascii_bg/core/converter.py: the AsciiArt result
 * and the AsciiConverter configuration. Loading, resizing and enhancing the
 * image happen in the imaging library; Convert starts from the grayscale
 * and RGB arrays that step produces.
 */
module Converter {
  import opened Base
  import opened Text
  import opened CharacterSets
  import opened ColorHandling
  import opened ImageProcessing

  /** The converted picture: characters, colours, the nominal size and the optional colour handler. */
  datatype AsciiArt = AsciiArt(
    charGrid: seq<seq<char>>,
    colorGrid: array2<Rgb>,
    width: int,
    height: int,
    colorHandler: Option<ColorHandler>)
  {
    /**
     * to_plain_text: the rows joined by newlines, with no trailing newline.
     * Splitting the text at its newlines gives the rows back.
     */
    function ToPlainText(): (s: string)
      ensures |charGrid| >= 1 && (forall y :: 0 <= y < |charGrid| ==> '\n' !in charGrid[y]) ==>
        Split(s, '\n') == charGrid
      ensures |charGrid| == 1 ==> s == charGrid[0]
      ensures |charGrid| == 0 ==> s == ""
    {
      assert |charGrid| >= 1 && (forall y :: 0 <= y < |charGrid| ==> '\n' !in charGrid[y]) ==>
        Split(PlainText(charGrid), '\n') == charGrid
      by {
        if |charGrid| >= 1 && (forall y :: 0 <= y < |charGrid| ==> '\n' !in charGrid[y]) {
          SplitJoin(charGrid, '\n');
        }
      }
      PlainText(charGrid)
    }

    /** __str__: the plain text. */
    function ToString(): (s: string)
      ensures s == ToPlainText()
    {
      ToPlainText()
    }

    /**
     * to_colored_text: the plain text without a colour handler, otherwise
     * what apply_colors produces. Either way a terminal shows the plain text.
     */
    function ToColoredText(): (s: string)
      reads colorGrid
      ensures colorHandler.None? ==> s == ToPlainText()
      ensures colorHandler.Some? ==> s == ColoredText(colorHandler.value.mode, charGrid, colorGrid)
      ensures NoEscape(charGrid) ==> StripAnsi(s) == ToPlainText()
    {
      if colorHandler.None? then
        assert ToPlainText() == ColoredText(BlackWhite, charGrid, colorGrid);
        ToPlainText()
      else
        ColoredText(colorHandler.value.mode, charGrid, colorGrid)
    }
  }

  /** The resolution argument: a preset or "WxH" string, or a (width, height) pair. */
  datatype ResolutionArg = Named(spec: string) | Size(width: int, height: int)

  /** The charset argument: None, a ramp string, or an existing CharacterSet. */
  datatype CharsetArg = DefaultCharset | Ramp(text: string) | Given(charSet: CharacterSet)

  /** How __init__ and set_resolution turn the argument into a (width, height) pair. */
  function ResolveResolution(arg: ResolutionArg): (r: Result<(int, int)>)
    ensures arg.Size? ==> r == Ok((arg.width, arg.height))
    ensures arg.Named? ==> r == ParseResolution(arg.spec)
    ensures arg.Named? && r.Ok? ==> r.value.0 > 0 && r.value.1 > 0
  {
    match arg
    case Named(spec) => ParseResolution(spec)
    case Size(w, h) => Ok((w, h))
  }

  /** How __init__ and set_charset turn the argument into a character set. */
  function ResolveCharset(arg: CharsetArg): (r: Result<CharacterSet>)
    requires arg.Given? ==> arg.charSet.Valid()
    ensures r.Ok? ==> r.value.Valid()
    ensures r.Err? <==> arg.Ramp? && arg.text == []
    ensures r.Err? ==> r.error == EmptyCharset
    ensures arg.DefaultCharset? ==> r == Ok(Default())
    ensures arg.Ramp? && r.Ok? ==> r.value.charset == arg.text
    ensures arg.Given? ==> r == Ok(arg.charSet)
  {
    match arg
    case DefaultCharset => Ok(Default())
    case Ramp(text) => FromString(text)
    case Given(cs) => Ok(cs)
  }

  class AsciiConverter {
    var resolution: (int, int)
    var charset: CharacterSet
    const processor: ImageProcessor
    var colorHandler: Option<ColorHandler>

    predicate Valid()
      reads this, processor
    {
      charset.Valid() && processor.Valid() && (colorHandler.Some? ==> colorHandler.value.Valid())
    }

    constructor Init(
      resolution: (int, int),
      charset: CharacterSet,
      brightness: int,
      contrast: int,
      aspectCorrect: bool,
      colorHandler: Option<ColorHandler>)
      requires charset.Valid()
      requires colorHandler.Some? ==> colorHandler.value.Valid()
      ensures Valid()
      ensures this.resolution == resolution && this.charset == charset && this.colorHandler == colorHandler
      ensures processor.brightness == Clamp100(brightness) && processor.contrast == Clamp100(contrast)
      ensures processor.aspectCorrect == aspectCorrect
      ensures fresh(processor)
    {
      this.resolution := resolution;
      this.charset := charset;
      this.processor := new ImageProcessor(brightness, contrast, aspectCorrect);
      this.colorHandler := colorHandler;
    }

    /**
     * AsciiConverter(...): a string resolution is parsed first, then the
     * charset is built, then inverted if asked; either step may raise
     * ValueError, which is returned as Err.
     */
    static method Create(
      resolution: ResolutionArg := Size(1920, 1080),
      charset: CharsetArg := DefaultCharset,
      brightness: int := 0,
      contrast: int := 0,
      invert: bool := false,
      aspectCorrect: bool := true,
      colorHandler: Option<ColorHandler> := None)
      returns (r: Result<AsciiConverter>)
      requires charset.Given? ==> charset.charSet.Valid()
      requires colorHandler.Some? ==> colorHandler.value.Valid()
      ensures ResolveResolution(resolution).Err? ==> r == Err(ResolveResolution(resolution).error)
      ensures ResolveResolution(resolution).Ok? ==> (r.Err? <==> ResolveCharset(charset).Err?)
      ensures ResolveResolution(resolution).Ok? && ResolveCharset(charset).Err? ==> r == Err(EmptyCharset)
      ensures r.Ok? ==> r.value.Valid()
      ensures r.Ok? ==> r.value.resolution == ResolveResolution(resolution).value
      ensures r.Ok? ==> var base := ResolveCharset(charset).value;
        r.value.charset == if invert then base.Invert() else base
      ensures r.Ok? ==> (r.value.processor.brightness == Clamp100(brightness)
                         && r.value.processor.contrast == Clamp100(contrast)
                         && r.value.processor.aspectCorrect == aspectCorrect)
      ensures r.Ok? ==> r.value.colorHandler == colorHandler
      ensures r.Ok? ==> fresh(r.value) && fresh(r.value.processor)
    {
      var res := ResolveResolution(resolution);
      if res.Err? {
        return Err(res.error);
      }
      var cs := ResolveCharset(charset);
      if cs.Err? {
        return Err(cs.error);
      }
      var chosen := cs.value;
      if invert {
        chosen := chosen.Invert();
      }
      var converter := new AsciiConverter.Init(res.value, chosen, brightness, contrast, aspectCorrect, colorHandler);
      return Ok(converter);
    }

    /** set_resolution: a string that does not parse raises and leaves the resolution as it was. */
    method SetResolution(arg: ResolutionArg) returns (err: Option<Error>)
      requires Valid()
      modifies this
      ensures Valid()
      ensures err.Some? <==> ResolveResolution(arg).Err?
      ensures err.Some? ==> err.value == InvalidResolution(arg.spec) && resolution == old(resolution)
      ensures err.None? ==> resolution == ResolveResolution(arg).value
      ensures charset == old(charset) && colorHandler == old(colorHandler)
    {
      var res := ResolveResolution(arg);
      if res.Err? {
        return Some(res.error);
      }
      resolution := res.value;
      return None;
    }

    /** set_charset: an empty ramp string raises and leaves the set as it was. */
    method SetCharset(arg: CharsetArg) returns (err: Option<Error>)
      requires Valid()
      requires arg.Ramp? || arg.Given?
      requires arg.Given? ==> arg.charSet.Valid()
      modifies this
      ensures Valid()
      ensures err.Some? <==> arg.Ramp? && arg.text == []
      ensures err.Some? ==> err.value == EmptyCharset && charset == old(charset)
      ensures err.None? ==> charset == ResolveCharset(arg).value
      ensures resolution == old(resolution) && colorHandler == old(colorHandler)
    {
      var cs := ResolveCharset(arg);
      if cs.Err? {
        return Some(cs.error);
      }
      charset := cs.value;
      return None;
    }

    /** set_brightness: clamps, and changes only the processor's brightness. */
    method SetBrightness(brightness: int)
      requires Valid()
      modifies processor
      ensures Valid()
      ensures processor.brightness == Clamp100(brightness)
      ensures processor.contrast == old(processor.contrast)
      ensures processor.aspectCorrect == old(processor.aspectCorrect)
    {
      processor.brightness := Clamp100(brightness);
    }

    /** set_contrast: clamps, and changes only the processor's contrast. */
    method SetContrast(contrast: int)
      requires Valid()
      modifies processor
      ensures Valid()
      ensures processor.contrast == Clamp100(contrast)
      ensures processor.brightness == old(processor.brightness)
      ensures processor.aspectCorrect == old(processor.aspectCorrect)
    {
      processor.contrast := Clamp100(contrast);
    }

    /** grid is height rows of width characters, cell (y, x) being the character for grayscale[y, x]. */
    ghost predicate CharsFor(grid: seq<seq<char>>, grayscale: array2<real>)
      reads this, grayscale
      requires charset.Valid()
    {
      |grid| == grayscale.Length0
      && (forall y :: 0 <= y < |grid| ==> |grid[y]| == grayscale.Length1)
      && (forall y, x :: 0 <= y < grayscale.Length0 && 0 <= x < grayscale.Length1 ==>
            grid[y][x] == charset.GetChar(grayscale[y, x]))
    }

    /**
     * _grayscale_to_chars: one character per grayscale value, row by row;
     * every character is one of the set's.
     */
    method GrayscaleToChars(grayscale: array2<real>) returns (grid: seq<seq<char>>)
      requires charset.Valid()
      ensures CharsFor(grid, grayscale)
      ensures forall y, x :: 0 <= y < |grid| && 0 <= x < |grid[y]| ==> grid[y][x] in charset.charset
    {
      var height, width := grayscale.Length0, grayscale.Length1;
      grid := [];
      for y := 0 to height
        invariant |grid| == y
        invariant forall y' :: 0 <= y' < y ==> |grid[y']| == width
        invariant forall y', x :: 0 <= y' < y && 0 <= x < width ==> grid[y'][x] == charset.GetChar(grayscale[y', x])
      {
        var row: seq<char> := [];
        for x := 0 to width
          invariant |row| == x
          invariant forall x' :: 0 <= x' < x ==> row[x'] == charset.GetChar(grayscale[y, x'])
        {
          var ch := charset.GetChar(grayscale[y, x]);
          row := row + [ch];
        }
        grid := grid + [row];
      }
    }

    /** What _generate_color_grid returns for the source colours at the given size. */
    ghost predicate ColorsFor(grid: array2<Rgb>, sourceRgb: array2<Rgb>, width: nat, height: nat)
      reads this, grid
    {
      if colorHandler.None? || colorHandler.value.mode in {Source, BlackWhite} then grid == sourceRgb
      else
        var handler := colorHandler.value;
        grid.Length0 == height && grid.Length1 == width
        && forall y, x :: 0 <= y < height && 0 <= x < width ==>
          grid[y, x] == match handler.mode
            case Rainbow => handler.RainbowAt(width, height, y, x)
            case Gradient => (if handler.Valid() then handler.GradientAt(width, height, y, x) else BLACK)
            case _ => handler.textColor
    }

    /**
     * _generate_color_grid: the source colours when there is no handler or
     * it is in source or black-and-white mode; otherwise the handler's
     * generated grid of the given size.
     */
    method GenerateColorGrid(sourceRgb: array2<Rgb>, width: nat, height: nat) returns (grid: array2<Rgb>)
      requires Valid()
      ensures ColorsFor(grid, sourceRgb, width, height)
    {
      if colorHandler.None? {
        return sourceRgb;
      }
      var handler := colorHandler.value;
      match handler.mode
      case Source =>
        grid := sourceRgb;
      case Rainbow =>
        grid := handler.GenerateRainbowGradient(width, height);
      case Gradient =>
        grid := handler.GenerateCustomGradient(width, height);
      case Solid =>
        grid := handler.GenerateSolidColors(width, height);
      case BlackWhite =>
        grid := sourceRgb;
    }

    /**
     * convert, from the processed grayscale and RGB arrays: the characters
     * come from the grayscale values, the colour grid is generated at the
     * grayscale array's size, the width is the configured resolution's and
     * the height the grayscale array's row count.
     */
    method Convert(grayscale: array2<real>, rgb: array2<Rgb>) returns (art: AsciiArt)
      requires Valid()
      ensures CharsFor(art.charGrid, grayscale)
      ensures ColorsFor(art.colorGrid, rgb, grayscale.Length1, grayscale.Length0)
      ensures art.width == resolution.0 && art.height == grayscale.Length0
      ensures art.colorHandler == colorHandler
    {
      var charGrid := GrayscaleToChars(grayscale);
      var actualHeight, actualWidth := grayscale.Length0, grayscale.Length1;
      var colorGrid := GenerateColorGrid(rgb, actualWidth, actualHeight);
      art := AsciiArt(charGrid, colorGrid, resolution.0, actualHeight, colorHandler);
    }
  }
}
