/**
 * Resolution parsing and the adjustment arithmetic of
 * ascii_bg/core/image_processor.py. Images themselves are opaque: the
 * enhancement the imaging library performs is a parameter of the model.
 */
module ImageProcessing {
  import opened Base
  import opened Text

  /** max(-100, min(100, v)): the clamp applied to brightness and contrast. */
  function Clamp100(v: int): (c: int)
    ensures -100 <= c <= 100
    ensures -100 <= v <= 100 ==> c == v
    ensures v < -100 ==> c == -100
    ensures v > 100 ==> c == 100
  {
    var m := if v < 100 then v else 100;
    if -100 < m then m else -100
  }

  /**
   * The enhancement factor 1 + adj / 100 the imaging library is given: above 1
   * brightens or adds contrast, below 1 darkens or flattens, 1 leaves the image.
   */
  function Factor(adjustment: int): (f: real)
    ensures f > 1.0 <==> adjustment > 0
    ensures f == 1.0 <==> adjustment == 0
    ensures f < 1.0 <==> adjustment < 0
  {
    1.0 + adjustment as real / 100.0
  }

  /** For a clamped adjustment the factor lies in [0, 2], and it is 1 exactly when the adjustment is 0. */
  lemma FactorRange(adjustment: int)
    requires -100 <= adjustment <= 100
    ensures 0.0 <= Factor(adjustment) <= 2.0
    ensures Factor(adjustment) == 1.0 <==> adjustment == 0
    ensures Factor(-100) == 0.0 && Factor(100) == 2.0
  {
  }

  /** Terminal cells are about twice as tall as they are wide. */
  const CHAR_ASPECT_RATIO: real := 0.5

  class ImageProcessor {
    var brightness: int
    var contrast: int
    var aspectCorrect: bool

    predicate Valid()
      reads this
    {
      -100 <= brightness <= 100 && -100 <= contrast <= 100
    }

    /** ImageProcessor(brightness, contrast, aspect_correct): both adjustments are clamped. */
    constructor (brightness: int := 0, contrast: int := 0, aspectCorrect: bool := true)
      ensures Valid()
      ensures this.brightness == Clamp100(brightness)
      ensures this.contrast == Clamp100(contrast)
      ensures this.aspectCorrect == aspectCorrect
    {
      this.brightness := Clamp100(brightness);
      this.contrast := Clamp100(contrast);
      this.aspectCorrect := aspectCorrect;
    }

    /**
     * The (width, height) resize_image passes to the resampler: with aspect
     * correction the height becomes int(height * 0.5), which is height
     * halved and truncated toward zero.
     */
    function TargetSize(width: int, height: int): (size: (int, int))
      reads this
      ensures size.0 == width
      ensures !aspectCorrect ==> size.1 == height
      ensures aspectCorrect && height >= 0 ==> size.1 == height / 2
      ensures aspectCorrect && height < 0 ==> size.1 == -((-height) / 2)
    {
      if aspectCorrect then (width, TruncToInt(height as real * CHAR_ASPECT_RATIO)) else (width, height)
    }

    /**
     * apply_brightness: the image itself when brightness is 0, otherwise
     * the library's brightness enhancement at factor 1 + brightness / 100.
     */
    function ApplyBrightness<Image>(image: Image, enhance: (Image, real) -> Image): (result: Image)
      reads this
      ensures brightness == 0 ==> result == image
      ensures brightness != 0 ==> result == enhance(image, Factor(brightness))
    {
      if brightness == 0 then image else enhance(image, Factor(brightness))
    }

    /** apply_contrast: the same rule with the contrast enhancement. */
    function ApplyContrast<Image>(image: Image, enhance: (Image, real) -> Image): (result: Image)
      reads this
      ensures contrast == 0 ==> result == image
      ensures contrast != 0 ==> result == enhance(image, Factor(contrast))
    {
      if contrast == 0 then image else enhance(image, Factor(contrast))
    }

    /**
     * The zero shortcut agrees with enhancing: for an enhancement that is
     * the identity at factor 1, both adjustments always equal enhancing at
     * their factor.
     */
    lemma ZeroShortcutAgrees<Image>(image: Image, enhance: (Image, real) -> Image)
      requires enhance(image, 1.0) == image
      ensures ApplyBrightness(image, enhance) == enhance(image, Factor(brightness))
      ensures ApplyContrast(image, enhance) == enhance(image, Factor(contrast))
    {
      assert Factor(0) == 1.0;
    }
  }

  /** The named resolutions parse_resolution accepts, keyed in lower case. */
  const RESOLUTION_PRESETS: map<string, (int, int)> := map[
    "8k" := (7680, 4320),
    "4k" := (3840, 2160),
    "1440p" := (2560, 1440),
    "1080p" := (1920, 1080),
    "720p" := (1280, 720),
    "480p" := (854, 480)
  ]

  /**
   * parse_resolution: a preset name in any case, or WIDTHxHEIGHT with an x
   * of either case, reading the first two x-separated fields as decimal
   * numerals; both must be positive.
   */
  function ParseResolution(s: string): (r: Result<(int, int)>)
    ensures r.Err? ==> r.error == InvalidResolution(s)
    ensures r.Ok? ==> r.value.0 > 0 && r.value.1 > 0
    ensures Lower(s) in RESOLUTION_PRESETS ==> r == Ok(RESOLUTION_PRESETS[Lower(s)])
    ensures Lower(s) !in RESOLUTION_PRESETS && 'x' !in Lower(s) ==> r.Err?
    ensures r.Ok? && Lower(s) !in RESOLUTION_PRESETS ==>
      var parts := Split(Lower(s), 'x');
      |parts| >= 2 && ParseNat(parts[0]) == Some(r.value.0) && ParseNat(parts[1]) == Some(r.value.1)
    ensures Lower(s) !in RESOLUTION_PRESETS && 'x' in Lower(s) ==>
      var parts := Split(Lower(s), 'x');
      |parts| >= 2 &&
      (r.Ok? <==> ParseNat(parts[0]).Some? && ParseNat(parts[1]).Some?
                  && ParseNat(parts[0]).value > 0 && ParseNat(parts[1]).value > 0)
  {
    var key := Lower(s);
    if key in RESOLUTION_PRESETS then Ok(RESOLUTION_PRESETS[key])
    else if 'x' !in key then Err(InvalidResolution(s))
    else
      var parts := Split(key, 'x');
      SplitHasTwoParts(key, 'x');
      match (ParseNat(parts[0]), ParseNat(parts[1]))
      case (Some(width), Some(height)) =>
        if width <= 0 || height <= 0 then Err(InvalidResolution(s)) else Ok((width, height))
      case _ => Err(InvalidResolution(s))
  }

  lemma {:induction false} SplitHasTwoParts(s: string, sep: char)
    requires sep in s
    ensures |Split(s, sep)| >= 2
  {
    if s[0] != sep {
      SplitHasTwoParts(s[1..], sep);
    }
  }

  lemma LowerKeepsDigits(s: string)
    requires AllDigits(s)
    ensures Lower(s) == s
  {
  }

  /** No preset name is a numeral, so a "WxH" string never hits the preset table. */
  lemma NumeralsAreNoPreset(a: string, b: string, rest: string)
    requires AllDigits(a) && AllDigits(b)
    ensures a + "x" + b + rest !in RESOLUTION_PRESETS
  {
    var s := a + "x" + b + rest;
    assert s[|a|] == 'x';
    assert forall k :: k in RESOLUTION_PRESETS ==> 'x' !in k;
  }

  /** A numeral, an x and a numeral: how a "WxH" string splits, whatever follows a further x. */
  lemma SplitWxH(w: string, h: string, more: string)
    requires AllDigits(w) && AllDigits(h)
    ensures Split(w + "x" + h, 'x') == [w, h]
    ensures Split(w + "x" + h + "x" + more, 'x') == [w, h] + Split(more, 'x')
  {
    assert 'x' !in w && 'x' !in h;
    assert w + "x" + h == w + ['x'] + h;
    SplitAtFirst(w, 'x', h);
    SplitWithoutSeparator(h, 'x');
    assert w + "x" + h + "x" + more == w + ['x'] + (h + ['x'] + more);
    SplitAtFirst(w, 'x', h + ['x'] + more);
    SplitAtFirst(h, 'x', more);
  }

  /** Printing a positive width and height as "WxH" (x in either case) parses back to them. */
  lemma {:induction false} ResolutionRoundTrip(width: nat, height: nat)
    requires width > 0 && height > 0
    ensures ParseResolution(NatToString(width) + "x" + NatToString(height)) == Ok((width, height))
    ensures ParseResolution(NatToString(width) + "X" + NatToString(height)) == Ok((width, height))
  {
    var w, h := NatToString(width), NatToString(height);
    LowerKeepsDigits(w);
    LowerKeepsDigits(h);
    var s := w + "x" + h;
    assert Lower(s) == s by {
      LowerConcat(w + "x", h);
      LowerConcat(w, "x");
    }
    assert Lower(w + "X" + h) == s by {
      LowerConcat(w + "X", h);
      LowerConcat(w, "X");
    }
    NumeralsAreNoPreset(w, h, "");
    assert s + "" == s;
    SplitWxH(w, h, "");
    ParseNatToString(width);
    ParseNatToString(height);
  }

  /** Only the first two x-separated fields are read: anything after a further x is ignored. */
  lemma {:induction false} ExtraFieldsIgnored(width: nat, height: nat, more: string)
    requires width > 0 && height > 0
    ensures ParseResolution(NatToString(width) + "x" + NatToString(height) + "x" + more) == Ok((width, height))
  {
    var w, h := NatToString(width), NatToString(height);
    LowerKeepsDigits(w);
    LowerKeepsDigits(h);
    var s := w + "x" + h + "x" + more;
    var tail := Lower(more);
    assert Lower(s) == w + "x" + h + "x" + tail by {
      LowerConcat(w + "x" + h + "x", more);
      LowerConcat(w + "x" + h, "x");
      LowerConcat(w + "x", h);
      LowerConcat(w, "x");
    }
    NumeralsAreNoPreset(w, h, "x" + tail);
    assert w + "x" + h + ("x" + tail) == w + "x" + h + "x" + tail;
    SplitWxH(w, h, tail);
    ParseNatToString(width);
    ParseNatToString(height);
  }

  /** A zero width or height is rejected like any other malformed string. */
  lemma ZeroComponentRejected(n: nat)
    ensures ParseResolution("0x" + NatToString(n)).Err?
    ensures ParseResolution(NatToString(n) + "x0").Err?
  {
    var h := NatToString(n);
    var s1 := "0x" + h;
    var s2 := h + "x0";
    assert AllDigits("0");
    LowerKeepsDigits(h);
    assert Lower(s1) == s1 by {
      LowerConcat("0x", h);
    }
    assert Lower(s2) == s2 by {
      LowerConcat(h, "x0");
    }
    NumeralsAreNoPreset("0", h, "");
    NumeralsAreNoPreset(h, "0", "");
    assert "0" + "x" + h + "" == s1;
    assert h + "x" + "0" + "" == s2;
    assert 'x' !in h;
    assert s1 == "0" + ['x'] + h;
    SplitAtFirst("0", 'x', h);
    SplitWithoutSeparator(h, 'x');
    assert s2 == h + ['x'] + "0";
    SplitAtFirst(h, 'x', "0");
    SplitWithoutSeparator("0", 'x');
  }

  /** Each preset name is found whatever its case. */
  lemma PresetsIgnoreCase(name: string)
    requires name in RESOLUTION_PRESETS
    ensures ParseResolution(Upper(name)) == ParseResolution(name) == Ok(RESOLUTION_PRESETS[name])
  {
    LowerUpper(name);
    assert Lower(name) == name;
  }
}
