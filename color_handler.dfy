/**
 * Colour layer (ascii_bg/core/color_handler.py): colour-string parsing, the
 * 24-bit ANSI SGR escapes, HSV conversion and multi-stop interpolation over
 * real numbers, the three colour-grid generators, and apply_colors, which
 * serialises a character grid with one colour escape per cell.
 *
 * A colour grid (a numpy uint8 array of shape (height, width, 3)) is an
 * array2<Rgb> indexed [y, x].
 */
module ColorHandling {
  import opened Base
  import opened Text

  type Byte = x: int | 0 <= x < 256

  datatype Rgb = Rgb(r: Byte, g: Byte, b: Byte)

  const BLACK: Rgb := Rgb(0, 0, 0)
  const WHITE: Rgb := Rgb(255, 255, 255)
  const RED: Rgb := Rgb(255, 0, 0)
  const BLUE: Rgb := Rgb(0, 0, 255)

  datatype ColorMode = BlackWhite | Source | Rainbow | Gradient | Solid

  // ---------------------------------------------------------------------------
  // ANSI escapes

  /** A control sequence introducer, the parameters and the final 'm': ESC [ params m. */
  function ControlSequence(params: string): string
  {
    [ESC] + "[" + params + "m"
  }

  /** The parameters of a direct-colour escape: selector ; 2 ; R ; G ; B. */
  function DirectColorParams(selector: string, r: int, g: int, b: int): string
  {
    Join(";", [selector, "2", IntToString(r), IntToString(g), IntToString(b)])
  }

  /** The parameters of a direct-colour escape never contain the final byte 'm'. */
  lemma DirectParamsHaveNoM(selector: string, r: int, g: int, b: int)
    requires 'm' !in selector
    ensures 'm' !in DirectColorParams(selector, r, g, b)
  {
    NumeralHasNoM(r);
    NumeralHasNoM(g);
    NumeralHasNoM(b);
    var fields := [selector, "2", IntToString(r), IntToString(g), IntToString(b)];
    assert forall i :: 0 <= i < |fields| ==> 'm' !in fields[i];
    JoinAvoids(";", fields, 'm');
  }

  /**
   * rgb_to_ansi: ESC [ 38 ; 2 ; R ; G ; B m, the direct-colour foreground
   * escape: ESC [ up to its only 'm', the final byte, so a terminal reads it
   * as one control sequence.
   */
  function RgbToAnsi(r: int, g: int, b: int): (s: string)
    ensures |s| >= 3 && s[0] == ESC && s[1] == '[' && s[|s| - 1] == 'm'
    ensures 'm' !in s[..|s| - 1]
  {
    var params := DirectColorParams("38", r, g, b);
    DirectParamsHaveNoM("38", r, g, b);
    assert ControlSequence(params)[..|params| + 2] == [ESC] + "[" + params;
    ControlSequence(params)
  }

  /** rgb_to_ansi_bg: ESC [ 48 ; 2 ; R ; G ; B m, the direct-colour background escape, one control sequence likewise. */
  function RgbToAnsiBg(r: int, g: int, b: int): (s: string)
    ensures |s| >= 3 && s[0] == ESC && s[1] == '[' && s[|s| - 1] == 'm'
    ensures 'm' !in s[..|s| - 1]
  {
    var params := DirectColorParams("48", r, g, b);
    DirectParamsHaveNoM("48", r, g, b);
    assert ControlSequence(params)[..|params| + 2] == [ESC] + "[" + params;
    ControlSequence(params)
  }

  /** reset_color: ESC [ 0 m, one control sequence likewise. */
  function ResetColor(): (s: string)
    ensures |s| >= 3 && s[0] == ESC && s[1] == '[' && s[|s| - 1] == 'm'
    ensures 'm' !in s[..|s| - 1]
  {
    assert ControlSequence("0")[..3] == [ESC] + "[0";
    ControlSequence("0")
  }

  lemma NumeralSamples()
    ensures IntToString(255) == "255" && IntToString(128) == "128" && IntToString(0) == "0"
  {
    assert NatToString(25) == "25";
    assert NatToString(12) == "12";
  }

  lemma ForegroundParams()
    ensures DirectColorParams("38", 255, 128, 0) == "38;2;255;128;0"
  {
    NumeralSamples();
    assert Join(";", ["128", "0"]) == "128;0";
    assert Join(";", ["255", "128", "0"]) == "255;128;0";
    assert Join(";", ["2", "255", "128", "0"]) == "2;255;128;0";
  }

  lemma BackgroundParams()
    ensures DirectColorParams("48", 0, 0, 0) == "48;2;0;0;0"
  {
    NumeralSamples();
    assert Join(";", ["0", "0"]) == "0;0";
    assert Join(";", ["0", "0", "0"]) == "0;0;0";
    assert Join(";", ["2", "0", "0", "0"]) == "2;0;0;0";
  }

  /** The foreground and reset escapes written out for a sample colour. */
  lemma ForegroundEscapeLayout()
    ensures RgbToAnsi(255, 128, 0) == "\U{1B}[38;2;255;128;0m"
    ensures ResetColor() == "\U{1B}[0m"
  {
    ForegroundParams();
    Escape38Literal();
  }

  lemma Escape38Literal()
    ensures ControlSequence("38;2;255;128;0") == "\U{1B}[38;2;255;128;0m"
    ensures ControlSequence("0") == "\U{1B}[0m"
  {
  }

  /** The background escape written out for black. */
  lemma BackgroundEscapeLayout()
    ensures RgbToAnsiBg(0, 0, 0) == "\U{1B}[48;2;0;0;0m"
  {
    BackgroundParams();
  }

  /** The three select-graphic-rendition sequences the colour layer emits. */
  datatype Sgr = Foreground(fg: Rgb) | Background(bg: Rgb) | Reset

  /**
   * Reads one SGR control sequence, ESC '[' parameters 'm', with parameters
   * either "0" or "38;2;R;G;B" / "48;2;R;G;B" where R, G, B are decimal bytes.
   */
  function DecodeSgr(s: string): Option<Sgr>
  {
    if |s| < 3 || s[0] != ESC || s[1] != '[' || s[|s| - 1] != 'm' then None
    else DecodeSgrParams(s[2..|s| - 1])
  }

  function DecodeSgrParams(params: string): Option<Sgr>
  {
    var fields := Split(params, ';');
    if fields == ["0"] then Some(Reset)
    else if |fields| == 5 && fields[1] == "2" && (fields[0] == "38" || fields[0] == "48") then
      match (ParseNat(fields[2]), ParseNat(fields[3]), ParseNat(fields[4]))
      case (Some(r), Some(g), Some(b)) =>
        if r < 256 && g < 256 && b < 256 then
          Some(if fields[0] == "38" then Foreground(Rgb(r, g, b)) else Background(Rgb(r, g, b)))
        else None
      case _ => None
    else None
  }

  lemma DecodeControlSequence(params: string)
    ensures DecodeSgr(ControlSequence(params)) == DecodeSgrParams(params)
  {
    var s := ControlSequence(params);
    assert s[2..|s| - 1] == params;
  }

  lemma DigitsHaveNoSeparator(s: string, c: char)
    requires AllDigits(s) && !IsDigit(c)
    ensures c !in s
  {
  }

  lemma NumeralFields(c: Rgb)
    ensures IntToString(c.r) == NatToString(c.r) && ';' !in IntToString(c.r)
    ensures IntToString(c.g) == NatToString(c.g) && ';' !in IntToString(c.g)
    ensures IntToString(c.b) == NatToString(c.b) && ';' !in IntToString(c.b)
  {
    DigitsHaveNoSeparator(NatToString(c.r), ';');
    DigitsHaveNoSeparator(NatToString(c.g), ';');
    DigitsHaveNoSeparator(NatToString(c.b), ';');
  }

  lemma DecodeDirectColor(selector: string, c: Rgb)
    requires selector == "38" || selector == "48"
    ensures DecodeSgrParams(DirectColorParams(selector, c.r, c.g, c.b))
         == Some(if selector == "38" then Foreground(c) else Background(c))
  {
    ParseNatToString(c.r);
    ParseNatToString(c.g);
    ParseNatToString(c.b);
    NumeralFields(c);
    var fields := [selector, "2", IntToString(c.r), IntToString(c.g), IntToString(c.b)];
    assert forall i :: 0 <= i < |fields| ==> ';' !in fields[i];
    SplitJoin(fields, ';');
  }

  /** The escapes decode back to the colour (or the reset) they were built from. */
  lemma SgrRoundTrip(c: Rgb)
    ensures DecodeSgr(RgbToAnsi(c.r, c.g, c.b)) == Some(Foreground(c))
    ensures DecodeSgr(RgbToAnsiBg(c.r, c.g, c.b)) == Some(Background(c))
    ensures DecodeSgr(ResetColor()) == Some(Reset)
  {
    DecodeControlSequence(DirectColorParams("38", c.r, c.g, c.b));
    DecodeDirectColor("38", c);
    DecodeControlSequence(DirectColorParams("48", c.r, c.g, c.b));
    DecodeDirectColor("48", c);
    DecodeControlSequence("0");
    SplitWithoutSeparator("0", ';');
  }

  // ---------------------------------------------------------------------------
  // What a terminal shows: text with the escape sequences removed

  /** Drops everything up to and including the next 'm' (the end of an escape). */
  function SkipEscape(s: string): (r: string)
    ensures |r| <= |s|
  {
    if |s| == 0 then [] else if s[0] == 'm' then s[1..] else SkipEscape(s[1..])
  }

  /** The visible text: every ESC ... 'm' sequence removed. */
  function StripAnsi(s: string): string
    decreases |s|
  {
    if |s| == 0 then []
    else if s[0] == ESC then StripAnsi(SkipEscape(s[1..]))
    else [s[0]] + StripAnsi(s[1..])
  }

  /** Every escape sequence in s is terminated within s. */
  predicate Closed(s: string)
    decreases |s|
  {
    if |s| == 0 then true
    else if s[0] == ESC then 'm' in s[1..] && Closed(SkipEscape(s[1..]))
    else Closed(s[1..])
  }

  lemma {:induction false} SkipEscapeConcat(a: string, b: string)
    requires 'm' in a
    ensures SkipEscape(a + b) == SkipEscape(a) + b
  {
    assert (a + b)[0] == a[0];
    if a[0] != 'm' {
      assert (a + b)[1..] == a[1..] + b;
      SkipEscapeConcat(a[1..], b);
    } else {
      assert (a + b)[1..] == a[1..] + b;
    }
  }

  lemma {:induction false} StripConcat(a: string, b: string)
    requires Closed(a)
    ensures StripAnsi(a + b) == StripAnsi(a) + StripAnsi(b)
    ensures Closed(b) ==> Closed(a + b)
    decreases |a|
  {
    if |a| == 0 {
      assert a + b == b;
    } else {
      assert (a + b)[0] == a[0];
      assert (a + b)[1..] == a[1..] + b;
      if a[0] == ESC {
        SkipEscapeConcat(a[1..], b);
        StripConcat(SkipEscape(a[1..]), b);
        assert 'm' in (a + b)[1..];
      } else {
        StripConcat(a[1..], b);
      }
    }
  }

  /** A control sequence whose parameters hold no 'm' is closed and invisible. */
  lemma EscapeInvisible(params: string)
    requires 'm' !in params
    ensures Closed(ControlSequence(params))
    ensures StripAnsi(ControlSequence(params)) == ""
  {
    var s := ControlSequence(params);
    var body := "[" + params;
    assert s[1..] == body + "m";
    assert 'm' in s[1..];
    SkipToM(body);
  }

  lemma {:induction false} SkipToM(body: string)
    requires 'm' !in body
    ensures SkipEscape(body + "m") == ""
  {
    if |body| > 0 {
      assert (body + "m")[1..] == body[1..] + "m";
      SkipToM(body[1..]);
    }
  }

  lemma VisibleChar(ch: char)
    requires ch != ESC
    ensures Closed([ch]) && StripAnsi([ch]) == [ch]
  {
  }

  lemma NumeralHasNoM(n: int)
    ensures 'm' !in IntToString(n)
  {
    if n < 0 {
      DigitsHaveNoSeparator(NatToString(-n), 'm');
    } else {
      DigitsHaveNoSeparator(NatToString(n), 'm');
    }
  }

  /** A coloured cell shows exactly its character. */
  lemma ColoredCellShowsChar(c: Rgb, ch: char)
    requires ch != ESC
    ensures Closed(RgbToAnsi(c.r, c.g, c.b) + [ch] + ResetColor())
    ensures StripAnsi(RgbToAnsi(c.r, c.g, c.b) + [ch] + ResetColor()) == [ch]
  {
    DirectParamsHaveNoM("38", c.r, c.g, c.b);
    EscapeInvisible(DirectColorParams("38", c.r, c.g, c.b));
    EscapeInvisible("0");
    VisibleChar(ch);
    StripConcat([ch], ResetColor());
    StripConcat(RgbToAnsi(c.r, c.g, c.b), [ch] + ResetColor());
    assert RgbToAnsi(c.r, c.g, c.b) + [ch] + ResetColor() == RgbToAnsi(c.r, c.g, c.b) + ([ch] + ResetColor());
  }

  /** Joining closed lines with newlines commutes with stripping the escapes. */
  lemma {:induction false} StripJoin(lines: seq<string>, visible: seq<string>)
    requires |lines| == |visible|
    requires forall i :: 0 <= i < |lines| ==> Closed(lines[i]) && StripAnsi(lines[i]) == visible[i]
    ensures Closed(Join("\n", lines))
    ensures StripAnsi(Join("\n", lines)) == Join("\n", visible)
  {
    if |lines| > 1 {
      StripJoin(lines[1..], visible[1..]);
      var rest := Join("\n", lines[1..]);
      VisibleChar('\n');
      StripConcat("\n", rest);
      StripConcat(lines[0], "\n" + rest);
      assert lines[0] + "\n" + rest == lines[0] + ("\n" + rest);
    }
  }

  // ---------------------------------------------------------------------------
  // parse_color

  const NAMED_COLORS: map<string, Rgb> := map[
    "black" := BLACK,
    "white" := WHITE,
    "red" := RED,
    "green" := Rgb(0, 255, 0),
    "blue" := BLUE,
    "yellow" := Rgb(255, 255, 0),
    "cyan" := Rgb(0, 255, 255),
    "magenta" := Rgb(255, 0, 255),
    "gray" := Rgb(128, 128, 128),
    "grey" := Rgb(128, 128, 128)
  ]

  /**
   * parse_color with each two-character channel read as plain hexadecimal
   * digits: "#RRGGBB" (either case) or a named colour (any case).
   */
  function ParseColor(s: string): (r: Result<Rgb>)
    ensures r.Err? ==> r.error == if |s| > 0 && s[0] == '#' then InvalidHexColor(s) else UnknownColor(s)
    ensures |s| > 0 && s[0] == '#' ==> (r.Ok? <==> |s| == 7 && AllHex(s[1..]))
    ensures (|s| == 0 || s[0] != '#') ==> (r.Ok? <==> Lower(s) in NAMED_COLORS)
  {
    if |s| > 0 && s[0] == '#' then
      var hex := s[1..];
      if |hex| != 6 then Err(InvalidHexColor(s))
      else
        match (ParseHexPair(hex[0..2]), ParseHexPair(hex[2..4]), ParseHexPair(hex[4..6]))
        case (Some(r), Some(g), Some(b)) => Ok(Rgb(r, g, b))
        case _ => Err(InvalidHexColor(s))
    else if Lower(s) in NAMED_COLORS then Ok(NAMED_COLORS[Lower(s)])
    else Err(UnknownColor(s))
  }

  /** "#rrggbb" with two lower-case hex digits per channel, as the JSON export writes it. */
  function HexColor(c: Rgb): (s: string)
    ensures |s| == 7 && s[0] == '#'
  {
    "#" + HexByte(c.r) + HexByte(c.g) + HexByte(c.b)
  }

  /** A hex colour string parses back to its colour, in lower or upper case. */
  lemma HexColorRoundTrip(c: Rgb)
    ensures ParseColor(HexColor(c)) == Ok(c)
    ensures ParseColor("#" + Upper(HexByte(c.r) + HexByte(c.g) + HexByte(c.b))) == Ok(c)
  {
    ParseHexByte(c.r);
    ParseHexByte(c.g);
    ParseHexByte(c.b);
    HexPairsParse(HexByte(c.r), HexByte(c.g), HexByte(c.b), c);
    var u := Upper(HexByte(c.r) + HexByte(c.g) + HexByte(c.b));
    assert u == Upper(HexByte(c.r)) + Upper(HexByte(c.g)) + Upper(HexByte(c.b)) by {
      UpperConcat(HexByte(c.r) + HexByte(c.g), HexByte(c.b));
      UpperConcat(HexByte(c.r), HexByte(c.g));
    }
    HexPairsParse(Upper(HexByte(c.r)), Upper(HexByte(c.g)), Upper(HexByte(c.b)), c);
    assert "#" + u == "#" + Upper(HexByte(c.r)) + Upper(HexByte(c.g)) + Upper(HexByte(c.b));
  }

  /** Three two-digit fields that parse to the channels of c make "#" + fields parse to c. */
  lemma HexPairsParse(a: string, b: string, d: string, c: Rgb)
    requires |a| == 2 && |b| == 2 && |d| == 2
    requires ParseHexPair(a) == Some(c.r) && ParseHexPair(b) == Some(c.g) && ParseHexPair(d) == Some(c.b)
    ensures ParseColor("#" + a + b + d) == Ok(c)
  {
    HexFields(a, b, d);
  }

  lemma HexFields(a: string, b: string, c: string)
    requires |a| == 2 && |b| == 2 && |c| == 2
    ensures var s := "#" + a + b + c; |s| == 7 && s[0] == '#' && s[1..][0..2] == a && s[1..][2..4] == b && s[1..][4..6] == c
  {
  }

  /** A well-formed "#RRGGBB" string gives the three two-digit hexadecimal values as channels. */
  lemma HexChannels(s: string)
    requires |s| == 7 && s[0] == '#' && AllHex(s[1..])
    ensures ParseColor(s).Ok?
    ensures ParseColor(s).value.r == HexValue(s[1..3])
    ensures ParseColor(s).value.g == HexValue(s[3..5])
    ensures ParseColor(s).value.b == HexValue(s[5..7])
  {
    var hex := s[1..];
    assert hex[0..2] == s[1..3] && hex[2..4] == s[3..5] && hex[4..6] == s[5..7];
    HexPairValue(s[1..3]);
    HexPairValue(s[3..5]);
    HexPairValue(s[5..7]);
  }

  lemma HexPairValue(t: string)
    requires |t| == 2 && AllHex(t)
    ensures ParseHexPair(t) == Some(HexValue(t))
  {
    var hi, lo := HexDigitValue(t[0]).value, HexDigitValue(t[1]).value;
    assert t[..1][..0] == [];
    assert HexValue(t[..1]) == hi;
    assert t[..|t| - 1] == t[..1];
    assert HexValue(t) == hi * 16 + lo;
  }

  /** A named colour is found whatever its case; gray and grey are the same colour. */
  lemma NamedColorsIgnoreCase(s: string)
    requires |s| == 0 || s[0] != '#'
    ensures ParseColor(Upper(s)).Ok? <==> ParseColor(s).Ok?
    ensures ParseColor(s).Ok? ==> ParseColor(Upper(s)) == ParseColor(s) == Ok(NAMED_COLORS[Lower(s)])
    ensures ParseColor("gray") == ParseColor("GREY") == Ok(Rgb(128, 128, 128))
  {
    LowerUpper(s);
    var u := Upper(s);
    assert |u| == |s|;
    assert |u| > 0 ==> u[0] == UpperChar(s[0]) != '#';
    assert "GREY" == Upper("grey");
    LowerUpper("grey");
    assert Lower("GREY") == "grey";
    assert Lower("gray") == "gray";
  }

  // ---------------------------------------------------------------------------
  // parse_color as written: int(field, 16) is lenient

  predicate IsSpace(c: char)
  {
    c == ' ' || c == '\t' || c == '\n' || c == '\r' || c == '\U{0B}' || c == '\U{0C}'
  }

  function StripSpace(s: string): string
    decreases |s|
  {
    if |s| > 0 && IsSpace(s[0]) then StripSpace(s[1..])
    else if |s| > 0 && IsSpace(s[|s| - 1]) then StripSpace(s[..|s| - 1])
    else s
  }

  predicate AllHex(s: string)
  {
    forall i :: 0 <= i < |s| ==> HexDigitValue(s[i]).Some?
  }

  function HexValue(s: string): nat
    requires AllHex(s)
  {
    if |s| == 0 then 0 else HexValue(s[..|s| - 1]) * 16 + HexDigitValue(s[|s| - 1]).value
  }

  /**
   * Python's int(t, 16) on the short fields parse_color slices: surrounding
   * whitespace is ignored and one leading sign is accepted. (An underscore
   * needs a digit on each side, so it cannot occur validly in two characters.)
   */
  function PyIntBase16(t: string): Option<int>
  {
    var u := StripSpace(t);
    if |u| == 0 then None
    else
      var digits := if u[0] == '-' || u[0] == '+' then u[1..] else u;
      if |digits| == 0 || !AllHex(digits) then None
      else
        var magnitude: int := HexValue(digits);
        Some(if u[0] == '-' then -magnitude else magnitude)
  }

  /** parse_color exactly as written, returning the Python tuple of ints. */
  function ParseColorAsWritten(s: string): (r: Result<(int, int, int)>)
    ensures r.Err? ==> r.error == if |s| > 0 && s[0] == '#' then InvalidHexColor(s) else UnknownColor(s)
    ensures |s| > 0 && s[0] == '#' && r.Ok? ==> |s| == 7
    ensures (|s| == 0 || s[0] != '#') ==> (r.Ok? <==> Lower(s) in NAMED_COLORS)
  {
    if |s| > 0 && s[0] == '#' then
      var hex := s[1..];
      if |hex| != 6 then Err(InvalidHexColor(s))
      else
        match (PyIntBase16(hex[0..2]), PyIntBase16(hex[2..4]), PyIntBase16(hex[4..6]))
        case (Some(r), Some(g), Some(b)) => Ok((r, g, b))
        case _ => Err(InvalidHexColor(s))
    else if Lower(s) in NAMED_COLORS then
      var c := NAMED_COLORS[Lower(s)];
      Ok((c.r, c.g, c.b))
    else Err(UnknownColor(s))
  }

  /**
   * The hex branch as written accepts a sign inside a channel: "#-1-1-1"
   * parses to (-1, -1, -1), which is no colour. The strict ParseColor rejects it.
   */
  lemma SignedHexChannelAccepted()
    ensures ParseColorAsWritten("#-1-1-1") == Ok((-1, -1, -1))
    ensures ParseColor("#-1-1-1") == Err(InvalidHexColor("#-1-1-1"))
  {
    var s := "#-1-1-1";
    assert s[1..][0..2] == "-1" && s[1..][2..4] == "-1" && s[1..][4..6] == "-1";
    assert StripSpace("-1") == "-1";
    assert "-1"[1..] == "1";
    assert HexValue("1") == 1 by {
      assert "1"[..0] == "";
    }
  }

  /** Wherever the strict parser succeeds, the code as written returns the same colour. */
  lemma StrictParseAgrees(s: string)
    requires ParseColor(s).Ok?
    ensures ParseColorAsWritten(s) == Ok((ParseColor(s).value.r, ParseColor(s).value.g, ParseColor(s).value.b))
  {
    if |s| > 0 && s[0] == '#' {
      var hex := s[1..];
      PlainHexPair(hex[0..2]);
      PlainHexPair(hex[2..4]);
      PlainHexPair(hex[4..6]);
    }
  }

  lemma PlainHexPair(t: string)
    requires |t| == 2 && ParseHexPair(t).Some?
    ensures PyIntBase16(t) == Some(ParseHexPair(t).value)
  {
    assert !IsSpace(t[0]) && !IsSpace(t[1]);
    assert StripSpace(t) == t;
    assert t[0] != '-' && t[0] != '+';
    assert AllHex(t);
    HexPairValue(t);
  }


  // ---------------------------------------------------------------------------
  // _hsv_to_rgb

  /** The standard six-sector HSV to RGB conversion, channels scaled to 0..255 and truncated. */
  function HsvToRgb(h: real, s: real, v: real): (rgb: (int, int, int))
    ensures 0.0 <= h && 0.0 <= s <= 1.0 && 0.0 <= v <= 1.0 ==>
      0 <= rgb.0 <= 255 && 0 <= rgb.1 <= 255 && 0 <= rgb.2 <= 255
  {
    if s == 0.0 then
      var val := TruncToInt(v * 255.0);
      assert 0.0 <= v <= 1.0 ==> 0 <= val <= 255 by {
        if 0.0 <= v <= 1.0 {
          UnitScale(v);
        }
      }
      (val, val, val)
    else
      var h6 := h * 6.0;
      var i := TruncToInt(h6);
      var f := h6 - i as real;
      var p := v * (1.0 - s);
      var q := v * (1.0 - s * f);
      var t := v * (1.0 - s * (1.0 - f));
      var rgb :=
        match i % 6
        case 0 => (v, t, p)
        case 1 => (q, v, p)
        case 2 => (p, v, t)
        case 3 => (p, q, v)
        case 4 => (t, p, v)
        case _ => (v, p, q);
      assert 0.0 <= h && 0.0 <= s <= 1.0 && 0.0 <= v <= 1.0 ==>
          0.0 <= rgb.0 <= 1.0 && 0.0 <= rgb.1 <= 1.0 && 0.0 <= rgb.2 <= 1.0 by {
        if 0.0 <= h && 0.0 <= s <= 1.0 && 0.0 <= v <= 1.0 {
          assert 0.0 <= f < 1.0;
          HsvComponents(s, v, f);
        }
      }
      assert 0.0 <= h && 0.0 <= s <= 1.0 && 0.0 <= v <= 1.0 ==>
          0 <= TruncToInt(rgb.0 * 255.0) <= 255 && 0 <= TruncToInt(rgb.1 * 255.0) <= 255
          && 0 <= TruncToInt(rgb.2 * 255.0) <= 255 by {
        if 0.0 <= h && 0.0 <= s <= 1.0 && 0.0 <= v <= 1.0 {
          UnitScale(rgb.0);
          UnitScale(rgb.1);
          UnitScale(rgb.2);
        }
      }
      (TruncToInt(rgb.0 * 255.0), TruncToInt(rgb.1 * 255.0), TruncToInt(rgb.2 * 255.0))
  }

  /** For s, v and the sector fraction f in [0, 1], the intermediate values p, q and t lie in [0, 1]. */
  lemma HsvComponents(s: real, v: real, f: real)
    requires 0.0 <= s <= 1.0 && 0.0 <= v <= 1.0 && 0.0 <= f <= 1.0
    ensures 0.0 <= v * (1.0 - s) <= 1.0
    ensures 0.0 <= v * (1.0 - s * f) <= 1.0
    ensures 0.0 <= v * (1.0 - s * (1.0 - f)) <= 1.0
  {
    ScaleDown(s, f);
    ScaleDown(s, 1.0 - f);
    ScaleDown(1.0 - s, v);
    ScaleDown(1.0 - s * f, v);
    ScaleDown(1.0 - s * (1.0 - f), v);
  }

  /** Zero saturation gives the grey int(v * 255) in all three channels. */
  lemma HsvGrey(h: real, v: real)
    ensures var val := TruncToInt(v * 255.0); HsvToRgb(h, 0.0, v) == (val, val, val)
    ensures HsvToRgb(h, 0.0, 1.0) == (255, 255, 255)
  {
  }

  lemma UnitScale(x: real)
    requires 0.0 <= x <= 1.0
    ensures 0 <= TruncToInt(x * 255.0) <= 255
  {
  }

  /**
   * At full saturation and value and a hue of at least 0, every channel is a
   * byte, one channel is 255 and one is 0.
   */
  lemma {:induction false} HsvFullSaturation(h: real)
    requires 0.0 <= h
    ensures var (r, g, b) := HsvToRgb(h, 1.0, 1.0);
      0 <= r <= 255 && 0 <= g <= 255 && 0 <= b <= 255
      && (r == 255 || g == 255 || b == 255) && (r == 0 || g == 0 || b == 0)
  {
    var h6 := h * 6.0;
    var i := TruncToInt(h6);
    var f := h6 - i as real;
    assert 0.0 <= f < 1.0;
    UnitScale(1.0 - f);
    UnitScale(f);
  }

  /** Hue 0 at full saturation and value is pure red. */
  lemma HsvRed()
    ensures HsvToRgb(0.0, 1.0, 1.0) == (255, 0, 0)
  {
  }

  /** The rainbow colour of a hue: HSV (hue, 1, 1) stored as bytes. */
  function RainbowColor(hue: real): (c: Rgb)
    requires 0.0 <= hue
    ensures FullySaturated(c)
  {
    HsvFullSaturation(hue);
    var (r, g, b) := HsvToRgb(hue, 1.0, 1.0);
    Rgb(r, g, b)
  }

  /** One channel at 255 and one at 0: a colour of the hue circle's rim. */
  predicate FullySaturated(c: Rgb)
  {
    (c.r == 255 || c.g == 255 || c.b == 255) && (c.r == 0 || c.g == 0 || c.b == 0)
  }

  // ---------------------------------------------------------------------------
  // _interpolate_colors

  /** Every channel of c lies between the corresponding channels of c1 and c2. */
  predicate Between(c: Rgb, c1: Rgb, c2: Rgb)
  {
    (c1.r <= c.r <= c2.r || c2.r <= c.r <= c1.r)
    && (c1.g <= c.g <= c2.g || c2.g <= c.g <= c1.g)
    && (c1.b <= c.b <= c2.b || c2.b <= c.b <= c1.b)
  }

  /** a + (b - a) * t: the point at fraction t of the way from a to b. */
  function Lerp(a: real, b: real, t: real): (x: real)
    requires 0.0 <= t <= 1.0
    ensures a <= b ==> a <= x <= b
    ensures b < a ==> b <= x <= a
    ensures t == 0.0 ==> x == a
  {
    var d := b - a;
    if 0.0 <= d then
      ScaleDown(d, t);
      a + d * t
    else
      ScaleDown(-d, t);
      assert d * t == -((-d) * t);
      a + d * t
  }

  /** int(a + (b - a) * t) for 0 <= t <= 1: a channel on the segment from a to b. */
  function Mix(a: Byte, b: Byte, t: real): (m: Byte)
    requires 0.0 <= t <= 1.0
    ensures a <= m <= b || b <= m <= a
    ensures t == 0.0 ==> m == a
  {
    var x := Lerp(a as real, b as real, t);
    if a <= b then
      TruncBetween(x, a, b);
      TruncToInt(x)
    else
      TruncBetween(x, b, a);
      TruncToInt(x)
  }

  /**
   * The segment index int(p / segment_size) and the local position
   * (p - segment * segment_size) / segment_size for segment_size = 1 / (n - 1):
   * p * (n - 1) split into its integer part and its fraction.
   */
  function Segment(p: real, n: nat): (r: (int, real))
    requires 0.0 <= p <= 1.0 && n >= 2
    ensures 0 <= r.0 <= n - 1
    ensures r.0 as real <= p * (n - 1) as real < r.0 as real + 1.0
    ensures r.1 == p * (n - 1) as real - r.0 as real
  {
    var m := (n - 1) as real;
    var segmentSize := 1.0 / m;
    assert p / segmentSize == p * m;
    assert p * m <= m by {
      assert 0.0 <= (1.0 - p) * m;
    }
    var segment := TruncToInt(p / segmentSize);
    TruncBetween(p * m, 0, n - 1);
    var localPos := (p - segment as real * segmentSize) / segmentSize;
    assert localPos == p / segmentSize - segment as real * segmentSize / segmentSize;
    (segment, localPos)
  }

  /** Once p * (n - 1) is known to lie in [k, k + 1), the segment is k. */
  lemma SegmentIs(p: real, n: nat, k: int)
    requires 0.0 <= p <= 1.0 && n >= 2
    requires k as real <= p * (n - 1) as real < k as real + 1.0
    ensures Segment(p, n).0 == k
  {
  }

  /**
   * _interpolate_colors(pos, len(stops)): pos is clamped to [0, 1], the
   * segment is int(pos / segment_size) and a segment index of n - 1 or more
   * gives the last stop; otherwise the two stops of the segment are mixed.
   */
  function InterpolateColors(stops: seq<Rgb>, pos: real): (c: Rgb)
    requires |stops| >= 2
    ensures exists k :: 0 <= k < |stops| - 1 && Between(c, stops[k], stops[k + 1])
  {
    var n := |stops|;
    var (segment, localPos) := Segment(Clamp01(pos), n);
    if segment >= n - 1 then
      assert Between(stops[n - 1], stops[n - 2], stops[n - 1]);
      stops[n - 1]
    else
      Blend(stops[segment], stops[segment + 1], localPos)
  }

  /** The channel-wise mix at fraction t from c1 to c2. */
  function Blend(c1: Rgb, c2: Rgb, t: real): (c: Rgb)
    requires 0.0 <= t <= 1.0
    ensures Between(c, c1, c2)
    ensures t == 0.0 ==> c == c1
  {
    Rgb(Mix(c1.r, c2.r, t), Mix(c1.g, c2.g, t), Mix(c1.b, c2.b, t))
  }

  /** A clamped position whose scaled value is the whole number k gives exactly stop k. */
  lemma {:induction false} InterpolateAtScaled(stops: seq<Rgb>, p: real, k: nat)
    requires |stops| >= 2 && k < |stops| && 0.0 <= p <= 1.0
    requires p * (|stops| - 1) as real == k as real
    ensures InterpolateColors(stops, p) == stops[k]
  {
    SegmentIs(p, |stops|, k);
  }

  /**
   * At the junction pos = k / (n - 1) the result is exactly stop k: the later
   * segment's start colour, and at pos 1 the last stop.
   */
  lemma {:induction false} InterpolateAtStop(stops: seq<Rgb>, k: nat)
    requires |stops| >= 2 && k < |stops|
    ensures InterpolateColors(stops, k as real / (|stops| - 1) as real) == stops[k]
  {
    var m := (|stops| - 1) as real;
    var pos := k as real / m;
    DivTimes(k as real, m);
    assert pos <= 1.0 by {
      assert k as real <= m;
    }
    InterpolateAtScaled(stops, pos, k);
  }

  /** pos 0 (or less) gives the first stop, pos 1 (or more) the last. */
  lemma InterpolateEnds(stops: seq<Rgb>, pos: real)
    requires |stops| >= 2
    ensures pos <= 0.0 ==> InterpolateColors(stops, pos) == stops[0]
    ensures pos >= 1.0 ==> InterpolateColors(stops, pos) == stops[|stops| - 1]
  {
    if pos <= 0.0 {
      InterpolateAtScaled(stops, 0.0, 0);
    } else if pos >= 1.0 {
      InterpolateAtScaled(stops, 1.0, |stops| - 1);
    }
  }

  /** Inside segment k the colour lies channel-wise between stops k and k + 1. */
  lemma {:induction false} InterpolateWithinSegment(stops: seq<Rgb>, k: nat, pos: real)
    requires |stops| >= 2 && k < |stops| - 1
    requires k as real / (|stops| - 1) as real <= pos < (k + 1) as real / (|stops| - 1) as real
    ensures Between(InterpolateColors(stops, pos), stops[k], stops[k + 1])
  {
    var m := (|stops| - 1) as real;
    SegmentBounds(k, m, pos);
    SegmentIs(pos, |stops|, k);
    var t := Segment(pos, |stops|).1;
    assert InterpolateColors(stops, pos) == Blend(stops[k], stops[k + 1], t);
  }

  /** k / m <= pos < (k + 1) / m with k + 1 <= m puts pos * m in [k, k + 1) and pos in [0, 1]. */
  lemma SegmentBounds(k: nat, m: real, pos: real)
    requires (k + 1) as real <= m
    requires k as real / m <= pos < (k + 1) as real / m
    ensures k as real <= pos * m < (k + 1) as real
    ensures 0.0 <= pos <= 1.0
  {
    DivTimes(k as real, m);
    DivTimes((k + 1) as real, m);
    assert (pos - k as real / m) * m >= 0.0;
    assert ((k + 1) as real / m - pos) * m > 0.0;
    assert (k + 1) as real / m <= 1.0 by {
      DivTimes(1.0, m);
      assert (m - (k + 1) as real) / m >= 0.0;
    }
  }

  // ---------------------------------------------------------------------------
  // ColorHandler

  const HORIZONTAL: string := "horizontal"
  const VERTICAL: string := "vertical"
  const DIAGONAL: string := "diagonal"

  /** pos = i / (extent - 1) if extent > 1 else 0. */
  function AxisPosition(i: nat, extent: nat): real
  {
    if extent > 1 then i as real / (extent - 1) as real else 0.0
  }

  /** pos = (x + y) / (width + height - 2), or 0 when that distance is not positive. */
  function DiagonalPosition(x: nat, y: nat, width: nat, height: nat): real
  {
    var maxDist := width + height - 2;
    if maxDist > 0 then (x + y) as real / maxDist as real else 0.0
  }

  lemma AxisEnds(extent: nat)
    ensures AxisPosition(0, extent) == 0.0
    ensures extent > 1 ==> AxisPosition(extent - 1, extent) == 1.0
  {
  }

  lemma AxisGradientEnds(stops: seq<Rgb>, extent: nat)
    requires |stops| >= 2
    ensures InterpolateColors(stops, AxisPosition(0, extent)) == stops[0]
    ensures extent > 1 ==> InterpolateColors(stops, AxisPosition(extent - 1, extent)) == stops[|stops| - 1]
  {
    AxisEnds(extent);
    InterpolateEnds(stops, 0.0);
    InterpolateEnds(stops, 1.0);
  }

  lemma DiagonalGradientEnds(stops: seq<Rgb>, width: nat, height: nat)
    requires |stops| >= 2 && width >= 1 && height >= 1
    ensures InterpolateColors(stops, DiagonalPosition(0, 0, width, height)) == stops[0]
    ensures width + height > 2 ==>
      InterpolateColors(stops, DiagonalPosition(width - 1, height - 1, width, height)) == stops[|stops| - 1]
  {
    assert DiagonalPosition(0, 0, width, height) == 0.0;
    assert width + height > 2 ==> DiagonalPosition(width - 1, height - 1, width, height) == 1.0;
    InterpolateEnds(stops, 0.0);
    InterpolateEnds(stops, 1.0);
  }

  /** "\n".join("".join(row) for row in grid). */
  function PlainText(grid: seq<seq<char>>): string
  {
    Join("\n", grid)
  }

  /** One cell of apply_colors: escaped when (y, x) is inside the colour array, bare otherwise. */
  function CellText(ch: char, y: nat, x: nat, colors: array2<Rgb>): string
    reads colors
  {
    if y < colors.Length0 && x < colors.Length1 then
      var c := colors[y, x];
      RgbToAnsi(c.r, c.g, c.b) + [ch] + ResetColor()
    else [ch]
  }

  /** The line apply_colors builds for row y. */
  function ColoredLine(row: seq<char>, y: nat, colors: array2<Rgb>): string
    reads colors
  {
    if |row| == 0 then ""
    else ColoredLine(row[..|row| - 1], y, colors) + CellText(row[|row| - 1], y, |row| - 1, colors)
  }

  /** The lines apply_colors builds, one per row. */
  function ColoredLines(grid: seq<seq<char>>, colors: array2<Rgb>): (lines: seq<string>)
    reads colors
    ensures |lines| == |grid|
    ensures forall y :: 0 <= y < |grid| ==> lines[y] == ColoredLine(grid[y], y, colors)
  {
    seq(|grid|, y requires 0 <= y < |grid| reads colors => ColoredLine(grid[y], y, colors))
  }

  /**
   * The text apply_colors returns in the given mode. Black-and-white mode and a
   * colour array without rows give the plain text; whatever the mode and the
   * colour array, the escapes are invisible: with them removed the output is
   * the plain text.
   */
  function ColoredText(mode: ColorMode, grid: seq<seq<char>>, colors: array2<Rgb>): (t: string)
    reads colors
    ensures mode == BlackWhite || colors.Length0 == 0 ==> t == PlainText(grid)
    ensures NoEscape(grid) ==> Closed(t) && StripAnsi(t) == PlainText(grid)
  {
    if mode == BlackWhite then
      assert NoEscape(grid) ==> Closed(PlainText(grid)) && StripAnsi(PlainText(grid)) == PlainText(grid) by {
        if NoEscape(grid) {
          PlainTextVisible(grid);
        }
      }
      PlainText(grid)
    else
      var lines := ColoredLines(grid, colors);
      assert colors.Length0 == 0 ==> lines == grid by {
        if colors.Length0 == 0 {
          BareLines(grid, colors);
        }
      }
      assert NoEscape(grid) ==> Closed(Join("\n", lines)) && StripAnsi(Join("\n", lines)) == PlainText(grid) by {
        if NoEscape(grid) {
          ColoredLinesVisible(grid, colors);
        }
      }
      Join("\n", lines)
  }

  predicate NoEscape(grid: seq<seq<char>>)
  {
    forall y, x :: 0 <= y < |grid| && 0 <= x < |grid[y]| ==> grid[y][x] != ESC
  }

  /** The inner loop of apply_colors: one row, cell by cell. */
  method ColorLine(row: seq<char>, y: nat, colors: array2<Rgb>) returns (line: string)
    ensures line == ColoredLine(row, y, colors)
  {
    line := "";
    for x := 0 to |row|
      invariant line == ColoredLine(row[..x], y, colors)
    {
      var ch := row[x];
      var cell;
      if y < colors.Length0 && x < colors.Length1 {
        var c := colors[y, x];
        cell := RgbToAnsi(c.r, c.g, c.b) + [ch] + ResetColor();
      } else {
        cell := [ch];
      }
      assert cell == CellText(ch, y, x, colors);
      assert row[..x + 1][..x] == row[..x];
      line := line + cell;
    }
    assert row[..|row|] == row;
  }

  lemma CellShowsChar(ch: char, y: nat, x: nat, colors: array2<Rgb>)
    requires ch != ESC
    ensures Closed(CellText(ch, y, x, colors)) && StripAnsi(CellText(ch, y, x, colors)) == [ch]
  {
    if y < colors.Length0 && x < colors.Length1 {
      ColoredCellShowsChar(colors[y, x], ch);
    } else {
      VisibleChar(ch);
    }
  }

  lemma {:induction false} ColoredLineShowsRow(row: seq<char>, y: nat, colors: array2<Rgb>)
    requires forall x :: 0 <= x < |row| ==> row[x] != ESC
    ensures Closed(ColoredLine(row, y, colors)) && StripAnsi(ColoredLine(row, y, colors)) == row
  {
    if |row| > 0 {
      var init, last := row[..|row| - 1], row[|row| - 1];
      var front, cell := ColoredLine(init, y, colors), CellText(last, y, |row| - 1, colors);
      assert ColoredLine(row, y, colors) == front + cell;
      ColoredLineShowsRow(init, y, colors);
      CellShowsChar(last, y, |row| - 1, colors);
      StripConcat(front, cell);
      assert init + [last] == row;
    }
  }

  lemma {:induction false} PlainRowVisible(row: seq<char>)
    requires forall x :: 0 <= x < |row| ==> row[x] != ESC
    ensures Closed(row) && StripAnsi(row) == row
  {
    if |row| > 0 {
      PlainRowVisible(row[1..]);
      VisibleChar(row[0]);
      StripConcat([row[0]], row[1..]);
      assert [row[0]] + row[1..] == row;
    }
  }

  /** Text without escape characters is closed and shows itself. */
  lemma PlainTextVisible(grid: seq<seq<char>>)
    requires NoEscape(grid)
    ensures Closed(PlainText(grid)) && StripAnsi(PlainText(grid)) == PlainText(grid)
  {
    forall y | 0 <= y < |grid|
      ensures Closed(grid[y]) && StripAnsi(grid[y]) == grid[y]
    {
      PlainRowVisible(grid[y]);
    }
    StripJoin(grid, grid);
  }

  /** The coloured lines joined by newlines are closed and show the plain text. */
  lemma ColoredLinesVisible(grid: seq<seq<char>>, colors: array2<Rgb>)
    requires NoEscape(grid)
    ensures Closed(Join("\n", ColoredLines(grid, colors)))
    ensures StripAnsi(Join("\n", ColoredLines(grid, colors))) == PlainText(grid)
  {
    var lines := ColoredLines(grid, colors);
    forall y | 0 <= y < |grid|
      ensures Closed(lines[y]) && StripAnsi(lines[y]) == grid[y]
    {
      ColoredLineShowsRow(grid[y], y, colors);
    }
    StripJoin(lines, grid);
  }

  /** When the colour array has no rows every cell is out of bounds and every line is bare. */
  lemma BareLines(grid: seq<seq<char>>, colors: array2<Rgb>)
    requires colors.Length0 == 0
    ensures ColoredLines(grid, colors) == grid
  {
    var lines := ColoredLines(grid, colors);
    forall y | 0 <= y < |grid|
      ensures lines[y] == grid[y]
    {
      BareLine(grid[y], y, colors);
    }
  }

  lemma {:induction false} BareLine(row: seq<char>, y: nat, colors: array2<Rgb>)
    requires colors.Length0 <= y
    ensures ColoredLine(row, y, colors) == row
  {
    if |row| > 0 {
      BareLine(row[..|row| - 1], y, colors);
      assert row[..|row| - 1] + [row[|row| - 1]] == row;
    }
  }

  /**
   * The colour configuration; its fields are only set by NewColorHandler.
   * Directions are the source's strings: anything other than the three known
   * ones leaves generated grids black.
   */
  datatype ColorHandler = ColorHandler(
    mode: ColorMode,
    bgColor: Rgb,
    textColor: Rgb,
    gradientColors: seq<Rgb>,
    gradientDirection: string)
  {
    predicate Valid()
    {
      |gradientColors| >= 1
    }

    /** The colour generate_rainbow_gradient writes at (y, x). */
    function RainbowAt(width: nat, height: nat, y: nat, x: nat): (c: Rgb)
      requires y < height && x < width
      ensures gradientDirection in {HORIZONTAL, VERTICAL, DIAGONAL} ==> FullySaturated(c)
      ensures gradientDirection !in {HORIZONTAL, VERTICAL, DIAGONAL} ==> c == BLACK
    {
      if gradientDirection == HORIZONTAL then RainbowColor(x as real / width as real)
      else if gradientDirection == VERTICAL then RainbowColor(y as real / height as real)
      else if gradientDirection == DIAGONAL then RainbowColor((x + y) as real / (width + height) as real)
      else BLACK
    }

    /** The colour generate_custom_gradient writes at (y, x). */
    function GradientAt(width: nat, height: nat, y: nat, x: nat): (c: Rgb)
      requires Valid()
      ensures |gradientColors| == 1 ==> c == gradientColors[0]
      ensures |gradientColors| >= 2 && gradientDirection in {HORIZONTAL, VERTICAL, DIAGONAL} ==>
        exists k :: 0 <= k < |gradientColors| - 1 && Between(c, gradientColors[k], gradientColors[k + 1])
      ensures |gradientColors| >= 2 && gradientDirection !in {HORIZONTAL, VERTICAL, DIAGONAL} ==> c == BLACK
    {
      var stops := gradientColors;
      if |stops| < 2 then stops[0]
      else if gradientDirection == HORIZONTAL then InterpolateColors(stops, AxisPosition(x, width))
      else if gradientDirection == VERTICAL then InterpolateColors(stops, AxisPosition(y, height))
      else if gradientDirection == DIAGONAL then InterpolateColors(stops, DiagonalPosition(x, y, width, height))
      else BLACK
    }

    /** generate_rainbow_gradient: a height x width grid, hue swept along the direction. */
    method GenerateRainbowGradient(width: nat, height: nat) returns (colors: array2<Rgb>)
      ensures colors.Length0 == height && colors.Length1 == width
      ensures forall y, x :: 0 <= y < height && 0 <= x < width ==> colors[y, x] == RainbowAt(width, height, y, x)
    {
      colors := new Rgb[height, width]((_, _) => BLACK);
      if gradientDirection == HORIZONTAL {
        for x := 0 to width
          invariant forall y', x' :: 0 <= y' < height && 0 <= x' < width ==>
            colors[y', x'] == if x' < x then RainbowAt(width, height, y', x') else BLACK
        {
          var c := RainbowColor(x as real / width as real);
          AssignColumn(colors, x, c);
        }
      } else if gradientDirection == VERTICAL {
        for y := 0 to height
          invariant forall y', x' :: 0 <= y' < height && 0 <= x' < width ==>
            colors[y', x'] == if y' < y then RainbowAt(width, height, y', x') else BLACK
        {
          var c := RainbowColor(y as real / height as real);
          AssignRow(colors, y, c);
        }
      } else if gradientDirection == DIAGONAL {
        for y := 0 to height
          invariant forall y', x' :: 0 <= y' < height && 0 <= x' < width ==>
            colors[y', x'] == if y' < y then RainbowAt(width, height, y', x') else BLACK
        {
          for x := 0 to width
            invariant forall y', x' :: 0 <= y' < height && 0 <= x' < width ==>
              colors[y', x'] == if y' < y || (y' == y && x' < x) then RainbowAt(width, height, y', x') else BLACK
          {
            colors[y, x] := RainbowColor((x + y) as real / (width + height) as real);
          }
        }
      }
    }

    /** generate_custom_gradient: a height x width grid interpolated between the stops. */
    method GenerateCustomGradient(width: nat, height: nat) returns (colors: array2<Rgb>)
      requires Valid()
      ensures colors.Length0 == height && colors.Length1 == width
      ensures forall y, x :: 0 <= y < height && 0 <= x < width ==> colors[y, x] == GradientAt(width, height, y, x)
    {
      colors := new Rgb[height, width]((_, _) => BLACK);
      var numColors := |gradientColors|;
      if numColors < 2 {
        AssignAll(colors, gradientColors[0]);
        return;
      }
      if gradientDirection == HORIZONTAL {
        for x := 0 to width
          invariant forall y', x' :: 0 <= y' < height && 0 <= x' < width ==>
            colors[y', x'] == if x' < x then GradientAt(width, height, y', x') else BLACK
        {
          var c := InterpolateColors(gradientColors, AxisPosition(x, width));
          AssignColumn(colors, x, c);
        }
      } else if gradientDirection == VERTICAL {
        for y := 0 to height
          invariant forall y', x' :: 0 <= y' < height && 0 <= x' < width ==>
            colors[y', x'] == if y' < y then GradientAt(width, height, y', x') else BLACK
        {
          var c := InterpolateColors(gradientColors, AxisPosition(y, height));
          AssignRow(colors, y, c);
        }
      } else if gradientDirection == DIAGONAL {
        for y := 0 to height
          invariant forall y', x' :: 0 <= y' < height && 0 <= x' < width ==>
            colors[y', x'] == if y' < y then GradientAt(width, height, y', x') else BLACK
        {
          for x := 0 to width
            invariant forall y', x' :: 0 <= y' < height && 0 <= x' < width ==>
              colors[y', x'] == if y' < y || (y' == y && x' < x) then GradientAt(width, height, y', x') else BLACK
          {
            colors[y, x] := InterpolateColors(gradientColors, DiagonalPosition(x, y, width, height));
          }
        }
      }
    }

    /** generate_solid_colors: every cell of the height x width grid is the text colour. */
    method GenerateSolidColors(width: nat, height: nat) returns (colors: array2<Rgb>)
      ensures colors.Length0 == height && colors.Length1 == width
      ensures forall y, x :: 0 <= y < height && 0 <= x < width ==> colors[y, x] == textColor
    {
      colors := new Rgb[height, width]((_, _) => BLACK);
      AssignAll(colors, textColor);
    }

    /** apply_colors: the character grid as text, one colour escape per in-bounds cell. */
    method ApplyColors(charGrid: seq<seq<char>>, colorArray: array2<Rgb>) returns (s: string)
      ensures s == ColoredText(mode, charGrid, colorArray)
      ensures mode == BlackWhite ==> s == PlainText(charGrid)
      ensures NoEscape(charGrid) ==> StripAnsi(s) == PlainText(charGrid)
    {
      if mode == BlackWhite {
        s := PlainText(charGrid);
      } else {
        var lines := ColorLines(charGrid, colorArray);
        s := Join("\n", lines);
      }
    }

    /** The outer loop of apply_colors: one coloured line per row. */
    method ColorLines(charGrid: seq<seq<char>>, colorArray: array2<Rgb>) returns (lines: seq<string>)
      ensures lines == ColoredLines(charGrid, colorArray)
    {
      lines := [];
      for y := 0 to |charGrid|
        invariant |lines| == y
        invariant forall i :: 0 <= i < y ==> lines[i] == ColoredLine(charGrid[i], i, colorArray)
      {
        var line := ColorLine(charGrid[y], y, colorArray);
        lines := lines + [line];
      }
      assert lines == ColoredLines(charGrid, colorArray);
    }

    /** Horizontal fills make every row identical, vertical fills every column; other directions stay black. */
    lemma RainbowDirections(width: nat, height: nat, y1: nat, y2: nat, x1: nat, x2: nat)
      requires y1 < height && y2 < height && x1 < width && x2 < width
      ensures gradientDirection == HORIZONTAL ==> RainbowAt(width, height, y1, x1) == RainbowAt(width, height, y2, x1)
      ensures gradientDirection == VERTICAL ==> RainbowAt(width, height, y1, x1) == RainbowAt(width, height, y1, x2)
      ensures gradientDirection !in {HORIZONTAL, VERTICAL, DIAGONAL} ==> RainbowAt(width, height, y1, x1) == BLACK
    {
    }

    /** The rainbow starts with red at the origin; on a 10 x 10 diagonal the centre cell is cyan. */
    lemma RainbowDiagonalSweep()
      requires gradientDirection == DIAGONAL
      ensures RainbowAt(10, 10, 0, 0) == RED
      ensures RainbowAt(10, 10, 5, 5) == Rgb(0, 255, 255)
    {
      HsvRed();
      assert (5 + 5) as real / (10 + 10) as real == 0.5;
      assert HsvToRgb(0.5, 1.0, 1.0) == (0, 255, 255) by {
        assert TruncToInt(0.5 * 6.0) == 3;
      }
    }

    lemma GradientDirections(width: nat, height: nat, y1: nat, y2: nat, x1: nat, x2: nat)
      requires Valid()
      ensures |gradientColors| == 1 ==> GradientAt(width, height, y1, x1) == gradientColors[0]
      ensures gradientDirection == HORIZONTAL ==> GradientAt(width, height, y1, x1) == GradientAt(width, height, y2, x1)
      ensures gradientDirection == VERTICAL ==> GradientAt(width, height, y1, x1) == GradientAt(width, height, y1, x2)
      ensures |gradientColors| >= 2 && gradientDirection !in {HORIZONTAL, VERTICAL, DIAGONAL} ==>
        GradientAt(width, height, y1, x1) == BLACK
    {
    }

    /**
     * The gradient runs from the first stop to the last: along the direction
     * the first line of cells is stop 0 and the last line is the last stop.
     */
    lemma GradientEnds(width: nat, height: nat, y: nat, x: nat)
      requires Valid() && |gradientColors| >= 2
      requires y < height && x < width
      ensures gradientDirection == HORIZONTAL ==>
        GradientAt(width, height, y, 0) == gradientColors[0]
        && (width > 1 ==> GradientAt(width, height, y, width - 1) == gradientColors[|gradientColors| - 1])
      ensures gradientDirection == VERTICAL ==>
        GradientAt(width, height, 0, x) == gradientColors[0]
        && (height > 1 ==> GradientAt(width, height, height - 1, x) == gradientColors[|gradientColors| - 1])
      ensures gradientDirection == DIAGONAL ==>
        GradientAt(width, height, 0, 0) == gradientColors[0]
        && (width + height > 2 ==> GradientAt(width, height, height - 1, width - 1) == gradientColors[|gradientColors| - 1])
    {
      if gradientDirection == HORIZONTAL {
        AxisGradientEnds(gradientColors, width);
      } else if gradientDirection == VERTICAL {
        AxisGradientEnds(gradientColors, height);
      } else if gradientDirection == DIAGONAL {
        DiagonalGradientEnds(gradientColors, width, height);
      }
    }
  }

  /** ColorHandler(...): None (or an empty stop list) falls back to the documented defaults. */
  function NewColorHandler(
    mode: ColorMode := BlackWhite,
    bgColor: Option<Rgb> := None,
    textColor: Option<Rgb> := None,
    gradientColors: Option<seq<Rgb>> := None,
    gradientDirection: string := HORIZONTAL): (h: ColorHandler)
    ensures h.Valid()
    ensures h.mode == mode && h.gradientDirection == gradientDirection
    ensures h.bgColor == (if bgColor.Some? then bgColor.value else BLACK)
    ensures h.textColor == (if textColor.Some? then textColor.value else WHITE)
    ensures h.gradientColors ==
      (if gradientColors.Some? && gradientColors.value != [] then gradientColors.value else [RED, BLUE])
  {
    ColorHandler(
      mode,
      if bgColor.Some? then bgColor.value else BLACK,
      if textColor.Some? then textColor.value else WHITE,
      if gradientColors.Some? && gradientColors.value != [] then gradientColors.value else [RED, BLUE],
      gradientDirection)
  }

  /** colors[:, x] = c */
  method AssignColumn(colors: array2<Rgb>, x: nat, c: Rgb)
    requires x < colors.Length1
    modifies colors
    ensures forall y', x' :: 0 <= y' < colors.Length0 && 0 <= x' < colors.Length1 ==>
      colors[y', x'] == if x' == x then c else old(colors[y', x'])
  {
    for y := 0 to colors.Length0
      invariant forall y', x' :: 0 <= y' < colors.Length0 && 0 <= x' < colors.Length1 ==>
        colors[y', x'] == if x' == x && y' < y then c else old(colors[y', x'])
    {
      colors[y, x] := c;
    }
  }

  /** colors[y, :] = c */
  method AssignRow(colors: array2<Rgb>, y: nat, c: Rgb)
    requires y < colors.Length0
    modifies colors
    ensures forall y', x' :: 0 <= y' < colors.Length0 && 0 <= x' < colors.Length1 ==>
      colors[y', x'] == if y' == y then c else old(colors[y', x'])
  {
    for x := 0 to colors.Length1
      invariant forall y', x' :: 0 <= y' < colors.Length0 && 0 <= x' < colors.Length1 ==>
        colors[y', x'] == if y' == y && x' < x then c else old(colors[y', x'])
    {
      colors[y, x] := c;
    }
  }

  /** colors[:, :] = c */
  method AssignAll(colors: array2<Rgb>, c: Rgb)
    modifies colors
    ensures forall y', x' :: 0 <= y' < colors.Length0 && 0 <= x' < colors.Length1 ==> colors[y', x'] == c
  {
    for y := 0 to colors.Length0
      invariant forall y', x' :: 0 <= y' < colors.Length0 && 0 <= x' < colors.Length1 ==>
        colors[y', x'] == if y' < y then c else old(colors[y', x'])
    {
      AssignRow(colors, y, c);
    }
  }
}
