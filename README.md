# image-to-ascii core, modelled in Dafny

This project models the conversion core of the `ascii_bg` package. The core turns an image into a grid of characters and, optionally, a grid of colours, then renders the result as text, ANSI-coloured text, a framed grid or an export record. The model covers five Python files:

- `character_sets.py`, the brightness quantiser:
  - `CharacterSet` is a non-empty ramp of characters, ordered light to dark.
  - `get_char` clamps the brightness to [0, 1] and picks index `int(b * (length - 1))`.
  - `invert` reverses the ramp.
  - `from_preset` looks up one of four ramps, ignoring case.
- `color_handler.py`, the colour layer:
  - the 24-bit "direct colour" SGR escapes `ESC[38;2;R;G;Bm`, `ESC[48;2;R;G;Bm` and `ESC[0m`;
  - `parse_color` (`#RRGGBB` or ten named colours);
  - six-sector HSV conversion and piecewise-linear interpolation between gradient stops;
  - the three grid generators (rainbow, custom gradient, solid);
  - `apply_colors`, which serialises a character grid with one escape per coloured cell.
- `image_processor.py`:
  - brightness and contrast clamped to [-100, 100];
  - the aspect-corrected target height `int(h * 0.5)`;
  - the rule that an adjustment of 0 leaves the image untouched and any other adjustment enhances with factor `1 + adj / 100`;
  - `parse_resolution` (six presets, or `WxH`).
- `converter.py`:
  - `AsciiArt` and its text forms;
  - `AsciiConverter`: its constructor, its setters, the grayscale-to-character mapping, the colour-grid dispatch on the colour mode, and `convert` starting from the processed grayscale and RGB arrays.
- `renderer.py`:
  - `add_border` and `add_border_to_colors`;
  - the empty and mismatch checks shared by the JSON exporter and the image renderer;
  - the exporter's `{r, g, b, hex}` colour objects;
  - the renderer's placement of one glyph per cell.

How the model maps the Python code:

- Colour arrays (numpy `(h, w, 3)` of `uint8`) are `array2<Rgb>`, where each channel is a `Byte` (0..255).
- Character grids are `seq<seq<char>>` and grayscale arrays are `array2<real>`.
- Floats are `real`. Python's `int()` on a float is `Base.TruncToInt`, which truncates toward zero.
- Every `ValueError` the code raises is an `Err` of `Base.Result`, with one `Error` variant per kind of message. The two hex-colour messages (color_handler.py:77 and :85) differ only in their hint and share `InvalidHexColor`. The positive-size error inside `parse_resolution` (image_processor.py:229) is caught and re-raised as the format error, so it is `InvalidResolution` as well.
- `CharacterSet` and `ColorHandler` only set their fields in `__init__`, so they are datatypes.
- `ImageProcessor` and `AsciiConverter` are classes, because the setters update them in place.
- The generators, `apply_colors`, `_grayscale_to_chars`, `add_border`, `add_border_to_colors` and the exporter loops are methods with loops. Each is proved against a specification function, such as `RainbowAt`, `GradientAt`, `ColoredText`, `Bordered` or `CharacterSet.GetChar`.

A few helpers outside the table stand for Python built-ins:

- `Text.Lower` is ASCII `str.lower`.
- `Text.Split` is `str.split` with a one-character separator; empty fields are kept.
- `Text.Join` is `str.join`.
- `Text.IntToString` is `str(int)`.
- `Text.HexByte` is `f"{n:02x}"`.
- `ColorHandling.PyIntBase16` is `int(t, 16)` on the two-character fields that `parse_color` slices, restricted to ASCII: it skips the six ASCII whitespace characters and reads ASCII hexadecimal digits and one sign.

## Model

| member | source | states |
|---|---|---|
| CharacterSets.FromString | ascii_bg/core/character_sets.py:34-44 | the empty string is rejected with the "cannot be empty" error; any other string gives a valid set holding exactly that string |
| CharacterSets.Default | ascii_bg/core/character_sets.py:13-34 | the default set is valid and is the extended ramp |
| CharacterSets.CharacterSet.Len | ascii_bg/core/character_sets.py:96-98 | `len` is the number of characters in the ramp, at least 1 |
| CharacterSets.CharacterSet.ToString | ascii_bg/core/character_sets.py:100-102 | `str` is the ramp itself, so it has as many characters as `len` reports |
| CharacterSets.CharacterSet.Index | ascii_bg/core/character_sets.py:55-59 | for every brightness, including out-of-range ones, the clamped index lies in [0, length) |
| CharacterSets.CharacterSet.GetChar | ascii_bg/core/character_sets.py:55-60 | `get_char` returns a character of the set: the one at the clamped index |
| CharacterSets.CharacterSet.GetCharEndpoints | ascii_bg/core/character_sets.py:59-60 | brightness 0 gives the first character, brightness 1 the last |
| CharacterSets.CharacterSet.GetCharClamps | ascii_bg/core/character_sets.py:55-56 | brightness below 0 behaves as 0, above 1 as 1 |
| CharacterSets.CharacterSet.IndexMonotone | ascii_bg/core/character_sets.py:55-59 | a larger brightness never selects an earlier index |
| CharacterSets.CharacterSet.Invert | ascii_bg/core/character_sets.py:62-68 | the inverted set is valid, has the same length, and position i holds the original's character at length - 1 - i |
| CharacterSets.CharacterSet.InvertInvolution | ascii_bg/core/character_sets.py:62-68 | inverting twice gives the original set back |
| CharacterSets.CharacterSet.InvertSwapsEndpoints | ascii_bg/core/character_sets.py:62-68 | the inverted set's `get_char(1.0)` is the original's `get_char(0.0)`, and the other way round |
| CharacterSets.CharacterSet.InvertMirrorsAtBoundaries | ascii_bg/core/character_sets.py:55-68 | at every band boundary v = k / (length - 1), `get_char(v)` equals the inverted set's `get_char(1 - v)` |
| CharacterSets.CharacterSet.InvertMirrorsOutsideUnit | ascii_bg/core/character_sets.py:55-68 | for every v below 0 or above 1, `get_char(v)` equals the inverted set's `get_char(1 - v)`, since both clamp to the same end character |
| CharacterSets.InvertMirrorFailsBetweenBoundaries | ascii_bg/core/character_sets.py:55-68 | between boundaries the mirror equation can fail: for "abc", `get_char(0.25)` is 'a' but the inverted set's `get_char(0.75)` is 'b' |
| CharacterSets.FromPreset | ascii_bg/core/character_sets.py:83-94 | succeeds exactly for the four names, in any case; each returns its constant ramp with its length; any other name gives the "Invalid preset" error carrying the name |
| ColorHandling.RgbToAnsi | ascii_bg/core/color_handler.py:26-37 | the foreground escape starts with ESC '[' and ends with its only 'm', so a terminal reads it as one control sequence (`SgrRoundTrip` decodes it, `ColoredCellShowsChar` shows it is invisible) |
| ColorHandling.RgbToAnsiBg | ascii_bg/core/color_handler.py:40-51 | the background escape is likewise one control sequence ending at its only 'm' |
| ColorHandling.ResetColor | ascii_bg/core/color_handler.py:54-56 | the reset is likewise one control sequence ending at its only 'm' |
| ColorHandling.ForegroundEscapeLayout | ascii_bg/core/color_handler.py:26-56 | (255, 128, 0) becomes `ESC[38;2;255;128;0m`, and the reset is `ESC[0m` |
| ColorHandling.BackgroundEscapeLayout | ascii_bg/core/color_handler.py:40-51 | black becomes the background escape `ESC[48;2;0;0;0m` |
| ColorHandling.SgrRoundTrip | ascii_bg/core/color_handler.py:26-56 | for every colour, an SGR decoder reads the foreground escape back as that foreground colour, the background escape as that background colour, and the reset as a reset |
| ColorHandling.ColoredCellShowsChar | ascii_bg/core/color_handler.py:244-248 | a coloured cell (escape, character, reset) is closed, and a terminal shows exactly its character |
| ColorHandling.ParseColor | ascii_bg/core/color_handler.py:59-108 | a '#' string succeeds exactly when six hexadecimal digits follow, and otherwise gives the "Invalid hex color" error; any other string succeeds exactly when its lower-case form is one of the ten names, and otherwise gives the "Unknown color" error |
| ColorHandling.HexChannels | ascii_bg/core/color_handler.py:74-83 | for `#RRGGBB`, the channels are the hexadecimal values of the three digit pairs |
| ColorHandling.HexColorRoundTrip | ascii_bg/core/color_handler.py:74-83 | every colour written as `#rrggbb`, in lower or upper case, parses back to itself |
| ColorHandling.NamedColorsIgnoreCase | ascii_bg/core/color_handler.py:87-103 | a name and its upper-case form parse to the same table colour; gray and GREY both give (128, 128, 128) |
| ColorHandling.ParseColorAsWritten | ascii_bg/core/color_handler.py:59-108 | the code as written: a failure is the "Invalid hex color" error for a '#' string and the "Unknown color" error otherwise; a '#' string succeeds only at length 7; any other string succeeds exactly when its lower-case form is one of the ten names |
| ColorHandling.SignedHexChannelAccepted | ascii_bg/core/color_handler.py:79-85 | the code as written accepts "#-1-1-1" as (-1, -1, -1); the corrected parser rejects it |
| ColorHandling.StrictParseAgrees | ascii_bg/core/color_handler.py:59-108 | wherever the corrected parser succeeds, the code as written returns the same triple |
| ColorHandling.HsvToRgb | ascii_bg/core/color_handler.py:255-293 | for a hue of at least 0 and saturation and value in [0, 1], every channel is a byte in 0..255 |
| ColorHandling.HsvGrey | ascii_bg/core/color_handler.py:266-268 | saturation 0 gives the grey `int(v * 255)` in all three channels |
| ColorHandling.HsvFullSaturation | ascii_bg/core/color_handler.py:270-293 | at full saturation and value, for any hue of at least 0, every channel is a byte, one channel is 255 and one is 0 |
| ColorHandling.HsvRed | ascii_bg/core/color_handler.py:270-293 | hue 0 at full saturation and value is (255, 0, 0) |
| ColorHandling.RainbowColor | ascii_bg/core/color_handler.py:149-169 | the colour a rainbow cell receives for a hue of at least 0 is fully saturated: one channel is 255 and one is 0 |
| ColorHandling.Mix | ascii_bg/core/color_handler.py:317-323 | an interpolated channel lies between the two stop channels, and local position 0 gives the first stop's channel |
| ColorHandling.Segment | ascii_bg/core/color_handler.py:308-317 | the segment index is the integer part of pos * (n - 1), in [0, n - 1], and the local position is its fractional part |
| ColorHandling.InterpolateColors | ascii_bg/core/color_handler.py:295-325 | for at least two stops and any position, the result lies channel by channel between two adjacent stops |
| ColorHandling.InterpolateAtStop | ascii_bg/core/color_handler.py:305-325 | at the junction pos = k / (n - 1) the result is exactly stop k, which is the later segment's start colour |
| ColorHandling.InterpolateEnds | ascii_bg/core/color_handler.py:305-314 | pos at or below 0 gives the first stop; pos at or above 1 gives the last stop |
| ColorHandling.InterpolateWithinSegment | ascii_bg/core/color_handler.py:316-325 | inside segment k the colour lies, channel by channel, between stops k and k + 1 |
| ColorHandling.AxisEnds | ascii_bg/core/color_handler.py:193-199 | the first cell along an axis has position 0, and the last cell of an axis longer than 1 has position 1 |
| ColorHandling.AxisGradientEnds | ascii_bg/core/color_handler.py:191-201 | along an axis the first cell is the first stop, and the last cell of an axis longer than 1 is the last stop |
| ColorHandling.DiagonalGradientEnds | ascii_bg/core/color_handler.py:203-209 | on the diagonal the corner (0, 0) is the first stop, and the far corner is the last stop whenever width + height > 2 |
| ColorHandling.ColorLine | ascii_bg/core/color_handler.py:243-251 | the inner loop builds the line the specification `ColoredLine` describes: in-bounds cells escaped, others bare |
| ColorHandling.ColoredLineShowsRow | ascii_bg/core/color_handler.py:241-251 | a coloured line is closed and shows exactly its row, whatever the colour array's size |
| ColorHandling.ColoredText | ascii_bg/core/color_handler.py:227-253 | black-and-white mode, and a colour array with no rows, give the rows joined by newlines; for a grid without ESC characters the output in every mode is closed and, with the escapes removed, is the rows joined by newlines |
| ColorHandling.NewColorHandler | ascii_bg/core/color_handler.py:114-135 | a missing value falls back to its default: background (0, 0, 0), text (255, 255, 255), stops [red, blue]; the stop list is never empty |
| ColorHandling.ColorHandler.RainbowAt | ascii_bg/core/color_handler.py:149-171 | for one of the three directions every cell's colour is fully saturated; for any other direction it is black |
| ColorHandling.ColorHandler.GradientAt | ascii_bg/core/color_handler.py:173-211 | a single stop gives that stop; with two or more stops and a known direction the colour lies between two adjacent stops; an unknown direction gives black |
| ColorHandling.ColorHandler.GenerateRainbowGradient | ascii_bg/core/color_handler.py:137-171 | a height x width grid; cell (y, x) is the HSV colour of hue x / w, y / h or (x + y) / (w + h) according to the direction, and black for an unknown direction |
| ColorHandling.ColorHandler.GenerateCustomGradient | ascii_bg/core/color_handler.py:173-211 | a height x width grid; a single stop fills every cell, otherwise cell (y, x) is the interpolation at the cell's axis or diagonal position, and black for an unknown direction |
| ColorHandling.ColorHandler.GenerateSolidColors | ascii_bg/core/color_handler.py:213-225 | a height x width grid with the text colour in every cell |
| ColorHandling.ColorHandler.ApplyColors | ascii_bg/core/color_handler.py:227-253 | black-and-white mode gives the rows joined by newlines; otherwise the coloured lines joined by newlines; either way a terminal shows the plain text |
| ColorHandling.ColorHandler.ColorLines | ascii_bg/core/color_handler.py:241-252 | the outer loop yields one coloured line per row, in order |
| ColorHandling.ColorHandler.RainbowDirections | ascii_bg/core/color_handler.py:149-171 | in horizontal mode all rows are identical; in vertical mode all columns are identical; an unknown direction leaves every cell black |
| ColorHandling.ColorHandler.RainbowDiagonalSweep | ascii_bg/core/color_handler.py:163-169 | on a 10 x 10 diagonal rainbow, cell (0, 0) is red and cell (5, 5) is cyan |
| ColorHandling.ColorHandler.GradientDirections | ascii_bg/core/color_handler.py:186-211 | a single stop gives that stop everywhere; horizontal rows are identical; vertical columns are identical; an unknown direction gives black |
| ColorHandling.ColorHandler.GradientEnds | ascii_bg/core/color_handler.py:191-209 | along the direction, the first line of cells is the first stop and the last line is the last stop |
| ColorHandling.AssignColumn | ascii_bg/core/color_handler.py:154 | `colors[:, x] = c` sets column x and changes no other cell |
| ColorHandling.AssignRow | ascii_bg/core/color_handler.py:161 | `colors[y, :] = c` sets row y and changes no other cell |
| ColorHandling.AssignAll | ascii_bg/core/color_handler.py:188 | `colors[:, :] = c` sets every cell |
| ImageProcessing.Clamp100 | ascii_bg/core/image_processor.py:36-37 | the result lies in [-100, 100], is the value itself inside that range, and is the nearest bound outside it |
| ImageProcessing.Factor | ascii_bg/core/image_processor.py:108-109 | the factor exceeds 1 exactly for a positive adjustment, is 1 exactly at 0, and is below 1 exactly for a negative one (the contrast factor at lines 125-126 is the same) |
| ImageProcessing.FactorRange | ascii_bg/core/image_processor.py:108-109 | for a clamped adjustment the factor 1 + adj / 100 lies in [0, 2], and it is 1 exactly when the adjustment is 0 |
| ImageProcessing.ImageProcessor.constructor | ascii_bg/core/image_processor.py:23-38 | brightness and contrast are stored clamped; the aspect flag is stored as given |
| ImageProcessing.ImageProcessor.TargetSize | ascii_bg/core/image_processor.py:84-92 | the width is kept; with aspect correction the height is halved, truncated toward zero; without it the height is kept |
| ImageProcessing.ImageProcessor.ApplyBrightness | ascii_bg/core/image_processor.py:105-111 | brightness 0 returns the image itself; otherwise the result is the enhancement at factor 1 + b / 100 |
| ImageProcessing.ImageProcessor.ApplyContrast | ascii_bg/core/image_processor.py:122-128 | contrast 0 returns the image itself; otherwise the result is the enhancement at factor 1 + c / 100 |
| ImageProcessing.ImageProcessor.ZeroShortcutAgrees | ascii_bg/core/image_processor.py:105-128 | for an enhancement that is the identity at factor 1, the zero shortcut gives the same image as enhancing |
| ImageProcessing.ParseResolution | ascii_bg/core/image_processor.py:202-236 | presets are matched in any case; a non-preset without 'x' is rejected; otherwise the first two x-separated fields are read as numerals; a non-preset containing 'x' succeeds exactly when the first two fields are numerals of positive value, and every success is positive; every failure is the "Invalid resolution format" error carrying the input |
| ImageProcessing.ResolutionRoundTrip | ascii_bg/core/image_processor.py:223-231 | any positive width and height printed as "WxH" or "WXH" parse back to themselves |
| ImageProcessing.ExtraFieldsIgnored | ascii_bg/core/image_processor.py:224-226 | anything after a second 'x' is ignored |
| ImageProcessing.ZeroComponentRejected | ascii_bg/core/image_processor.py:228-236 | a zero width or zero height is rejected |
| ImageProcessing.PresetsIgnoreCase | ascii_bg/core/image_processor.py:203-214 | each preset name, and its upper-case form, gives its exact pair |
| Converter.AsciiArt.ToPlainText | ascii_bg/core/converter.py:45-51 | the rows joined by newlines with no trailing newline; an empty grid gives the empty string; splitting at the newlines gives the rows back when no row holds one |
| Converter.AsciiArt.ToString | ascii_bg/core/converter.py:64-66 | `str` is the plain text |
| Converter.AsciiArt.ToColoredText | ascii_bg/core/converter.py:53-62 | without a handler, the plain text; with one, what `apply_colors` yields in its mode; either way a terminal shows the plain text |
| Converter.ResolveResolution | ascii_bg/core/converter.py:101-105 | a tuple is kept as given; a string is parsed by `parse_resolution` |
| Converter.ResolveCharset | ascii_bg/core/converter.py:107-113 | None gives the extended set; a string gives the set holding that string; a set is kept; only the empty string fails |
| Converter.AsciiConverter.Create | ascii_bg/core/converter.py:80-127 | the resolution error comes first, then the empty-charset error; on success the converter and its processor are new objects, the resolution is resolved, the set is reversed exactly when `invert` is set, the adjustments are clamped, and the handler is kept |
| Converter.AsciiConverter.Init | ascii_bg/core/converter.py:119-127 | stores the configuration and builds a new processor with clamped adjustments |
| Converter.AsciiConverter.SetResolution | ascii_bg/core/converter.py:212-221 | a string that does not parse leaves the resolution unchanged and reports the error; otherwise the resolution is replaced; nothing else changes |
| Converter.AsciiConverter.SetCharset | ascii_bg/core/converter.py:223-232 | an empty string leaves the set unchanged and reports the error; otherwise the set is replaced; nothing else changes |
| Converter.AsciiConverter.SetBrightness | ascii_bg/core/converter.py:234-240 | the processor's brightness becomes the clamped value; contrast and the aspect flag are unchanged |
| Converter.AsciiConverter.SetContrast | ascii_bg/core/converter.py:242-248 | the processor's contrast becomes the clamped value; brightness and the aspect flag are unchanged |
| Converter.AsciiConverter.GrayscaleToChars | ascii_bg/core/converter.py:190-210 | height rows of width cells; cell (y, x) is `get_char` of grayscale[y, x], so it is a character of the set |
| Converter.AsciiConverter.GenerateColorGrid | ascii_bg/core/converter.py:158-188 | no handler, source mode or black-and-white mode return the source array itself; rainbow, gradient and solid return their generator's grid at the given size |
| Converter.AsciiConverter.Convert | ascii_bg/core/converter.py:129-156 | characters come from the grayscale array; colours come from the dispatch at the grayscale array's size; width is resolution[0]; height is the grayscale row count; the handler is passed on |
| Rendering.Bordered | ascii_bg/core/renderer.py:208-235 | the framed grid has h + 2(p + 1) rows, and its first and last rows are the border character repeated across the new width |
| Rendering.AddBorder | ascii_bg/core/renderer.py:184-237 | an empty grid or empty first row raises before a negative padding does; otherwise the result is the framed grid `Bordered`, built row by row |
| Rendering.BorderedRow | ascii_bg/core/renderer.py:214-235 | row i of the framed grid is a border row, a padding row or content row i - p - 1, according to where i lies |
| Rendering.BorderFrame | ascii_bg/core/renderer.py:208-235 | for a rectangular grid: h + 2(p + 1) rows of w + 2(p + 1) cells; the first and last rows are all border; every row begins and ends with the border |
| Rendering.BorderKeepsContent | ascii_bg/core/renderer.py:224-227 | cell (y, x) reappears at (y + p + 1, x + p + 1) |
| Rendering.BorderPadsWithSpaces | ascii_bg/core/renderer.py:219-232 | every cell inside the border that is not an original cell is a space |
| Rendering.ContentRowLayout | ascii_bg/core/renderer.py:226 | a framed row is border, p spaces, the row, p spaces, border |
| Rendering.AddBorderToColors | ascii_bg/core/renderer.py:240-280 | only a negative padding raises; the result is (h + 2(p + 1)) x (w + 2(p + 1)); the outer ring is the border colour; the original sits at offset p + 1; padding cells stay black |
| Rendering.FillRing | ascii_bg/core/renderer.py:270-274 | the four border slices take the colour; no other cell changes |
| Rendering.CopyBlock | ascii_bg/core/renderer.py:276-278 | the block at the offset becomes the source grid; no other cell changes |
| Rendering.ValidateGrids | ascii_bg/core/renderer.py:147-154 | the empty error exactly for an empty grid or empty first row; the mismatch error exactly when the colour grid's height or width differs; no error exactly otherwise |
| Rendering.ColorObjectOf | ascii_bg/core/renderer.py:161-162 | the object carries the three channels and a seven-character hex string starting with '#' |
| Rendering.ColorObjectRoundTrip | ascii_bg/core/renderer.py:162 | `parse_color` of the exported hex string gives back the colour |
| Rendering.Export | ascii_bg/core/renderer.py:147-176 | validation errors come before any output; otherwise the dimensions, the grid, and height x width colour objects, one per cell of the colour grid |
| Rendering.CellFill | ascii_bg/core/renderer.py:108-112 | the fill is the cell's colour inside the colour grid and white outside it |
| Rendering.Render | ascii_bg/core/renderer.py:84-119 | validation errors come first; otherwise a canvas of width * char_width by height * char_height in the background colour, with each character placed at (x * char_width, y * char_height) in its cell's fill |
| Rendering.RenderUsesGridColors | ascii_bg/core/renderer.py:84-112 | for a rectangular grid that passed validation, every cell takes its colour from the grid, never the white fallback |

## Left out

- Image decoding and processing: loading, RGB conversion, Lanczos resizing, the `ImageEnhance` enhancers, `to_grayscale`, `to_rgb_array` and `process` (image_processor.py:40-65, 88-94, 110-111, 127-128, 130-184). These belong to the imaging library. The enhancement is a function parameter of `ApplyBrightness` and `ApplyContrast`. `Convert` starts from the grayscale and RGB arrays that `process` returns.
- Fonts and file I/O:
  - `ImageRenderer` font loading and glyph measurement; the character cell size is a parameter of `Render`.
  - Drawing itself and `image.save`.
  - The exporter's file write and its `datetime.now()` metadata; the clock is not modelled.
  - `ascii_bg/cli.py` is not part of this model.
- Floating point: `real` replaces IEEE-754 doubles in `_hsv_to_rgb`, `_interpolate_colors`, `get_char` and the hue and position divisions, so rounding at band edges is not captured. The numpy `float32` grayscale and `uint8` storage are likewise idealised.
- Case and whitespace: `str.lower` and `str.upper` are modelled for ASCII letters only.
- `ParseResolution`: reads plain ASCII decimal digit strings. It does not model `int()`'s acceptance of surrounding whitespace (ASCII or Unicode), a leading sign, underscores, or non-ASCII decimal digits. So " 1920x1080", "+1920x1080" and "１９２０x１０８０" (full-width digits) are rejected here, while the Python code accepts them.
- `PyIntBase16` and `ParseColorAsWritten`: `int(t, 16)` also strips Unicode whitespace (such as U+00A0, U+0085 and U+3000) and reads any Unicode decimal digit, so the code as written turns "#٣٣٣٣٣٣" (Arabic-Indic digits) into (51, 51, 51). The as-written model only knows ASCII whitespace and digits and returns the error there. The strict `ParseColor` rejects that input as well.
- `AsciiConverter.set_charset(None)` is excluded by `SetCharset`'s precondition. The annotation does not allow it, and the code would store `None`.
- A `CharacterSet` passed to the converter is stored by value, so object identity is not modelled.
- `add_border` with a `border_char` longer than one character is not modelled: `Rendering.AddBorder` takes one `char`.
- `__repr__` strings and the re-exports in `ascii_bg/core/__init__.py` are not modelled.
- The generators and `AddBorderToColors` do not state that the array they return is freshly allocated, although they allocate it. `AsciiConverter.Create` does state that the converter and its processor are new.
- `AsciiConverter` requires its colour handler to hold at least one gradient stop, as every handler `NewColorHandler` builds does; a handler with an empty stop list is not modelled.

Three behaviours of the code that a reader might not expect; the model follows the code:

- `get_char(v) == invert().get_char(1 - v)` is not guaranteed for every v in [0, 1]. It holds at the band boundaries (`InvertMirrorsAtBoundaries`) and outside [0, 1] (`InvertMirrorsOutsideUnit`). Between boundaries it fails whenever the two neighbouring characters differ (`InvertMirrorFailsBetweenBoundaries`). The invert test (tests/test_character_sets.py:66-76) checks the reversed string and the swap of the two endpoints.
- `add_border_to_colors` leaves the padding cells black rather than giving them the border colour: the array starts as zeros and only the outer ring and the copied block are written (renderer.py:268-278).
- `add_border_to_colors` does not reject an empty colour grid: its only check is the negative padding (renderer.py:258-259).

## Findings

| source | as written | input that shows it | evidently intended | confidence | as-written member | corrected member |
|---|---|---|---|---|---|---|
| ascii_bg/core/color_handler.py:79-83 | each channel is read with `int(field, 16)`, which also accepts a leading sign and surrounding whitespace | "#-1-1-1" returns (-1, -1, -1), which is not a colour | `#RRGGBB` is accepted only with six hexadecimal digits, and every channel lies in 0..255 | not executed | ColorHandling.SignedHexChannelAccepted | ColorHandling.ParseColor |
