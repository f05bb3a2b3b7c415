/**
 * Grid framing and the output checks of ascii_bg/core/renderer.py:
 * add_border and add_border_to_colors, the validation shared by the JSON
 * exporter and the image renderer, the exporter's colour objects and the
 * renderer's placement of glyphs. Fonts, drawing and file writes belong to
 * the imaging library and the file system.
 */
module Rendering {
  import opened Base
  import opened Text
  import opened ColorHandling

  /** [x] * n */
  function Repeat<T>(x: T, n: nat): (s: seq<T>)
    ensures |s| == n && forall i :: 0 <= i < n ==> s[i] == x
  {
    seq(n, _ => x)
  }

  // ---------------------------------------------------------------------------
  // add_border

  /** A content row framed by the border character and padding spaces. */
  function ContentRow(row: seq<char>, border: char, padding: nat): seq<char>
  {
    [border] + Repeat(' ', padding) + row + Repeat(' ', padding) + [border]
  }

  /** A padding row: border, new_width - 2 spaces, border. */
  function PaddingRow(border: char, newWidth: nat): seq<char>
    requires newWidth >= 2
  {
    [border] + Repeat(' ', newWidth - 2) + [border]
  }

  /**
   * The grid add_border returns: a border row, padding rows, every content
   * row framed, padding rows and a border row. The width of the border and
   * padding rows comes from the first row.
   */
  function Bordered(grid: seq<seq<char>>, border: char, padding: nat): (framed: seq<seq<char>>)
    requires |grid| >= 1
    ensures |framed| == |grid| + 2 * (padding + 1)
    ensures framed[0] == framed[|framed| - 1] == Repeat(border, |grid[0]| + 2 * (padding + 1))
  {
    var newWidth := |grid[0]| + 2 * (padding + 1);
    [Repeat(border, newWidth)]
    + Repeat(PaddingRow(border, newWidth), padding)
    + seq(|grid|, y requires 0 <= y < |grid| => ContentRow(grid[y], border, padding))
    + Repeat(PaddingRow(border, newWidth), padding)
    + [Repeat(border, newWidth)]
  }

  /**
   * add_border: an empty grid (or empty first row) raises first, then a
   * negative padding; otherwise the framed grid, built row by row.
   */
  method AddBorder(grid: seq<seq<char>>, border: char := '#', padding: int := 1) returns (r: Result<seq<seq<char>>>)
    ensures r.Err? <==> |grid| == 0 || |grid[0]| == 0 || padding < 0
    ensures r.Err? ==> r.error == if |grid| == 0 || |grid[0]| == 0 then EmptyGrid else NegativePadding
    ensures r.Ok? ==> r.value == Bordered(grid, border, padding)
  {
    if |grid| == 0 || |grid[0]| == 0 {
      return Err(EmptyGrid);
    }
    if padding < 0 {
      return Err(NegativePadding);
    }
    var width := |grid[0]|;
    var newWidth := width + 2 * (padding + 1);
    var pad := PaddingRow(border, newWidth);
    var newGrid := [Repeat(border, newWidth)];
    for i := 0 to padding
      invariant newGrid == [Repeat(border, newWidth)] + Repeat(pad, i)
    {
      newGrid := newGrid + [pad];
    }
    ghost var top := newGrid;
    for y := 0 to |grid|
      invariant newGrid == top + seq(y, k requires 0 <= k < y => ContentRow(grid[k], border, padding))
    {
      newGrid := newGrid + [ContentRow(grid[y], border, padding)];
    }
    ghost var middle := newGrid;
    for i := 0 to padding
      invariant newGrid == middle + Repeat(pad, i)
    {
      newGrid := newGrid + [pad];
    }
    newGrid := newGrid + [Repeat(border, newWidth)];
    return Ok(newGrid);
  }

  /** Every row has the same length. */
  predicate Rectangular(grid: seq<seq<char>>)
  {
    forall y :: 0 <= y < |grid| ==> |grid[y]| == |grid[0]|
  }

  /** The row of the framed grid at index i, by the part of the frame it lies in. */
  lemma BorderedRow(grid: seq<seq<char>>, border: char, padding: nat, i: nat)
    requires |grid| >= 1 && i < |grid| + 2 * (padding + 1)
    ensures var out := Bordered(grid, border, padding);
      var newWidth := |grid[0]| + 2 * (padding + 1);
      |out| == |grid| + 2 * (padding + 1)
      && (i == 0 || i == |out| - 1 ==> out[i] == Repeat(border, newWidth))
      && (1 <= i <= padding || |grid| + padding + 1 <= i < |out| - 1 ==> out[i] == PaddingRow(border, newWidth))
      && (padding + 1 <= i < padding + 1 + |grid| ==> out[i] == ContentRow(grid[i - padding - 1], border, padding))
  {
  }

  /**
   * For a rectangular grid of width w and padding p, the framed grid has
   * h + 2(p + 1) rows of w + 2(p + 1) cells; its first and last rows are all
   * border, and every row starts and ends with the border.
   */
  lemma {:induction false} BorderFrame(grid: seq<seq<char>>, border: char, padding: nat)
    requires |grid| >= 1 && Rectangular(grid)
    ensures var out := Bordered(grid, border, padding);
      var newWidth := |grid[0]| + 2 * (padding + 1);
      |out| == |grid| + 2 * (padding + 1)
      && (forall i :: 0 <= i < |out| ==> |out[i]| == newWidth && out[i][0] == border && out[i][newWidth - 1] == border)
      && (forall j :: 0 <= j < newWidth ==> out[0][j] == border && out[|out| - 1][j] == border)
  {
    var out := Bordered(grid, border, padding);
    var newWidth := |grid[0]| + 2 * (padding + 1);
    forall i | 0 <= i < |out|
      ensures |out[i]| == newWidth && out[i][0] == border && out[i][newWidth - 1] == border
    {
      BorderedRow(grid, border, padding, i);
      if padding + 1 <= i < padding + 1 + |grid| {
        ContentRowLayout(grid[i - padding - 1], border, padding);
      }
    }
    BorderedRow(grid, border, padding, 0);
    BorderedRow(grid, border, padding, |out| - 1);
  }

  /** Cell (y, x) of a rectangular grid moves to (y + p + 1, x + p + 1). */
  lemma {:induction false} BorderKeepsContent(grid: seq<seq<char>>, border: char, padding: nat)
    requires |grid| >= 1 && Rectangular(grid)
    ensures var out := Bordered(grid, border, padding);
      forall y, x :: 0 <= y < |grid| && 0 <= x < |grid[0]| ==>
        |out| == |grid| + 2 * (padding + 1) && x + padding + 1 < |out[y + padding + 1]|
        && out[y + padding + 1][x + padding + 1] == grid[y][x]
  {
    var out := Bordered(grid, border, padding);
    forall y, x | 0 <= y < |grid| && 0 <= x < |grid[0]|
      ensures |out| == |grid| + 2 * (padding + 1) && x + padding + 1 < |out[y + padding + 1]|
      ensures out[y + padding + 1][x + padding + 1] == grid[y][x]
    {
      BorderedRow(grid, border, padding, y + padding + 1);
      ContentRowLayout(grid[y], border, padding);
    }
  }

  /** Every cell strictly inside the border that is not an original cell is a space. */
  lemma {:induction false} BorderPadsWithSpaces(grid: seq<seq<char>>, border: char, padding: nat)
    requires |grid| >= 1 && Rectangular(grid)
    ensures var out := Bordered(grid, border, padding);
      var h, w, off := |grid|, |grid[0]|, padding + 1;
      forall i, j :: (1 <= i < h + 2 * off - 1 && 1 <= j < w + 2 * off - 1
                      && !(off <= i < off + h && off <= j < off + w)) ==>
        |out| == h + 2 * off && j < |out[i]| && out[i][j] == ' '
  {
    var out := Bordered(grid, border, padding);
    var h, w, off := |grid|, |grid[0]|, padding + 1;
    forall i, j | 1 <= i < h + 2 * off - 1 && 1 <= j < w + 2 * off - 1 && !(off <= i < off + h && off <= j < off + w)
      ensures |out| == h + 2 * off && j < |out[i]| && out[i][j] == ' '
    {
      BorderedRow(grid, border, padding, i);
      if off <= i < off + h {
        ContentRowLayout(grid[i - off], border, padding);
      }
    }
  }

  lemma ContentRowLayout(row: seq<char>, border: char, padding: nat)
    ensures var c := ContentRow(row, border, padding);
      var off := padding + 1;
      |c| == |row| + 2 * off && c[0] == border && c[|c| - 1] == border
      && (forall x :: 0 <= x < |row| ==> c[x + off] == row[x])
      && (forall j :: 1 <= j < |c| - 1 && !(off <= j < off + |row|) ==> c[j] == ' ')
  {
  }

  // ---------------------------------------------------------------------------
  // add_border_to_colors

  /** Cell (i, j) lies on the outer ring of an h x w grid. */
  predicate OnRing(i: int, j: int, h: int, w: int)
  {
    i == 0 || i == h - 1 || j == 0 || j == w - 1
  }

  /**
   * add_border_to_colors: only a negative padding raises. The result is
   * (h + 2(p + 1)) x (w + 2(p + 1)); its outer ring is the border colour,
   * the original sits at offset p + 1, and every padding cell stays black.
   */
  method AddBorderToColors(colors: array2<Rgb>, borderColor: Rgb := WHITE, padding: int := 1)
    returns (r: Result<array2<Rgb>>)
    ensures r.Err? <==> padding < 0
    ensures r.Err? ==> r.error == NegativePadding
    ensures r.Ok? ==>
      var out, h, w, off := r.value, colors.Length0, colors.Length1, padding + 1;
      out.Length0 == h + 2 * off && out.Length1 == w + 2 * off
      && (forall i, j :: 0 <= i < out.Length0 && 0 <= j < out.Length1 && OnRing(i, j, out.Length0, out.Length1) ==>
            out[i, j] == borderColor)
      && (forall y, x :: 0 <= y < h && 0 <= x < w ==> out[y + off, x + off] == colors[y, x])
      && (forall i, j :: (0 <= i < out.Length0 && 0 <= j < out.Length1 && !OnRing(i, j, out.Length0, out.Length1)
                          && !(off <= i < off + h && off <= j < off + w)) ==> out[i, j] == BLACK)
  {
    if padding < 0 {
      return Err(NegativePadding);
    }
    var height, width := colors.Length0, colors.Length1;
    var off := padding + 1;
    var newHeight, newWidth := height + 2 * off, width + 2 * off;
    var out := new Rgb[newHeight, newWidth]((_, _) => BLACK);
    FillRing(out, borderColor);
    CopyBlock(colors, out, off);
    return Ok(out);
  }

  /** new_colors[0, :], new_colors[-1, :], new_colors[:, 0] and new_colors[:, -1] = c */
  method FillRing(out: array2<Rgb>, c: Rgb)
    requires out.Length0 >= 1 && out.Length1 >= 1
    modifies out
    ensures forall i, j :: 0 <= i < out.Length0 && 0 <= j < out.Length1 ==>
      out[i, j] == if OnRing(i, j, out.Length0, out.Length1) then c else old(out[i, j])
  {
    AssignRow(out, 0, c);
    AssignRow(out, out.Length0 - 1, c);
    AssignColumn(out, 0, c);
    AssignColumn(out, out.Length1 - 1, c);
  }

  /** new_colors[off : off + h, off : off + w] = color_grid */
  method CopyBlock(src: array2<Rgb>, dst: array2<Rgb>, off: nat)
    requires src != dst
    requires off + src.Length0 <= dst.Length0 && off + src.Length1 <= dst.Length1
    modifies dst
    ensures forall i, j :: 0 <= i < dst.Length0 && 0 <= j < dst.Length1 ==>
      dst[i, j] == if off <= i < off + src.Length0 && off <= j < off + src.Length1
                   then src[i - off, j - off] else old(dst[i, j])
  {
    for y := 0 to src.Length0
      invariant forall i, j :: 0 <= i < dst.Length0 && 0 <= j < dst.Length1 ==>
        dst[i, j] == if off <= i < off + y && off <= j < off + src.Length1
                     then src[i - off, j - off] else old(dst[i, j])
    {
      for x := 0 to src.Length1
        invariant forall i, j :: 0 <= i < dst.Length0 && 0 <= j < dst.Length1 ==>
          dst[i, j] == if (off <= i < off + y && off <= j < off + src.Length1) || (i == off + y && off <= j < off + x)
                       then src[i - off, j - off] else old(dst[i, j])
      {
        dst[off + y, off + x] := src[y, x];
      }
    }
  }

  // ---------------------------------------------------------------------------
  // JSONExporter.export and ImageRenderer.render

  /**
   * The checks export and render make before any output: an empty grid or
   * empty first row, then a colour grid whose height or width differs from
   * the character grid's (the width taken from the first row).
   */
  function ValidateGrids(charGrid: seq<seq<char>>, colors: array2<Rgb>): (r: Option<Error>)
    reads colors
    ensures r == Some(EmptyGrid) <==> |charGrid| == 0 || |charGrid[0]| == 0
    ensures r == Some(GridMismatch) <==>
      |charGrid| > 0 && |charGrid[0]| > 0 && (colors.Length0 != |charGrid| || colors.Length1 != |charGrid[0]|)
    ensures r.None? <==>
      |charGrid| > 0 && |charGrid[0]| > 0 && colors.Length0 == |charGrid| && colors.Length1 == |charGrid[0]|
  {
    if |charGrid| == 0 || |charGrid[0]| == 0 then Some(EmptyGrid)
    else if colors.Length0 != |charGrid| || colors.Length1 != |charGrid[0]| then Some(GridMismatch)
    else None
  }

  /** One entry of the exported colours: {"r", "g", "b", "hex"}. */
  datatype ColorObject = ColorObject(r: int, g: int, b: int, hex: string)

  /** The colour object for c: its channels and its "#rrggbb" string. */
  function ColorObjectOf(c: Rgb): (o: ColorObject)
    ensures o.r == c.r && o.g == c.g && o.b == c.b
    ensures |o.hex| == 7 && o.hex[0] == '#'
  {
    ColorObject(c.r, c.g, c.b, HexColor(c))
  }

  /** The exported hex string parses back to the colour the object was built from. */
  lemma ColorObjectRoundTrip(c: Rgb)
    ensures ParseColor(ColorObjectOf(c).hex) == Ok(c)
  {
    HexColorRoundTrip(c);
  }

  /** The parts of the exported document the modelled code computes. */
  datatype ExportData = ExportData(
    width: int,
    height: int,
    grid: seq<seq<char>>,
    colors: seq<seq<ColorObject>>)

  /**
   * JSONExporter.export without the file write and the metadata: the
   * validation, the dimensions and the height x width colour objects built
   * row by row from the colour grid.
   */
  method Export(charGrid: seq<seq<char>>, colors: array2<Rgb>) returns (r: Result<ExportData>)
    ensures r.Err? <==> ValidateGrids(charGrid, colors).Some?
    ensures r.Err? ==> r.error == ValidateGrids(charGrid, colors).value
    ensures r.Ok? ==>
      var d := r.value;
      d.width == |charGrid[0]| && d.height == |charGrid| && d.grid == charGrid
      && |d.colors| == d.height
      && (forall y :: 0 <= y < d.height ==> |d.colors[y]| == d.width)
      && (forall y, x :: 0 <= y < d.height && 0 <= x < d.width ==>
            d.colors[y][x] == ColorObjectOf(colors[y, x]))
  {
    var check := ValidateGrids(charGrid, colors);
    if check.Some? {
      return Err(check.value);
    }
    var height, width := |charGrid|, |charGrid[0]|;
    var rows: seq<seq<ColorObject>> := [];
    for y := 0 to height
      invariant |rows| == y
      invariant forall y' :: 0 <= y' < y ==> |rows[y']| == width
      invariant forall y', x :: 0 <= y' < y && 0 <= x < width ==> rows[y'][x] == ColorObjectOf(colors[y', x])
    {
      var row: seq<ColorObject> := [];
      for x := 0 to width
        invariant |row| == x
        invariant forall x' :: 0 <= x' < x ==> row[x'] == ColorObjectOf(colors[y, x'])
      {
        row := row + [ColorObjectOf(colors[y, x])];
      }
      rows := rows + [row];
    }
    return Ok(ExportData(width, height, charGrid, rows));
  }

  /** One draw.text call: position, character and fill colour. */
  datatype Glyph = Glyph(x: int, y: int, ch: char, fill: Rgb)

  /** The picture render draws, before it is saved. */
  datatype Canvas = Canvas(width: int, height: int, background: Rgb, glyphs: seq<seq<Glyph>>)

  /** The fill for cell (y, x): its colour when inside the colour grid, white otherwise. */
  function CellFill(colors: array2<Rgb>, y: nat, x: nat): (c: Rgb)
    reads colors
    ensures y < colors.Length0 && x < colors.Length1 ==> c == colors[y, x]
    ensures !(y < colors.Length0 && x < colors.Length1) ==> c == WHITE
  {
    if y < colors.Length0 && x < colors.Length1 then colors[y, x] else WHITE
  }

  /**
   * ImageRenderer.render up to the save: after the shared validation, a
   * canvas of width * char_width by height * char_height pixels in the
   * background colour, with each character drawn at (x * char_width,
   * y * char_height) in its cell's colour. The glyph metrics come from the
   * font and are parameters here.
   */
  method Render(charGrid: seq<seq<char>>, colors: array2<Rgb>, background: Rgb, charWidth: int, charHeight: int)
    returns (r: Result<Canvas>)
    ensures r.Err? <==> ValidateGrids(charGrid, colors).Some?
    ensures r.Err? ==> r.error == ValidateGrids(charGrid, colors).value
    ensures r.Ok? ==>
      var c := r.value;
      c.width == |charGrid[0]| * charWidth && c.height == |charGrid| * charHeight
      && c.background == background
      && |c.glyphs| == |charGrid|
      && (forall y :: 0 <= y < |charGrid| ==> |c.glyphs[y]| == |charGrid[y]|)
      && (forall y, x :: 0 <= y < |charGrid| && 0 <= x < |charGrid[y]| ==>
            c.glyphs[y][x] == Glyph(x * charWidth, y * charHeight, charGrid[y][x], CellFill(colors, y, x)))
  {
    var check := ValidateGrids(charGrid, colors);
    if check.Some? {
      return Err(check.value);
    }
    var height, width := |charGrid|, |charGrid[0]|;
    var glyphs: seq<seq<Glyph>> := [];
    for y := 0 to height
      invariant |glyphs| == y
      invariant forall y' :: 0 <= y' < y ==> |glyphs[y']| == |charGrid[y']|
      invariant forall y', x :: 0 <= y' < y && 0 <= x < |charGrid[y']| ==>
        glyphs[y'][x] == Glyph(x * charWidth, y' * charHeight, charGrid[y'][x], CellFill(colors, y', x))
    {
      var row := charGrid[y];
      var line: seq<Glyph> := [];
      for x := 0 to |row|
        invariant |line| == x
        invariant forall x' :: 0 <= x' < x ==> line[x'] == Glyph(x' * charWidth, y * charHeight, row[x'], CellFill(colors, y, x'))
      {
        var fill := if y < colors.Length0 && x < colors.Length1 then colors[y, x] else WHITE;
        line := line + [Glyph(x * charWidth, y * charHeight, row[x], fill)];
      }
      glyphs := glyphs + [line];
    }
    return Ok(Canvas(width * charWidth, height * charHeight, background, glyphs));
  }

  /**
   * For a rectangular character grid that passed validation every cell is
   * inside the colour grid, so the white fallback is never used.
   */
  lemma RenderUsesGridColors(charGrid: seq<seq<char>>, colors: array2<Rgb>, y: nat, x: nat)
    requires ValidateGrids(charGrid, colors).None? && Rectangular(charGrid)
    requires y < |charGrid| && x < |charGrid[y]|
    ensures CellFill(colors, y, x) == colors[y, x]
  {
  }
}
