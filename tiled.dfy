/**
 * The `Tiled` extension of psbs/extensions/tiled.py, without its image and
 * XML handling: reading an object's colours and sprite back into a grid of
 * colours, resolving palette colour names, numbering the tiles of the
 * generated tileset, and turning a Tiled CSV level into rows of glyphs.
 */
module Tiled {
  import opened Wrappers
  import opened Text
  import opened Dict
  import Palettes
  import Sections
  import Glyphs
  import Parser
  import ImagesExtension

  /** `seq[i]` with Python's negative indexes; `None` where Python raises `IndexError`. */
  function PyIndex(xs: seq<string>, i: int): (r: Option<string>)
    ensures r.Some? <==> -|xs| <= i < |xs|
  {
    if 0 <= i < |xs| then Some(xs[i])
    else if -|xs| <= i < 0 then Some(xs[|xs| + i])
    else None
  }

  /** The palette a `color_palette` value names: a number counts from 1 in `palette_name_list`. */
  function PaletteName(name: string): string {
    if IsDigits(name) then PyIndex(Palettes.PaletteNameList, DigitsValue(name) - 1).GetOr(name) else name
  }

  /**
   * Numbers 1 to 14 select a palette of the list, `0` reaches back to the
   * last one, larger numbers and names stay as they are.
   */
  lemma PaletteNumbers(n: nat, name: string)
    ensures 1 <= n <= 14 ==> PaletteName(NatToString(n)) == Palettes.PaletteNameList[n - 1]
    ensures PaletteName("0") == "whitingjp"
    ensures n > 14 ==> PaletteName(NatToString(n)) == NatToString(n)
    ensures !IsDigits(name) ==> PaletteName(name) == name
  {
    DigitsValueOfNatToString(n);
    assert DigitsValue("0") == 0 by {
      assert "0"[..0] == "";
    }
  }

  /** `color_palettes.get(palette_name, color_palettes["arnecolors"])`. */
  function NamedPalette(name: string): map<string, string> {
    var resolved := PaletteName(name);
    if resolved in Palettes.ColorPalettes() then Palettes.ColorPalettes()[resolved] else Palettes.Arnecolors()
  }

  /** A name that is neither a number nor a palette selects `arnecolors`. */
  lemma UnknownPaletteFallsBack(name: string)
    requires !IsDigits(name) && name !in Palettes.ColorPalettes()
    ensures NamedPalette(name) == Palettes.Arnecolors()
  {
    assert PaletteName(name) == name;
  }

  /** `palette["transparent"] = "#00000000"`: every other name keeps its code. */
  function WithTransparent(palette: map<string, string>): (r: map<string, string>)
    ensures r.Keys == palette.Keys + {"transparent"}
    ensures r["transparent"] == "#00000000"
    ensures forall c :: c in palette && c != "transparent" ==> r[c] == palette[c]
  {
    palette["transparent" := "#00000000"]
  }

  /**
   * The palette a `color_palette` option selects; a bare option (`True`)
   * selects none. A selected palette maps `transparent` to `#00000000`.
   */
  function PaletteFor(option: Sections.OptionValue): (r: Option<map<string, string>>)
    ensures r.None? <==> option.Flag?
    ensures r.Some? ==> "transparent" in r.value && r.value["transparent"] == "#00000000"
  {
    match option
    case Flag => None
    case Value(name) => Some(WithTransparent(NamedPalette(name)))
  }

  /** `__color_to_rgba` up to the final `ImageColor.getcolor`: the colour text it resolves to. */
  function ResolveColor(color: string, palette: map<string, string>): (r: string)
    requires color != []
    ensures r == color || (color in palette && r == palette[color])
    ensures color[0] == '#' || color !in palette ==> r == color
  {
    if color[0] != '#' && color in palette then palette[color] else color
  }

  /**
   * `transparent` is always `#00000000`; codes starting with `#` and names
   * the palette lacks pass through; other names take the palette's code.
   */
  lemma ColorResolution(color: string, palette: map<string, string>)
    requires color != []
    ensures color == "transparent" ==> ResolveColor(color, WithTransparent(palette)) == "#00000000"
    ensures color[0] == '#' ==> ResolveColor(color, WithTransparent(palette)) == color
    ensures color[0] != '#' && color != "transparent" && color in palette ==>
      ResolveColor(color, WithTransparent(palette)) == palette[color]
    ensures color != "transparent" && color !in palette ==> ResolveColor(color, WithTransparent(palette)) == color
  {
  }

  /** Why an object cannot be drawn. */
  datatype PixelError =
    | NotANumber(c: char)     // `int(char)` raises `ValueError`
    | NoSuchColour(index: int) // `colors[char + 1]` raises `IndexError`
    | PaletteIsFlag           // a bare `color_palette` option is `True`, which has no `isdigit`

  /** The colour index a sprite character stands for. */
  function DecodeChar(c: char): (r: Result<int, PixelError>)
    ensures r.Ok? <==> IsAsciiLetter(c) || c == '.' || IsDigit(c)
    ensures r.Ok? ==> -1 <= r.value < 36
  {
    if IsAsciiLetter(c) then Ok(LowerChar(c) as int - 'a' as int + 10)
    else if c == '.' then Ok(-1)
    else if IsDigit(c) then Ok(c as int - '0' as int)
    else Err(NotANumber(c))
  }

  /** Reading back the character the images extension writes for index `k` gives `k`. */
  lemma DecodeInvertsSpriteChar(k: int)
    requires -1 <= k < 36
    ensures DecodeChar(ImagesExtension.SpriteChar(k)) == Ok(k)
  {
  }

  /** Every character that reads as an index is the one written for it, or its capital. */
  lemma SpriteCharInvertsDecode(c: char)
    requires DecodeChar(c).Ok?
    ensures ImagesExtension.SpriteChar(DecodeChar(c).value) == LowerChar(c)
  {
    var k := DecodeChar(c).value;
    if 10 <= k {
      assert ImagesExtension.SpriteChar(k) as int == 'a' as int + k - 10;
    }
  }

  /** `colors[char + 1]`: `.` is the transparent entry in front. */
  function PixelOf(colors: seq<string>, c: char): Result<string, PixelError> {
    match DecodeChar(c)
    case Err(e) => Err(e)
    case Ok(v) => if v + 1 < |colors| then Ok(colors[v + 1]) else Err(NoSuchColour(v))
  }

  /** The colours of one sprite row; the first character that fails decides the error. */
  function RowPixels(colors: seq<string>, line: string): Result<seq<string>, PixelError> {
    if line == [] then Ok([])
    else
      match RowPixels(colors, line[..|line| - 1])
      case Err(e) => Err(e)
      case Ok(row) =>
        match PixelOf(colors, line[|line| - 1])
        case Err(e) => Err(e)
        case Ok(p) => Ok(row + [p])
  }

  /** The colours of every row. */
  function GridPixels(colors: seq<string>, lines: seq<string>): (r: Result<seq<seq<string>>, PixelError>)
    ensures r.Ok? ==> |r.value| == |lines|
  {
    if lines == [] then Ok([])
    else
      match GridPixels(colors, lines[..|lines| - 1])
      case Err(e) => Err(e)
      case Ok(grid) =>
        match RowPixels(colors, lines[|lines| - 1])
        case Err(e) => Err(e)
        case Ok(row) => Ok(grid + [row])
  }

  /** `[s] * n`. */
  function Copies<T>(s: T, n: nat): (r: seq<T>)
    ensures |r| == n && forall i :: 0 <= i < n ==> r[i] == s
  {
    if n == 0 then [] else Copies(s, n - 1) + [s]
  }

  /** `"\n".join(["0" * size] * size)`: the sprite of an object that gives none. */
  function DefaultSprite(size: nat): string {
    Join(Copies(Repeat('0', size), size), "\n")
  }

  /** Position of the first newline. */
  function FirstNewline(s: string): (k: nat)
    requires '\n' in s
    ensures k < |s| && s[k] == '\n' && '\n' !in s[..k]
  {
    if s[0] == '\n' then 0
    else
      assert '\n' in s[1..] by {
        var i :| 0 <= i < |s| && s[i] == '\n';
        assert s[1..][i - 1] == '\n';
      }
      var k := 1 + FirstNewline(s[1..]);
      assert s[..k] == [s[0]] + s[1..][..k - 1];
      k
  }

  /** The colour line and the sprite of an object: `split("\n", 1)`, or the default sprite. */
  function ColourText(obj: string): string {
    if '\n' !in obj then obj else obj[..FirstNewline(obj)]
  }

  function SpriteText(obj: string, size: nat): string {
    if '\n' !in obj then DefaultSprite(size) else obj[FirstNewline(obj) + 1..]
  }

  /** The listed colours resolved against the palette; a bare palette option fails on the first. */
  function Colours(words: seq<string>, palette: Option<map<string, string>>): Result<seq<string>, PixelError>
    requires forall i :: 0 <= i < |words| ==> words[i] != []
  {
    if words == [] then Ok([])
    else match palette
      case None => Err(PaletteIsFlag)
      case Some(p) => Ok(seq(|words|, i requires 0 <= i < |words| => ResolveColor(words[i], p)))
  }

  /** `__object_to_pixels(object_string, size, palette_name)`, as colour texts. */
  function ObjectPixels(obj: string, size: nat, palette: Option<map<string, string>>): (r: Result<seq<seq<string>>, PixelError>)
    ensures palette.None? && Words(ColourText(obj)) != [] ==> r == Err(PaletteIsFlag)
    ensures r.Ok? ==> |r.value| == |Split(SpriteText(obj, size), '\n')|
  {
    match Colours(Words(ColourText(obj)), palette)
    case Err(e) => Err(e)
    case Ok(cs) => GridPixels(["#00000000"] + cs, Split(SpriteText(obj, size), '\n'))
  }

  /** The loop over the colour words. */
  method ResolveColours(words: seq<string>, palette: Option<map<string, string>>) returns (r: Result<seq<string>, PixelError>)
    requires forall i :: 0 <= i < |words| ==> words[i] != []
    ensures r == Colours(words, palette)
  {
    var colors: seq<string> := [];
    for i := 0 to |words|
      invariant i > 0 ==> palette.Some?
      invariant |colors| == i
      invariant forall j :: 0 <= j < i ==> palette.Some? && colors[j] == ResolveColor(words[j], palette.value)
    {
      if palette.None? {
        return Err(PaletteIsFlag);
      }
      colors := colors + [ResolveColor(words[i], palette.value)];
    }
    assert words == [] || colors == seq(|words|, i requires 0 <= i < |words| => ResolveColor(words[i], palette.value));
    return Ok(colors);
  }

  /** `__object_to_pixels`: the colour line, then one list of colours per sprite row. */
  method ObjectToPixels(obj: string, size: nat, palette: Option<map<string, string>>) returns (r: Result<seq<seq<string>>, PixelError>)
    ensures r == ObjectPixels(obj, size, palette)
  {
    var colorsString, pixelsString;
    if '\n' !in obj {
      colorsString := obj;
      pixelsString := DefaultSprite(size);
    } else {
      var k := FirstNewline(obj);
      colorsString, pixelsString := obj[..k], obj[k + 1..];
    }
    var resolved := ResolveColours(Words(colorsString), palette);
    if resolved.Err? {
      return Err(resolved.error);
    }
    var colors := ["#00000000"] + resolved.value;
    var lines := Split(pixelsString, '\n');
    var image: seq<seq<string>> := [];
    for i := 0 to |lines|
      invariant GridPixels(colors, lines[..i]) == Ok(image)
    {
      assert lines[..i + 1][..i] == lines[..i];
      var row := LinePixels(colors, lines[i]);
      if row.Err? {
        GridStops(colors, lines, i + 1);
        return Err(row.error);
      }
      image := image + [row.value];
    }
    assert lines[..|lines|] == lines;
    return Ok(image);
  }

  /** The loop over the characters of one row. */
  method LinePixels(colors: seq<string>, line: string) returns (r: Result<seq<string>, PixelError>)
    ensures r == RowPixels(colors, line)
  {
    var row: seq<string> := [];
    for i := 0 to |line|
      invariant RowPixels(colors, line[..i]) == Ok(row)
    {
      assert line[..i + 1][..i] == line[..i];
      var value := DecodeChar(line[i]);
      if value.Err? {
        RowStops(colors, line, i + 1);
        return Err(value.error);
      }
      if value.value + 1 >= |colors| {
        RowStops(colors, line, i + 1);
        return Err(NoSuchColour(value.value));
      }
      row := row + [colors[value.value + 1]];
    }
    assert line[..|line|] == line;
    return Ok(row);
  }

  /** Once a row fails, the characters after it do not matter. */
  lemma {:induction false} RowStops(colors: seq<string>, line: string, n: nat)
    requires n <= |line| && RowPixels(colors, line[..n]).Err?
    ensures RowPixels(colors, line) == RowPixels(colors, line[..n])
    decreases |line| - n
  {
    if n < |line| {
      assert line[..n + 1][..n] == line[..n];
      RowStops(colors, line, n + 1);
    } else {
      assert line[..n] == line;
    }
  }

  /** Once a grid fails, the rows after it do not matter. */
  lemma {:induction false} GridStops(colors: seq<string>, lines: seq<string>, n: nat)
    requires n <= |lines| && GridPixels(colors, lines[..n]).Err?
    ensures GridPixels(colors, lines) == GridPixels(colors, lines[..n])
    decreases |lines| - n
  {
    if n < |lines| {
      assert lines[..n + 1][..n] == lines[..n];
      GridStops(colors, lines, n + 1);
    } else {
      assert lines[..n] == lines;
    }
  }

  /** A row that decodes has one colour per character, `colors[index + 1]`. */
  lemma {:induction false} RowShape(colors: seq<string>, line: string)
    requires RowPixels(colors, line).Ok?
    ensures |RowPixels(colors, line).value| == |line|
    ensures forall i :: 0 <= i < |line| ==> PixelOf(colors, line[i]) == Ok(RowPixels(colors, line).value[i])
  {
    if line != [] {
      var init := line[..|line| - 1];
      RowShape(colors, init);
      var row := RowPixels(colors, line).value;
      forall i | 0 <= i < |line|
        ensures PixelOf(colors, line[i]) == Ok(row[i])
      {
        if i < |init| {
          assert line[i] == init[i];
          assert row[i] == RowPixels(colors, init).value[i];
        }
      }
    }
  }

  /**
   * A sprite character the images extension writes for colour-list entry `k`
   * (`transparent` first, at most 36 others) reads back as that entry, with
   * `transparent` as `#00000000`.
   */
  lemma SpriteCharReadsBack(table: seq<string>, k: nat)
    requires 1 <= |table| <= 37 && k < |table|
    ensures PixelOf(["#00000000"] + table[1..], ImagesExtension.SpriteChar(k - 1)) ==
      Ok(if k == 0 then "#00000000" else table[k])
  {
    DecodeInvertsSpriteChar(k - 1);
  }

  /** An object without a sprite is `size` rows of `size` pixels of its first colour. */
  lemma NoSpriteIsFirstColour(obj: string, size: nat, palette: map<string, string>)
    requires '\n' !in obj && Words(obj) != [] && size >= 1
    ensures ObjectPixels(obj, size, Some(palette)) == Ok(Copies(Copies(ResolveColor(Words(obj)[0], palette), size), size))
  {
    var words := Words(obj);
    var cs := seq(|words|, i requires 0 <= i < |words| => ResolveColor(words[i], palette));
    var colors := ["#00000000"] + cs;
    var first := ResolveColor(words[0], palette);
    var rows := Copies(Repeat('0', size), size);
    assert Colours(words, Some(palette)) == Ok(cs);
    assert ColourText(obj) == obj && SpriteText(obj, size) == Join(rows, ['\n']);
    SplitJoin(rows, '\n');
    assert PixelOf(colors, '0') == Ok(first);
    RowConstant(colors, '0', size, first);
    GridConstant(colors, Repeat('0', size), size, Copies(first, size));
  }

  lemma {:induction false} RowConstant(colors: seq<string>, c: char, n: nat, p: string)
    requires PixelOf(colors, c) == Ok(p)
    ensures RowPixels(colors, Repeat(c, n)) == Ok(Copies(p, n))
  {
    if n > 0 {
      var line := Repeat(c, n);
      assert line[..n - 1] == Repeat(c, n - 1);
      assert line[n - 1] == c;
      RowConstant(colors, c, n - 1, p);
    }
  }

  lemma {:induction false} GridConstant(colors: seq<string>, line: string, m: nat, row: seq<string>)
    requires RowPixels(colors, line) == Ok(row)
    ensures GridPixels(colors, Copies(line, m)) == Ok(Copies(row, m))
  {
    if m > 0 {
      GridConstant(colors, line, m - 1, row);
    }
  }

  // Levels: `parse_level` once the level's CSV text and the tileset's glyphs are read.

  /** Why a level cannot be converted. */
  datatype LevelError =
    | NotAnInteger(tile: string) // `int(tile)` raises `ValueError`
    | UnknownTile(key: string)   // `tileset[...]` raises `KeyError`

  /** `int(s)`: optional surrounding whitespace, an optional sign, ASCII digits. */
  function IntValue(s: string): Option<int> {
    var t := Strip(s);
    if t != [] && (t[0] == '-' || t[0] == '+') && IsDigits(t[1..]) then
      var v: int := DigitsValue(t[1..]);
      Some(if t[0] == '-' then -v else v)
    else if IsDigits(t) then Some(DigitsValue(t))
    else None
  }

  /** `s.split(",\n")`. */
  function SplitRows(s: string): (r: seq<string>)
    ensures |r| >= 1
    decreases |s|
  {
    if s == [] then [""]
    else if |s| >= 2 && s[0] == ',' && s[1] == '\n' then [""] + SplitRows(s[2..])
    else
      var rest := SplitRows(s[1..]);
      [[s[0]] + rest[0]] + rest[1..]
  }

  /** Text without `,` is one row. */
  lemma {:induction false} SplitRowsNoComma(s: string)
    requires ',' !in s
    ensures SplitRows(s) == [s]
  {
    if s != [] {
      SplitRowsNoComma(s[1..]);
      assert [s[0]] + s[1..] == s;
    }
  }

  /** The glyph of Tiled gid `t`: tile id `t - 1` of the tileset. */
  function TileGlyph(tile: string, tileset: map<string, string>): Result<string, LevelError> {
    match IntValue(tile)
    case None => Err(NotAnInteger(tile))
    case Some(t) =>
      var key := IntToString(t - 1);
      if key in tileset then Ok(tileset[key]) else Err(UnknownTile(key))
  }

  /** The glyphs of the tiles of one row, one after the other. */
  function RowGlyphs(tiles: seq<string>, tileset: map<string, string>): Result<string, LevelError> {
    if tiles == [] then Ok("")
    else
      match RowGlyphs(tiles[..|tiles| - 1], tileset)
      case Err(e) => Err(e)
      case Ok(text) =>
        match TileGlyph(tiles[|tiles| - 1], tileset)
        case Err(e) => Err(e)
        case Ok(g) => Ok(text + g)
  }

  /** The conversion of one CSV row of tile numbers into its glyphs. */
  function RowReader(tileset: map<string, string>): string -> Result<string, LevelError> {
    row => RowGlyphs(Split(row, ','), tileset)
  }

  /** The output of the loop: every row's glyphs followed by a newline. */
  function LevelGlyphs(rows: seq<string>, readRow: string -> Result<string, LevelError>): Result<string, LevelError> {
    if rows == [] then Ok("")
    else
      match LevelGlyphs(rows[..|rows| - 1], readRow)
      case Err(e) => Err(e)
      case Ok(text) =>
        match readRow(rows[|rows| - 1])
        case Err(e) => Err(e)
        case Ok(line) => Ok(text + line + "\n")
  }

  /** What `parse_level` returns for the CSV text of the level (`None` when the element is empty). */
  function LevelText(levelCsv: Option<string>, tileset: map<string, string>): Result<string, LevelError> {
    match levelCsv
    case None => Ok("")
    case Some(csv) => LevelGlyphs(SplitRows(Strip(csv)), RowReader(tileset))
  }

  /** The conversion part of `parse_level`: no CSV text gives no output. */
  method ParseLevel(levelCsv: Option<string>, tileset: map<string, string>) returns (r: Result<string, LevelError>)
    ensures r == LevelText(levelCsv, tileset)
  {
    if levelCsv.None? {
      return Ok("");
    }
    r := LevelRows(SplitRows(Strip(levelCsv.value)), tileset);
  }

  /** The loop over the rows of the level. */
  method LevelRows(levelLines: seq<string>, tileset: map<string, string>) returns (r: Result<string, LevelError>)
    ensures r == LevelGlyphs(levelLines, RowReader(tileset))
  {
    var output := "";
    var readRow := RowReader(tileset);
    for i := 0 to |levelLines|
      invariant LevelGlyphs(levelLines[..i], readRow) == Ok(output)
    {
      LevelGlyphsStep(levelLines, readRow, i);
      var line := RowText(Split(levelLines[i], ','), tileset);
      assert readRow(levelLines[i]) == line;
      if line.Err? {
        LevelStops(levelLines, readRow, i + 1);
        return Err(line.error);
      }
      output := output + line.value + "\n";
    }
    assert levelLines[..|levelLines|] == levelLines;
    return Ok(output);
  }

  /** The inner loop over the tiles of one row. */
  method RowText(tiles: seq<string>, tileset: map<string, string>) returns (r: Result<string, LevelError>)
    ensures r == RowGlyphs(tiles, tileset)
  {
    var output := "";
    for j := 0 to |tiles|
      invariant RowGlyphs(tiles[..j], tileset) == Ok(output)
    {
      RowGlyphsStep(tiles, tileset, j);
      var glyph := TileGlyph(tiles[j], tileset);
      if glyph.Err? {
        RowGlyphsStop(tiles, tileset, j + 1);
        return Err(glyph.error);
      }
      output := output + glyph.value;
    }
    assert tiles[..|tiles|] == tiles;
    return Ok(output);
  }

  /** One more row of the loop that builds `LevelGlyphs`. */
  lemma LevelGlyphsStep(rows: seq<string>, readRow: string -> Result<string, LevelError>, i: nat)
    requires i < |rows|
    ensures LevelGlyphs(rows[..i + 1], readRow) ==
      match LevelGlyphs(rows[..i], readRow)
      case Err(e) => Err(e)
      case Ok(text) =>
        match readRow(rows[i])
        case Err(e) => Err(e)
        case Ok(line) => Ok(text + line + "\n")
  {
    assert rows[..i + 1][..i] == rows[..i];
  }

  /** One more tile of the loop that builds `RowGlyphs`. */
  lemma RowGlyphsStep(tiles: seq<string>, tileset: map<string, string>, j: nat)
    requires j < |tiles|
    ensures RowGlyphs(tiles[..j + 1], tileset) ==
      match RowGlyphs(tiles[..j], tileset)
      case Err(e) => Err(e)
      case Ok(text) =>
        match TileGlyph(tiles[j], tileset)
        case Err(e) => Err(e)
        case Ok(g) => Ok(text + g)
  {
    assert tiles[..j + 1][..j] == tiles[..j];
  }

  lemma {:induction false} LevelStops(rows: seq<string>, readRow: string -> Result<string, LevelError>, n: nat)
    requires n <= |rows| && LevelGlyphs(rows[..n], readRow).Err?
    ensures LevelGlyphs(rows, readRow) == LevelGlyphs(rows[..n], readRow)
    decreases |rows| - n
  {
    if n < |rows| {
      assert rows[..n + 1][..n] == rows[..n];
      LevelStops(rows, readRow, n + 1);
    } else {
      assert rows[..n] == rows;
    }
  }

  lemma {:induction false} RowGlyphsStop(tiles: seq<string>, tileset: map<string, string>, n: nat)
    requires n <= |tiles| && RowGlyphs(tiles[..n], tileset).Err?
    ensures RowGlyphs(tiles, tileset) == RowGlyphs(tiles[..n], tileset)
    decreases |tiles| - n
  {
    if n < |tiles| {
      assert tiles[..n + 1][..n] == tiles[..n];
      RowGlyphsStop(tiles, tileset, n + 1);
    } else {
      assert tiles[..n] == tiles;
    }
  }

  /** The glyph lines of the rows, one per row. */
  function LevelLines(rows: seq<string>, readRow: string -> Result<string, LevelError>): (r: Result<seq<string>, LevelError>)
    ensures r.Ok? ==> |r.value| == |rows|
  {
    if rows == [] then Ok([])
    else
      match LevelLines(rows[..|rows| - 1], readRow)
      case Err(e) => Err(e)
      case Ok(lines) =>
        match readRow(rows[|rows| - 1])
        case Err(e) => Err(e)
        case Ok(line) => Ok(lines + [line])
  }

  /** Appending a line before the final empty piece of a join appends that line and a newline. */
  lemma JoinLastLine(lines: seq<string>, line: string)
    ensures Join(lines + [line] + [""], "\n") == Join(lines + [""], "\n") + line + "\n"
  {
    assert Join([line, ""], "\n") == line + "\n" + "";
    assert lines + [line] + [""] == lines + [line, ""];
    if lines != [] {
      JoinAppend(lines, [""], "\n");
      JoinAppend(lines, [line, ""], "\n");
    }
  }

  /**
   * A level converts exactly when every row does, and the output is then the
   * rows' glyph lines, each ended by a newline.
   */
  lemma {:induction false} LevelIsLines(rows: seq<string>, readRow: string -> Result<string, LevelError>)
    ensures LevelGlyphs(rows, readRow).Ok? <==> LevelLines(rows, readRow).Ok?
    ensures LevelLines(rows, readRow).Ok? ==>
      LevelGlyphs(rows, readRow).value == Join(LevelLines(rows, readRow).value + [""], "\n")
  {
    if rows != [] {
      LevelIsLines(rows[..|rows| - 1], readRow);
      if LevelLines(rows, readRow).Ok? {
        JoinLastLine(LevelLines(rows[..|rows| - 1], readRow).value, LevelLines(rows, readRow).value[|rows| - 1]);
      }
    }
  }

  /** Line `i` of a converted level holds the glyphs of the tiles of row `i`, in order. */
  lemma {:induction false} LevelLineOfRow(rows: seq<string>, readRow: string -> Result<string, LevelError>, i: nat)
    requires LevelLines(rows, readRow).Ok? && i < |rows|
    ensures readRow(rows[i]) == Ok(LevelLines(rows, readRow).value[i])
  {
    var init := rows[..|rows| - 1];
    var last := readRow(rows[|init|]);
    assert LevelLines(init, readRow).Ok? && last.Ok?;
    assert LevelLines(rows, readRow).value == LevelLines(init, readRow).value + [last.value];
    if i < |init| {
      LevelLineOfRow(init, readRow, i);
      assert rows[i] == init[i];
    }
  }

  /** A level of a single gid `t` is the glyph of tile `t - 1` and a newline. */
  lemma SingleTileLevel(t: nat, tileset: map<string, string>)
    requires t >= 1
    ensures LevelText(Some(NatToString(t)), tileset) ==
      if NatToString(t - 1) in tileset then Ok(tileset[NatToString(t - 1)] + "\n") else Err(UnknownTile(NatToString(t - 1)))
  {
    var s := NatToString(t);
    assert IsDigit(s[0]) && IsDigit(s[|s| - 1]);
    assert ',' !in s;
    SingleRowLevel(s, tileset);
    SingleTileGlyph(t, tileset);
  }

  /** The number `t` written out reads back as `t`, so it stands for tile `t - 1`. */
  lemma SingleTileGlyph(t: nat, tileset: map<string, string>)
    requires t >= 1
    ensures TileGlyph(NatToString(t), tileset) ==
      if NatToString(t - 1) in tileset then Ok(tileset[NatToString(t - 1)]) else Err(UnknownTile(NatToString(t - 1)))
  {
    var s := NatToString(t);
    DigitsValueOfNatToString(t);
    assert IsDigits(s) && s[0] != '-' && s[0] != '+';
    assert IntValue(s) == Some(t);
    assert IntToString(t - 1) == NatToString(t - 1);
  }

  /** A level of one row holding one tile and nothing to strip is that tile's glyph and a newline. */
  lemma SingleRowLevel(s: string, tileset: map<string, string>)
    requires s != [] && !IsSpace(s[0]) && !IsSpace(s[|s| - 1]) && ',' !in s
    ensures LevelText(Some(s), tileset) ==
      match TileGlyph(s, tileset)
      case Ok(g) => Ok(g + "\n")
      case Err(e) => Err(e)
  {
    StripUnchanged(s);
    SplitRowsNoComma(s);
    SplitNoSep(s, ',');
    var rows := [s];
    assert rows[..0] == [] && rows[..1] == rows;
    RowGlyphsStep(rows, tileset, 0);
    LevelGlyphsStep(rows, RowReader(tileset), 0);
    assert LevelText(Some(s), tileset) == LevelGlyphs(rows, RowReader(tileset));
    match TileGlyph(s, tileset)
    case Ok(g) =>
      assert "" + g == g;
      assert "" + g + "\n" == g + "\n";
    case Err(_) =>
  }

  // The tileset: `write_tileset_files` once the files are written.

  /** Why `write_tileset_files` raises. */
  datatype TilesetError =
    | SpriteSizeIsFlag                                 // `True.isdigit()` raises `AttributeError`
    | EmptyStack(glyph: string)                        // `ps_objects[0]` raises `IndexError`
    | BadObject(glyph: string, cause: PixelError)      // `__object_to_pixels` raises
    | GlyphsFailed(glyphError: Glyphs.GlyphError)           // `get_glyphs` raises something other than `ParseError`

  /** A tile of the tileset: its glyph, its id and its image file. */
  datatype Tile = Tile(glyph: string, id: nat, filename: string)

  /** `path.join("images", f"{tile_id}.png")`. */
  function TileFile(id: nat): string {
    "images/" + NatToString(id) + ".png"
  }

  /** The size of a tile: the prelude's `sprite_size` when it is all digits, otherwise 5. */
  function SpriteSize(options: Dict<string, Sections.OptionValue>): Result<nat, TilesetError> {
    if "sprite_size" in options.values then
      match options.values["sprite_size"]
      case Flag => Err(SpriteSizeIsFlag)
      case Value(text) => Ok(if IsDigits(text) then DigitsValue(text) else 5)
    else Ok(5)
  }

  /** `sprite_size n` gives `n`; any other text, or no option, gives 5; a bare keyword fails. */
  lemma SpriteSizeOption(options: Dict<string, Sections.OptionValue>, n: nat)
    ensures "sprite_size" !in options.values ==> SpriteSize(options) == Ok(5)
    ensures "sprite_size" in options.values && options.values["sprite_size"] == Sections.Value(NatToString(n)) ==>
      SpriteSize(options) == Ok(n)
    ensures "sprite_size" in options.values && options.values["sprite_size"].Value? && !IsDigits(options.values["sprite_size"].text) ==>
      SpriteSize(options) == Ok(5)
    ensures "sprite_size" in options.values && options.values["sprite_size"].Flag? ==> SpriteSize(options) == Err(SpriteSizeIsFlag)
  {
    DigitsValueOfNatToString(n);
  }

  /** Whether `__object_to_pixels` can draw an object, and why not. */
  function Drawer(size: nat, palette: Option<map<string, string>>): string -> Option<PixelError> {
    obj => var image := ObjectPixels(obj, size, palette); if image.Err? then Some(image.error) else None
  }

  /** The first object of a stack that cannot be drawn, if any. */
  function StackFailure(objects: seq<string>, draw: string -> Option<PixelError>): Option<PixelError> {
    if objects == [] then None
    else
      match StackFailure(objects[..|objects| - 1], draw)
      case Some(e) => Some(e)
      case None =>
        draw(objects[|objects| - 1])
  }

  /** The tiles of the glyphs `names`, numbered in order; the first glyph that cannot be drawn fails. */
  function TilesFor(glyphs: Glyphs.Table, names: seq<string>, draw: string -> Option<PixelError>): Result<seq<Tile>, TilesetError>
    requires forall i :: 0 <= i < |names| ==> names[i] in glyphs.values
  {
    if names == [] then Ok([])
    else
      match TilesFor(glyphs, names[..|names| - 1], draw)
      case Err(e) => Err(e)
      case Ok(tiles) =>
        var glyph := names[|names| - 1];
        match TileFailure(glyph, glyphs.values[glyph], draw)
        case Some(e) => Err(e)
        case None => Ok(tiles + [Tile(glyph, |tiles|, TileFile(|tiles|))])
  }

  /** Tile `i` is glyph `i` of the iteration, with id `i` and image `images/<i>.png`; no two share a file. */
  lemma {:induction false} TilesNumbered(glyphs: Glyphs.Table, names: seq<string>, draw: string -> Option<PixelError>)
    requires forall i :: 0 <= i < |names| ==> names[i] in glyphs.values
    requires TilesFor(glyphs, names, draw).Ok?
    ensures |TilesFor(glyphs, names, draw).value| == |names|
    ensures forall i :: 0 <= i < |names| ==> TilesFor(glyphs, names, draw).value[i] == Tile(names[i], i, TileFile(i))
  {
    if names != [] {
      var init := names[..|names| - 1];
      TilesNumbered(glyphs, init, draw);
      var tiles := TilesFor(glyphs, names, draw).value;
      forall i | 0 <= i < |names|
        ensures tiles[i] == Tile(names[i], i, TileFile(i))
      {
        if i < |init| {
          assert names[i] == init[i];
        }
      }
    }
  }

  /** Different ids give different image files. */
  lemma TileFilesDistinct(i: nat, j: nat)
    requires i != j
    ensures TileFile(i) != TileFile(j)
  {
    var a, b := NatToString(i), NatToString(j);
    if TileFile(i) == TileFile(j) {
      var n := |"images/"|;
      assert a == TileFile(i)[n..n + |a|];
      assert b == TileFile(j)[n..n + |b|];
      DigitsValueOfNatToString(i);
      DigitsValueOfNatToString(j);
      assert false;
    }
  }

  /** Once a stack has an object that cannot be drawn, the longer stacks fail on it too. */
  lemma {:induction false} StackStops(objects: seq<string>, draw: string -> Option<PixelError>, n: nat)
    requires n <= |objects| && StackFailure(objects[..n], draw).Some?
    ensures StackFailure(objects, draw) == StackFailure(objects[..n], draw)
    decreases |objects| - n
  {
    if n < |objects| {
      assert objects[..n + 1][..n] == objects[..n];
      StackStops(objects, draw, n + 1);
    } else {
      assert objects[..n] == objects;
    }
  }

  /** One more object of the loop that builds `StackFailure`. */
  lemma StackFailureStep(objects: seq<string>, draw: string -> Option<PixelError>, k: nat)
    requires k < |objects|
    ensures StackFailure(objects[..k + 1], draw) ==
      match StackFailure(objects[..k], draw)
      case Some(e) => Some(e)
      case None => draw(objects[k])
  {
    assert objects[..k + 1][..k] == objects[..k];
  }

  /** The drawing of one glyph's stack: the first object, then each overlay on it. */
  method DrawStack(objects: seq<string>, size: nat, palette: Option<map<string, string>>) returns (failure: Option<PixelError>)
    ensures failure == StackFailure(objects, Drawer(size, palette))
  {
    var draw := Drawer(size, palette);
    for k := 0 to |objects|
      invariant StackFailure(objects[..k], draw).None?
    {
      StackFailureStep(objects, draw, k);
      var image := ObjectToPixels(objects[k], size, palette);
      assert draw(objects[k]) == if image.Err? then Some(image.error) else None;
      if image.Err? {
        StackStops(objects, draw, k + 1);
        return Some(image.error);
      }
    }
    assert objects[..|objects|] == objects;
    return None;
  }

  /** Why the tile of `glyph`, drawn from its stack `objects`, cannot be made, if it cannot. */
  function TileFailure(glyph: string, objects: seq<string>, draw: string -> Option<PixelError>): Option<TilesetError> {
    if objects == [] then Some(EmptyStack(glyph))
    else
      match StackFailure(objects, draw)
      case Some(e) => Some(BadObject(glyph, e))
      case None => None
  }

  /** The image of one glyph: its first object with each overlay pasted on it. */
  method DrawTile(glyph: string, objects: seq<string>, size: nat, palette: Option<map<string, string>>) returns (failure: Option<TilesetError>)
    ensures failure == TileFailure(glyph, objects, Drawer(size, palette))
  {
    if objects == [] {
      return Some(EmptyStack(glyph));
    }
    var stack := DrawStack(objects, size, palette);
    if stack.Some? {
      return Some(BadObject(glyph, stack.value));
    }
    return None;
  }

  /** Once a glyph cannot be drawn, the tiles of the longer key lists fail on it too. */
  lemma {:induction false} TilesStop(glyphs: Glyphs.Table, names: seq<string>, draw: string -> Option<PixelError>, n: nat)
    requires forall i :: 0 <= i < |names| ==> names[i] in glyphs.values
    requires n <= |names| && TilesFor(glyphs, names[..n], draw).Err?
    ensures TilesFor(glyphs, names, draw) == TilesFor(glyphs, names[..n], draw)
    decreases |names| - n
  {
    if n < |names| {
      assert names[..n + 1][..n] == names[..n];
      TilesStop(glyphs, names, draw, n + 1);
    } else {
      assert names[..n] == names;
    }
  }

  /** The loop of `write_tileset_files` over the glyphs, in key order. */
  method TileEntries(glyphs: Glyphs.Table, size: nat, palette: Option<map<string, string>>) returns (r: Result<seq<Tile>, TilesetError>)
    requires forall i :: 0 <= i < |glyphs.keys| ==> glyphs.keys[i] in glyphs.values
    ensures r == TilesFor(glyphs, glyphs.keys, Drawer(size, palette))
  {
    var draw := Drawer(size, palette);
    var names := glyphs.keys;
    var tileId := 0;
    var tileset := [];
    for i := 0 to |names|
      invariant TilesFor(glyphs, names[..i], draw) == Ok(tileset)
      invariant tileId == |tileset|
    {
      var prefix := names[..i + 1];
      assert prefix[..i] == names[..i] && prefix[i] == names[i];
      var glyph := names[i];
      var failure := DrawTile(glyph, glyphs.values[glyph], size, palette);
      if failure.Some? {
        assert TilesFor(glyphs, prefix, draw) == Err(failure.value);
        TilesStop(glyphs, names, draw, i + 1);
        return Err(failure.value);
      }
      tileset := tileset + [Tile(glyph, tileId, TileFile(tileId))];
      tileId := tileId + 1;
    }
    assert names[..|names|] == names;
    return Ok(tileset);
  }

  /**
   * The tileset `write_tileset_files` writes, given the prelude options and
   * what `get_glyphs` gives: `None` when it writes none (generation is off,
   * or `get_glyphs` raised the `ParseError` of a missing collision layer,
   * which is caught); any other failure of `get_glyphs` propagates.
   */
  function TilesetOf(options: Dict<string, Sections.OptionValue>, glyphs: Result<Glyphs.Table, Glyphs.GlyphError>, generateTileset: bool): (r: Result<Option<seq<Tile>>, TilesetError>)
    requires glyphs.Ok? ==> glyphs.value.Valid()
    ensures SpriteSize(options).Err? ==> r == Err(SpriteSize(options).error)
    ensures SpriteSize(options).Ok? && !generateTileset ==> r == Ok(None)
    ensures SpriteSize(options).Ok? && generateTileset && glyphs.Err? ==>
      r == if glyphs.error.MissingLayer? then Ok(None) else Err(GlyphsFailed(glyphs.error))
    ensures r.Ok? && r.value.Some? ==> generateTileset && glyphs.Ok?
  {
    match SpriteSize(options)
    case Err(e) => Err(e)
    case Ok(size) =>
      if !generateTileset then Ok(None)
      else
        match glyphs
        case Err(e) => if e.MissingLayer? then Ok(None) else Err(GlyphsFailed(e))
        case Ok(table) =>
          KeysPresent(table);
          var palette := PaletteFor(options.Get("color_palette", Sections.Value("arnecolors")));
          match TilesFor(table, table.keys, Drawer(size, palette))
          case Err(e) => Err(e)
          case Ok(tiles) => Ok(Some(tiles))
  }

  /**
   * `write_tileset_files`: the source passes through unchanged whenever the
   * call returns, and the tileset written is `TilesetOf` the source's prelude
   * options and glyphs.
   */
  method WriteTilesetFiles(input: string, generateTileset: bool, fuel: nat) returns (r: Result<string, TilesetError>, written: Option<seq<Tile>>)
    ensures var run := TilesetOf(Parser.SourceOptions(input), Parser.SourceGlyphs(input, fuel), generateTileset);
      && (r.Ok? <==> run.Ok?)
      && (r.Ok? ==> r.value == input && written == run.value)
      && (r.Err? ==> r.error == run.error && written == None)
  {
    var parser := new Parser.PSParser(input);
    assert parser.preludeOptions == Parser.SourceOptions(input);
    var spriteSize := SpriteSize(parser.preludeOptions);
    if spriteSize.Err? {
      return Err(spriteSize.error), None;
    }
    var colorPalette := parser.preludeOptions.Get("color_palette", Sections.Value("arnecolors"));
    if !generateTileset {
      return Ok(input), None;
    }
    var tiles := parser.GetGlyphs(fuel);
    if tiles.Err? {
      if tiles.error.MissingLayer? {
        return Ok(input), None;
      }
      return Err(GlyphsFailed(tiles.error)), None;
    }
    KeysPresent(tiles.value);
    var tileset := TileEntries(tiles.value, spriteSize.value, PaletteFor(colorPalette));
    if tileset.Err? {
      return Err(tileset.error), None;
    }
    return Ok(input), Some(tileset.value);
  }

  /** A written tileset numbers the glyphs in key order, from 0, each with its own image file. */
  lemma TilesetNumbered(options: Dict<string, Sections.OptionValue>, glyphs: Result<Glyphs.Table, Glyphs.GlyphError>)
    requires glyphs.Ok? ==> glyphs.value.Valid()
    requires TilesetOf(options, glyphs, true).Ok? && TilesetOf(options, glyphs, true).value.Some?
    ensures glyphs.Ok?
    ensures var tiles := TilesetOf(options, glyphs, true).value.value;
      && |tiles| == |glyphs.value.keys|
      && (forall i :: 0 <= i < |tiles| ==> tiles[i] == Tile(glyphs.value.keys[i], i, TileFile(i)))
      && (forall i, j :: 0 <= i < j < |tiles| ==> tiles[i].filename != tiles[j].filename)
  {
    var table := glyphs.value;
    var size := SpriteSize(options).value;
    var palette := PaletteFor(options.Get("color_palette", Sections.Value("arnecolors")));
    KeysPresent(table);
    TilesNumbered(table, table.keys, Drawer(size, palette));
    forall i, j | 0 <= i < j < |table.keys|
      ensures TileFile(i) != TileFile(j)
    {
      TileFilesDistinct(i, j);
    }
  }
}
