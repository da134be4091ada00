/**
 * The `Images` extension of psbs/extensions/images.py: the `image` template
 * function that turns (part of) an image file into the colour line and sprite
 * of a PuzzleScript object. Unlike psbs/images.py it writes colour indexes
 * from 10 on as letters, caps `max_colors` at 36, caches opened images and
 * keeps `transparent` when it is the only colour.
 */
module ImagesExtension {
  import opened Wrappers
  import opened Text
  import Img = Images

  /** The most pixels an image has here, so that `chr(ord("a") + index - 10)` stays a character. */
  const MaxPixels := 55000

  type Pixels = ps: seq<Img.Rgba> | |ps| <= MaxPixels

  /** An RGBA image: `size` and `getdata()`. */
  datatype Image = Image(width: nat, height: nat, pixels: Pixels)

  datatype ImageError =
    | Unreadable(file: string)  // `ExtensionError("Unable to read image file ...")`
    | InvalidWidth              // `textwrap.wrap` refuses a width of 0

  /** `"".join([format(value, "02x") for value in rgba_tuple])`. */
  function HexDigits(cs: seq<Img.Channel>): string {
    Concat(seq(|cs|, i requires 0 <= i < |cs| => Img.Hex2(cs[i])))
  }

  /** Joining the formatted channels gives the same digits as psbs/images.py's loop. */
  lemma {:induction false} HexDigitsAgree(cs: seq<Img.Channel>)
    ensures HexDigits(cs) == Img.HexOf(cs)
  {
    if cs != [] {
      var init := cs[..|cs| - 1];
      var all := seq(|cs|, i requires 0 <= i < |cs| => Img.Hex2(cs[i]));
      assert all[..|all| - 1] == seq(|init|, i requires 0 <= i < |init| => Img.Hex2(init[i]));
      HexDigitsAgree(init);
    }
  }

  /** `str(color)` below 10, `chr(ord("a") + color - 10)` from 10 on, `.` for -1. */
  function SpriteChar(color: int): (c: char)
    requires -1 <= color < MaxPixels
    ensures c == '.' <==> color == -1
    ensures 0 <= color < 10 ==> IsDigit(c) && c as int - '0' as int == color
    ensures 10 <= color < 36 ==> 'a' <= c <= 'z' && c as int - 'a' as int + 10 == color
    ensures 10 <= color ==> !IsDigit(c)
  {
    if color == -1 then '.'
    else if color < 10 then DigitChar(color)
    else ('a' as int + color - 10) as char
  }

  /** Two different colour indexes are never written as the same character. */
  lemma SpriteCharInjective(j: int, k: int)
    requires -1 <= j < MaxPixels && -1 <= k < MaxPixels && j != k
    ensures SpriteChar(j) != SpriteChar(k)
  {
    if 0 <= j < 10 && 0 <= k < 10 {
      assert SpriteChar(j) as int - '0' as int == j;
    }
  }

  /**
   * The colour list: the dict `{"transparent": None}` updated with the dict of
   * the pixels' codes. It is the same list psbs/images.py builds pixel by pixel.
   */
  function Table(pixels: seq<Img.Rgba>, alpha: bool): (colors: seq<string>)
    ensures colors == Img.TableOf(pixels, alpha)
  {
    Img.UniqueOfUnique(["transparent"], Img.Codes(pixels, alpha));
    Img.Unique(["transparent"] + Img.Unique(Img.Codes(pixels, alpha)))
  }

  /** The list is never longer than one entry per pixel plus `transparent`. */
  lemma TableLength(pixels: seq<Img.Rgba>, alpha: bool)
    ensures 1 <= |Table(pixels, alpha)| <= |pixels| + 1
    ensures forall i :: 0 <= i < |pixels| ==> Img.Codes(pixels, alpha)[i] in Table(pixels, alpha)
  {
    Img.UniqueLength(["transparent"] + Img.Codes(pixels, alpha));
    Img.UniqueMembers(["transparent"] + Img.Codes(pixels, alpha));
    Img.TableStartsTransparent(pixels, alpha);
  }

  /** The characters of the pixels, before the text is cut into rows. */
  function SpriteText(codes: seq<string>, colors: seq<string>): string
    requires forall i :: 0 <= i < |codes| ==> codes[i] in colors
    requires |colors| <= MaxPixels + 1
  {
    if codes == [] then ""
    else SpriteText(codes[..|codes| - 1], colors) + [SpriteChar(IndexOf(colors, codes[|codes| - 1]) - 1)]
  }

  /** Every pixel is exactly one character, whatever the number of colours. */
  lemma {:induction false} OneCharEach(codes: seq<string>, colors: seq<string>)
    requires forall i :: 0 <= i < |codes| ==> codes[i] in colors
    requires |colors| <= MaxPixels + 1
    ensures |SpriteText(codes, colors)| == |codes|
    ensures forall i :: 0 <= i < |codes| ==> SpriteText(codes, colors)[i] == SpriteChar(IndexOf(colors, codes[i]) - 1)
  {
    if codes != [] {
      var init := codes[..|codes| - 1];
      OneCharEach(init, colors);
      var text := SpriteText(codes, colors);
      forall i | 0 <= i < |codes|
        ensures text[i] == SpriteChar(IndexOf(colors, codes[i]) - 1)
      {
        if i < |init| {
          assert text[i] == SpriteText(init, colors)[i];
        }
      }
    }
  }

  /** With at most ten colours besides `transparent` the sprite is the one psbs/images.py writes. */
  lemma {:induction false} AgreesWithDecimalSprite(codes: seq<string>, colors: seq<string>)
    requires forall i :: 0 <= i < |codes| ==> codes[i] in colors
    requires |colors| <= 11
    ensures SpriteText(codes, colors) == Img.SpriteText(codes, colors)
  {
    if codes != [] {
      AgreesWithDecimalSprite(codes[..|codes| - 1], colors);
      var k := IndexOf(colors, codes[|codes| - 1]);
      if k > 0 {
        assert NatToString(k - 1) == [DigitChar(k - 1)];
      }
    }
  }

  /** The sprite: one character per pixel, cut into rows of `width` and joined with newlines. */
  function SpriteOf(pixels: Pixels, width: nat, alpha: bool): string
    requires width >= 1
  {
    TableLength(pixels, alpha);
    Join(Img.Wrap(SpriteText(Img.Codes(pixels, alpha), Table(pixels, alpha)), width), "\n")
  }

  /** `colors.remove("transparent")` when other colours remain: the first occurrence goes. */
  function Listed(colors: seq<string>): seq<string> {
    if |colors| > 1 && "transparent" in colors then
      var i := IndexOf(colors, "transparent");
      colors[..i] + colors[i + 1..]
    else colors
  }

  /**
   * The colours an object lists: the visible codes in order of appearance, or
   * `transparent` alone exactly when no pixel is visible.
   */
  lemma ListedTable(pixels: seq<Img.Rgba>, alpha: bool)
    ensures |Table(pixels, alpha)| > 1 ==> Listed(Table(pixels, alpha)) == Table(pixels, alpha)[1..]
    ensures "transparent" in Listed(Table(pixels, alpha)) <==> forall i :: 0 <= i < |pixels| ==> pixels[i].a == 0
    ensures "transparent" in Listed(Table(pixels, alpha)) ==> Listed(Table(pixels, alpha)) == ["transparent"]
  {
    if |Table(pixels, alpha)| > 1 {
      SeveralListed(pixels, alpha);
    } else {
      TransparentOnly(pixels, alpha);
    }
  }

  /** With a visible colour, the listed colours are the table without its head `transparent`. */
  lemma SeveralListed(pixels: seq<Img.Rgba>, alpha: bool)
    requires |Table(pixels, alpha)| > 1
    ensures Listed(Table(pixels, alpha)) == Table(pixels, alpha)[1..]
    ensures "transparent" !in Listed(Table(pixels, alpha))
    ensures exists i :: 0 <= i < |pixels| && pixels[i].a != 0
  {
    Img.TableStartsTransparent(pixels, alpha);
    ListedDropsHead(Table(pixels, alpha));
    SomeVisible(pixels, alpha);
  }

  lemma ListedDropsHead(colors: seq<string>)
    requires |colors| > 1 && colors[0] == "transparent"
    ensures Listed(colors) == colors[1..]
  {
    assert IndexOf(colors, "transparent") == 0;
    assert colors[..0] + colors[1..] == colors[1..];
  }

  /** A second entry in the table is the code of some visible pixel. */
  lemma SomeVisible(pixels: seq<Img.Rgba>, alpha: bool)
    requires |Table(pixels, alpha)| > 1
    ensures exists i :: 0 <= i < |pixels| && pixels[i].a != 0
  {
    var table := Table(pixels, alpha);
    var codes := Img.Codes(pixels, alpha);
    Img.TableStartsTransparent(pixels, alpha);
    Img.UniqueMembers(["transparent"] + codes);
    assert table[1] in ["transparent"] + codes;
    assert table[1] != "transparent" by {
      assert table[1] == table[1..][0];
    }
    var i :| 0 <= i < |codes| && codes[i] == table[1];
    Img.TransparentIffClear(pixels[i], alpha);
  }

  /** A table of `transparent` alone means no pixel is visible. */
  lemma TransparentOnly(pixels: seq<Img.Rgba>, alpha: bool)
    requires |Table(pixels, alpha)| <= 1
    ensures Listed(Table(pixels, alpha)) == ["transparent"]
    ensures forall i :: 0 <= i < |pixels| ==> pixels[i].a == 0
  {
    var table := Table(pixels, alpha);
    var codes := Img.Codes(pixels, alpha);
    Img.TableStartsTransparent(pixels, alpha);
    Img.UniqueMembers(["transparent"] + codes);
    assert table == ["transparent"];
    forall i | 0 <= i < |pixels|
      ensures pixels[i].a == 0
    {
      assert codes[i] in table;
      Img.TransparentIffClear(pixels[i], alpha);
    }
  }

  /** `max_colors` above 36 is brought down to 36. */
  function Clamped(maxColors: int): (r: int)
    ensures r <= 36
    ensures maxColors <= 36 ==> r == maxColors
    ensures maxColors > 36 ==> r == 36
  {
    if maxColors > 36 then 36 else maxColors
  }

  /**
   * The box that is cut out: `left + width` unless `width` is missing or 0,
   * in which case the image's own width; the same for the height.
   */
  function Cropped(image: Image, left: int, top: int, width: Option<int>, height: Option<int>,
                   crop: (Image, int, int, int, int) -> Image): Image
  {
    var right := if width.Some? && width.value != 0 then left + width.value else image.width;
    var bottom := if height.Some? && height.value != 0 then top + height.value else image.height;
    crop(image, left, top, right, bottom)
  }

  /** How many colours the image is quantized to: one more when some pixel is transparent. */
  function Limit(sprite: string, maxColors: int): int {
    if '.' in sprite then maxColors + 1 else maxColors
  }

  /** The pixels finally written: quantized (same size) when the list outgrows the limit. */
  function FinalPixels(image: Image, maxColors: int, alpha: bool, quantize: (Image, int) -> Pixels): Pixels
    requires image.width >= 1
  {
    var limit := Limit(SpriteOf(image.pixels, image.width, alpha), maxColors);
    if |Table(image.pixels, alpha)| > limit then quantize(image, limit) else image.pixels
  }

  /** What `image_to_object` returns for the cropped image. */
  function Render(image: Image, maxColors: int, alpha: bool, quantize: (Image, int) -> Pixels): (r: Result<string, ImageError>)
    ensures r.Err? <==> image.width == 0
    ensures r.Err? ==> r.error == InvalidWidth
  {
    if image.width == 0 then Err(InvalidWidth)
    else
      var pixels := FinalPixels(image, maxColors, alpha, quantize);
      Ok(Join(Listed(Table(pixels, alpha)), " ") + "\n" + SpriteOf(pixels, image.width, alpha))
  }

  /**
   * An image within the colour limit is written as it is, so the result does
   * not depend on the quantizer; the first line lists its colours.
   */
  lemma WithinLimitNotQuantized(image: Image, maxColors: int, alpha: bool, q1: (Image, int) -> Pixels, q2: (Image, int) -> Pixels)
    requires image.width >= 1
    requires |Table(image.pixels, alpha)| <= maxColors
    ensures FinalPixels(image, maxColors, alpha, q1) == image.pixels
    ensures Render(image, maxColors, alpha, q1) == Render(image, maxColors, alpha, q2)
    ensures Render(image, maxColors, alpha, q1).Ok?
  {
  }

  class Images {
    /** `self.config["alpha"]`. */
    var alpha: bool
    /** `self.config["max_colors"]`. */
    var maxColors: int
    /** `self.loaded_images`: every image opened so far, by file name. */
    var loadedImages: map<string, Image>

    /** `Images(config)` with `config` already defaulted. */
    constructor(alpha: bool, maxColors: int)
      ensures this.alpha == alpha && this.maxColors == maxColors && loadedImages == map[]
    {
      this.alpha := alpha;
      this.maxColors := maxColors;
      loadedImages := map[];
    }

    /** `__rgba_to_hex(rgba_tuple)`: the same code psbs/images.py writes. */
    function RgbaToHex(p: Img.Rgba): (code: string)
      reads this
      ensures code == Img.HexCode(p, alpha)
    {
      if p.a == 0 then "transparent"
      else
        HexDigitsAgree(Img.Channels(p, alpha));
        "#" + HexDigits(Img.Channels(p, alpha))
    }

    /** `__pixel_list_to_sprite(pixel_values, width)`. */
    method PixelListToSprite(pixels: Pixels, width: nat) returns (sprite: string, colors: seq<string>)
      requires width >= 1
      ensures colors == Table(pixels, alpha)
      ensures sprite == SpriteOf(pixels, width, alpha)
    {
      var codes := seq(|pixels|, i requires 0 <= i < |pixels| reads this => RgbaToHex(pixels[i]));
      assert codes == Img.Codes(pixels, alpha);
      colors := Img.Unique(["transparent"] + Img.Unique(codes));
      TableLength(pixels, alpha);
      var text := SpriteString(pixels, codes, colors);
      sprite := Join(Img.Wrap(text, width), "\n");
    }

    /** The loop that appends one character per pixel. */
    method SpriteString(pixels: Pixels, codes: seq<string>, colors: seq<string>) returns (text: string)
      requires codes == Img.Codes(pixels, alpha)
      requires forall i :: 0 <= i < |codes| ==> codes[i] in colors
      requires |colors| <= MaxPixels + 1
      ensures text == SpriteText(codes, colors)
    {
      text := "";
      for i := 0 to |pixels|
        invariant text == SpriteText(codes[..i], colors)
      {
        SpriteTextNext(codes, colors, i);
        var color := IndexOf(colors, RgbaToHex(pixels[i])) - 1;
        text := text + [SpriteChar(color)];
      }
      assert codes[..|pixels|] == codes;
    }

    /**
     * `image_to_object(file, left, top, width, height)`. Opening, cropping and
     * quantizing belong to the image library and are parameters.
     */
    method ImageToObject(file: string, left: int, top: int, width: Option<int>, height: Option<int>,
                         open: string -> Option<Image>, crop: (Image, int, int, int, int) -> Image,
                         quantize: (Image, int) -> Pixels)
      returns (r: Result<string, ImageError>)
      modifies this
      ensures alpha == old(alpha) && maxColors == Clamped(old(maxColors))
      ensures file in old(loadedImages) ==>
        && loadedImages == old(loadedImages)
        && r == Render(Cropped(old(loadedImages)[file], left, top, width, height, crop), maxColors, alpha, quantize)
      ensures file !in old(loadedImages) && open(file).None? ==>
        loadedImages == old(loadedImages) && r == Err(Unreadable(file))
      ensures file !in old(loadedImages) && open(file).Some? ==>
        && loadedImages == old(loadedImages)[file := open(file).value]
        && r == Render(Cropped(open(file).value, left, top, width, height, crop), maxColors, alpha, quantize)
    {
      if maxColors > 36 {
        maxColors := 36;
      }
      var image: Image;
      if file in loadedImages {
        image := loadedImages[file];
      } else {
        var read := open(file);
        if read.None? {
          return Err(Unreadable(file));
        }
        image := read.value;
        loadedImages := loadedImages[file := image];
      }
      image := Cropped(image, left, top, width, height, crop);
      r := RenderImage(image, quantize);
    }

    /** The rest of `image_to_object`, from the cropped image on. */
    method RenderImage(image: Image, quantize: (Image, int) -> Pixels) returns (r: Result<string, ImageError>)
      ensures r == Render(image, maxColors, alpha, quantize)
    {
      if image.width == 0 {
        return Err(InvalidWidth);
      }
      var pixels, sprite, colors := FinalSprite(image, quantize);
      if |colors| > 1 && "transparent" in colors {
        var i := IndexOf(colors, "transparent");
        colors := colors[..i] + colors[i + 1..];
      }
      r := Ok(Join(colors, " ") + "\n" + sprite);
    }

    /** The first pass and, when there are too many colours, the quantized second pass. */
    method FinalSprite(image: Image, quantize: (Image, int) -> Pixels) returns (pixels: Pixels, sprite: string, colors: seq<string>)
      requires image.width >= 1
      ensures pixels == FinalPixels(image, maxColors, alpha, quantize)
      ensures sprite == SpriteOf(pixels, image.width, alpha)
      ensures colors == Table(pixels, alpha)
    {
      sprite, colors := PixelListToSprite(image.pixels, image.width);
      var limit := maxColors;
      if '.' in sprite {
        limit := limit + 1;
      }
      assert limit == Limit(SpriteOf(image.pixels, image.width, alpha), maxColors);
      pixels := image.pixels;
      if |colors| > limit {
        pixels := quantize(image, limit);
        sprite, colors := PixelListToSprite(pixels, image.width);
      }
    }
  }

  lemma SpriteTextNext(codes: seq<string>, colors: seq<string>, i: nat)
    requires forall j :: 0 <= j < |codes| ==> codes[j] in colors
    requires |colors| <= MaxPixels + 1
    requires i < |codes|
    ensures SpriteText(codes[..i + 1], colors) == SpriteText(codes[..i], colors) + [SpriteChar(IndexOf(colors, codes[i]) - 1)]
  {
    assert codes[..i + 1][..i] == codes[..i];
  }
}
