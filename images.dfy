/**
 * psbs/images.py: turning the pixels of an image into a PuzzleScript object.
 * Every pixel gets a colour code (`#rrggbb`, `#rrggbbaa` or `transparent`);
 * the codes are listed in order of first appearance; each pixel is written
 * as its position in that list, and the sprite is cut into rows.
 */
module Images {
  import opened Wrappers
  import opened Text

  /** One colour channel, as an RGBA image delivers it. */
  type Channel = x: int | 0 <= x < 256

  datatype Rgba = Rgba(r: Channel, g: Channel, b: Channel, a: Channel)

  /** The channels that are written: the whole tuple, or `rgba_tuple[:-1]` without alpha. */
  function Channels(p: Rgba, alpha: bool): (cs: seq<Channel>)
    ensures |cs| == if alpha then 4 else 3
  {
    if alpha then [p.r, p.g, p.b, p.a] else [p.r, p.g, p.b]
  }

  /** The value of a lowercase hexadecimal digit. */
  function HexValue(c: char): int {
    if '0' <= c <= '9' then c as int - '0' as int else c as int - 'a' as int + 10
  }

  /** The lowercase hexadecimal digit for `d`; reading it back gives `d`. */
  function HexDigit(d: nat): (c: char)
    requires d < 16
    ensures HexValue(c) == d
    ensures ('0' <= c <= '9') || ('a' <= c <= 'f')
  {
    if d < 10 then ('0' as int + d) as char else ('a' as int + d - 10) as char
  }

  /** `format(n, "x")`: lowercase hexadecimal without leading zeros. */
  function Hex(n: nat): (r: string)
    ensures r != []
  {
    if n < 16 then [HexDigit(n)] else Hex(n / 16) + [HexDigit(n % 16)]
  }

  /** `s.zfill(width)` for a string without a sign. */
  function ZFill(s: string, width: nat): string {
    if |s| >= width then s else Repeat('0', width - |s|) + s
  }

  /** `format(v, "x").zfill(2)`, which is also `format(v, "02x")`. */
  function Hex2(v: Channel): string {
    ZFill(Hex(v), 2)
  }

  /** A channel is written as exactly two digits, the high one first. */
  lemma Hex2Digits(v: Channel)
    ensures Hex2(v) == [HexDigit(v / 16), HexDigit(v % 16)]
  {
    if v < 16 {
      assert Hex(v) == [HexDigit(v)];
      assert Repeat('0', 1) == [HexDigit(0)];
    } else {
      assert Hex(v / 16) == [HexDigit(v / 16)];
    }
  }

  /** The digits of several channels, written one after the other. */
  function HexOf(cs: seq<Channel>): string {
    if cs == [] then "" else HexOf(cs[..|cs| - 1]) + Hex2(cs[|cs| - 1])
  }

  /** The colour code of one pixel. */
  function HexCode(p: Rgba, alpha: bool): string {
    if p.a == 0 then "transparent" else "#" + HexOf(Channels(p, alpha))
  }

  /** `rgba_to_hex(rgba_tuple, alpha)`. */
  method RgbaToHex(p: Rgba, alpha: bool) returns (code: string)
    ensures code == HexCode(p, alpha)
  {
    var output := "";
    if p.a == 0 {
      return "transparent";
    }
    var values: seq<Channel> := [p.r, p.g, p.b, p.a];
    if !alpha {
      values := values[..|values| - 1];
    }
    assert values == Channels(p, alpha);
    for i := 0 to |values|
      invariant output == HexOf(values[..i])
    {
      assert values[..i + 1][..i] == values[..i];
      output := output + ZFill(Hex(values[i]), 2);
    }
    assert values[..|values|] == values;
    code := "#" + output;
  }

  /** Channel `k` read back from digits `2k` and `2k + 1` of the written channels. */
  lemma {:induction false} HexOfDigits(cs: seq<Channel>)
    ensures |HexOf(cs)| == 2 * |cs|
    ensures forall k :: 0 <= k < |cs| ==>
      16 * HexValue(HexOf(cs)[2 * k]) + HexValue(HexOf(cs)[2 * k + 1]) == cs[k]
  {
    if cs != [] {
      var init := cs[..|cs| - 1];
      HexOfDigits(init);
      Hex2Digits(cs[|cs| - 1]);
      var h := HexOf(cs);
      forall k | 0 <= k < |cs|
        ensures 16 * HexValue(h[2 * k]) + HexValue(h[2 * k + 1]) == cs[k]
      {
        if k < |init| {
          assert h[2 * k] == HexOf(init)[2 * k] && h[2 * k + 1] == HexOf(init)[2 * k + 1];
        }
      }
    }
  }

  /** The channel that digits `1 + 2k` and `2 + 2k` of a colour code stand for. */
  function ChannelAt(code: string, k: nat): int
    requires 2 + 2 * k < |code|
  {
    16 * HexValue(code[1 + 2 * k]) + HexValue(code[2 + 2 * k])
  }

  /**
   * A visible pixel's code is `#` and two digits per written channel (7 or 9
   * characters), and every channel can be read back from it.
   */
  lemma HexCodeDecodes(p: Rgba, alpha: bool)
    requires p.a != 0
    ensures |HexCode(p, alpha)| == if alpha then 9 else 7
    ensures HexCode(p, alpha)[0] == '#'
    ensures forall k :: 0 <= k < |Channels(p, alpha)| ==> ChannelAt(HexCode(p, alpha), k) == Channels(p, alpha)[k]
  {
    var cs := Channels(p, alpha);
    HexOfDigits(cs);
    var code := HexCode(p, alpha);
    forall k | 0 <= k < |cs|
      ensures ChannelAt(code, k) == cs[k]
    {
      assert code[1 + 2 * k] == HexOf(cs)[2 * k];
      assert code[2 + 2 * k] == HexOf(cs)[2 * k + 1];
    }
  }

  /** `transparent` is the code of exactly the pixels whose alpha is 0. */
  lemma TransparentIffClear(p: Rgba, alpha: bool)
    ensures HexCode(p, alpha) == "transparent" <==> p.a == 0
  {
    if p.a != 0 {
      assert HexCode(p, alpha)[0] == '#';
    }
  }

  /** Two visible pixels share a code only when their written channels agree. */
  lemma HexCodeInjective(p: Rgba, q: Rgba, alpha: bool)
    requires p.a != 0 && q.a != 0
    requires HexCode(p, alpha) == HexCode(q, alpha)
    ensures Channels(p, alpha) == Channels(q, alpha)
  {
    HexCodeDecodes(p, alpha);
    HexCodeDecodes(q, alpha);
    var cp, cq := Channels(p, alpha), Channels(q, alpha);
    forall k | 0 <= k < |cp|
      ensures cp[k] == cq[k]
    {
      assert cp[k] == ChannelAt(HexCode(p, alpha), k);
    }
  }

  /** The code of every pixel. */
  function Codes(pixels: seq<Rgba>, alpha: bool): (r: seq<string>)
    ensures |r| == |pixels|
    ensures forall i :: 0 <= i < |pixels| ==> r[i] == HexCode(pixels[i], alpha)
  {
    seq(|pixels|, i requires 0 <= i < |pixels| => HexCode(pixels[i], alpha))
  }

  /** The keys of a dict filled with `xs` in order: each value once, at its first appearance. */
  function Unique(xs: seq<string>): seq<string> {
    if xs == [] then []
    else
      var u := Unique(xs[..|xs| - 1]);
      if xs[|xs| - 1] in u then u else u + [xs[|xs| - 1]]
  }

  /** The colour list: `transparent` first, then the codes of the pixels. */
  function TableOf(pixels: seq<Rgba>, alpha: bool): seq<string> {
    Unique(["transparent"] + Codes(pixels, alpha))
  }

  /** The list holds each value of `xs` and nothing else. */
  lemma {:induction false} UniqueMembers(xs: seq<string>)
    ensures forall x :: x in Unique(xs) <==> x in xs
  {
    if xs != [] {
      UniqueMembers(xs[..|xs| - 1]);
      assert xs == xs[..|xs| - 1] + [xs[|xs| - 1]];
    }
  }

  /** No value is listed twice. */
  lemma {:induction false} UniqueDistinct(xs: seq<string>)
    ensures forall i, j :: 0 <= i < j < |Unique(xs)| ==> Unique(xs)[i] != Unique(xs)[j]
  {
    if xs != [] {
      UniqueDistinct(xs[..|xs| - 1]);
    }
  }

  /** The first value comes first. */
  lemma {:induction false} UniqueFirst(xs: seq<string>)
    requires xs != []
    ensures Unique(xs) != [] && Unique(xs)[0] == xs[0]
  {
    var init := xs[..|xs| - 1];
    if init != [] {
      UniqueFirst(init);
    } else {
      UniqueMembers(init);
    }
  }

  /** Listed values keep the order of their first appearances. */
  lemma {:induction false} UniqueOrder(xs: seq<string>)
    ensures forall x :: x in Unique(xs) ==> x in xs
    ensures forall i, j :: 0 <= i < j < |Unique(xs)| ==> IndexOf(xs, Unique(xs)[i]) < IndexOf(xs, Unique(xs)[j])
  {
    UniqueMembers(xs);
    if xs != [] {
      var init, last := xs[..|xs| - 1], xs[|xs| - 1];
      var u := Unique(init);
      UniqueOrder(init);
      UniqueMembers(init);
      assert xs == init + [last];
      forall x | x in init
        ensures IndexOf(xs, x) == IndexOf(init, x)
      {
        IndexOfExtended(init, last, x);
      }
      if last in u {
        assert Unique(xs) == u;
      } else {
        assert Unique(xs) == u + [last];
        IndexOfLast(init, last);
        forall i, j | 0 <= i < j < |u| + 1
          ensures IndexOf(xs, (u + [last])[i]) < IndexOf(xs, (u + [last])[j])
        {
          assert (u + [last])[i] == u[i] && u[i] in init;
          if j < |u| {
            assert (u + [last])[j] == u[j];
          }
        }
      }
    }
  }

  /** Filling a dict with the keys of another dict adds them in that dict's order. */
  lemma {:induction false} UniqueOfUnique(xs: seq<string>, ys: seq<string>)
    ensures Unique(xs + Unique(ys)) == Unique(xs + ys)
    decreases |ys|
  {
    if ys == [] {
      assert Unique(ys) == [];
    } else {
      var init, last := ys[..|ys| - 1], ys[|ys| - 1];
      UniqueOfUnique(xs, init);
      UniqueMembers(init);
      UniqueMembers(xs + init);
      UniqueMembers(xs + Unique(init));
      assert (xs + ys)[..|xs + ys| - 1] == xs + init;
      if last !in Unique(init) {
        assert (xs + (Unique(init) + [last]))[..|xs| + |Unique(init)|] == xs + Unique(init);
        assert xs + (Unique(init) + [last]) == (xs + Unique(init)) + [last];
      }
    }
  }

  /** The list is never longer than its input. */
  lemma {:induction false} UniqueLength(xs: seq<string>)
    ensures |Unique(xs)| <= |xs|
  {
    if xs != [] {
      UniqueLength(xs[..|xs| - 1]);
    }
  }

  lemma IndexOfExtended(xs: seq<string>, y: string, x: string)
    requires x in xs
    ensures IndexOf(xs + [y], x) == IndexOf(xs, x)
  {
    assert (xs + [y])[IndexOf(xs, x)] == x;
  }

  lemma IndexOfLast(xs: seq<string>, y: string)
    requires y !in xs
    ensures IndexOf(xs + [y], y) == |xs|
  {
    assert (xs + [y])[|xs|] == y;
  }

  /** A pixel's text: its position in the list minus one, or `.` when that is -1. */
  function PixelText(colors: seq<string>, code: string): string
    requires code in colors
  {
    var color := IndexOf(colors, code) - 1;
    if color == -1 then "." else NatToString(color)
  }

  /** The sprite before it is cut into rows. */
  function SpriteText(codes: seq<string>, colors: seq<string>): string
    requires forall i :: 0 <= i < |codes| ==> codes[i] in colors
  {
    if codes == [] then "" else SpriteText(codes[..|codes| - 1], colors) + PixelText(colors, codes[|codes| - 1])
  }

  /** `textwrap.wrap(s, width)` for text without whitespace: consecutive rows of `width` characters. */
  function Wrap(s: string, width: nat): seq<string>
    requires width >= 1
    decreases |s|
  {
    if s == [] then []
    else if |s| <= width then [s]
    else [s[..width]] + Wrap(s[width..], width)
  }

  /** The rows put back together are the text; every row but the last is full and none is empty. */
  lemma {:induction false} WrapRows(s: string, width: nat)
    requires width >= 1
    ensures Concat(Wrap(s, width)) == s
    ensures forall i :: 0 <= i < |Wrap(s, width)| ==> 1 <= |Wrap(s, width)[i]| <= width
    ensures forall i :: 0 <= i < |Wrap(s, width)| - 1 ==> |Wrap(s, width)[i]| == width
    decreases |s|
  {
    if |s| > width {
      WrapRows(s[width..], width);
      ConcatAppend([s[..width]], Wrap(s[width..], width));
      ConcatSingle(s[..width]);
      assert s[..width] + s[width..] == s;
    } else if s != [] {
      ConcatSingle(s);
    }
  }

  /** The sprite: the pixel texts cut into rows of `width` and joined with newlines. */
  function SpriteOf(pixels: seq<Rgba>, width: nat, alpha: bool): string
    requires width >= 1
  {
    var colors := TableOf(pixels, alpha);
    UniqueMembers(["transparent"] + Codes(pixels, alpha));
    Join(Wrap(SpriteText(Codes(pixels, alpha), colors), width), "\n")
  }

  /** The loop that fills the colour dict. */
  method ColorTable(pixels: seq<Rgba>, alpha: bool) returns (colors: seq<string>)
    ensures colors == TableOf(pixels, alpha)
  {
    var all := ["transparent"] + Codes(pixels, alpha);
    colors := ["transparent"];
    assert all[..1] == ["transparent"];
    assert Unique(all[..1]) == ["transparent"] by {
      assert all[..1][..0] == [];
    }
    for i := 0 to |pixels|
      invariant colors == Unique(all[..i + 1])
    {
      var code := RgbaToHex(pixels[i], alpha);
      assert all[i + 1] == code;
      UniqueNext(all, i + 1, colors, code);
      if code !in colors {
        colors := colors + [code];
      }
    }
    assert all[..|pixels| + 1] == all;
  }

  lemma UniqueNext(xs: seq<string>, i: nat, u: seq<string>, x: string)
    requires i < |xs| && u == Unique(xs[..i]) && x == xs[i]
    ensures Unique(xs[..i + 1]) == if x in u then u else u + [x]
  {
    assert xs[..i + 1][..i] == xs[..i];
  }

  /** `pixel_list_to_sprite(pixel_values, width, alpha)`: the sprite and the colour list. */
  method PixelListToSprite(pixels: seq<Rgba>, width: nat, alpha: bool) returns (sprite: string, colors: seq<string>)
    requires width >= 1
    ensures colors == TableOf(pixels, alpha)
    ensures sprite == SpriteOf(pixels, width, alpha)
  {
    colors := ColorTable(pixels, alpha);
    UniqueMembers(["transparent"] + Codes(pixels, alpha));
    var text := SpriteString(pixels, alpha, colors);
    sprite := Join(Wrap(text, width), "\n");
  }

  /** The loop that writes one text per pixel. */
  method SpriteString(pixels: seq<Rgba>, alpha: bool, colors: seq<string>) returns (text: string)
    requires forall i :: 0 <= i < |pixels| ==> Codes(pixels, alpha)[i] in colors
    ensures text == SpriteText(Codes(pixels, alpha), colors)
  {
    ghost var codes := Codes(pixels, alpha);
    text := "";
    for i := 0 to |pixels|
      invariant text == SpriteText(codes[..i], colors)
    {
      var code := RgbaToHex(pixels[i], alpha);
      assert code == codes[i] && code in colors;
      var color := IndexOf(colors, code) - 1;
      var pixelText := if color == -1 then "." else NatToString(color);
      SpriteTextNext(codes, colors, i, code, text, pixelText);
      text := text + pixelText;
    }
    assert codes[..|pixels|] == codes;
  }

  lemma SpriteTextNext(codes: seq<string>, colors: seq<string>, i: nat, code: string, text: string, pixelText: string)
    requires forall j :: 0 <= j < |codes| ==> codes[j] in colors
    requires i < |codes| && code == codes[i] && text == SpriteText(codes[..i], colors)
    requires pixelText == if IndexOf(colors, code) - 1 == -1 then "." else NatToString(IndexOf(colors, code) - 1)
    ensures text + pixelText == SpriteText(codes[..i + 1], colors)
  {
    assert codes[..i + 1][..i] == codes[..i];
  }

  /** The character a pixel gets when the list is short: `.` or one decimal digit. */
  function PixelChar(colors: seq<string>, code: string): (c: char)
    requires code in colors && |colors| <= 11
    ensures c == '.' <==> code == colors[0]
    ensures c != '.' ==> IsDigit(c) && 1 + (c as int - '0' as int) < |colors| && colors[1 + (c as int - '0' as int)] == code
  {
    var k := IndexOf(colors, code);
    if k == 0 then '.' else DigitChar(k - 1)
  }

  /**
   * With at most ten colours besides `transparent`, every pixel is written
   * as one character, `PixelChar`: `.` exactly for `transparent`, and
   * otherwise the digit `d` with `colors[d + 1]` the pixel's code.
   */
  lemma {:induction false} SpriteOneCharEach(codes: seq<string>, colors: seq<string>)
    requires forall i :: 0 <= i < |codes| ==> codes[i] in colors
    requires |colors| <= 11 && colors != [] && colors[0] == "transparent"
    ensures |SpriteText(codes, colors)| == |codes|
    ensures forall i :: 0 <= i < |codes| ==> SpriteText(codes, colors)[i] == PixelChar(colors, codes[i])
  {
    if codes != [] {
      var init, last := codes[..|codes| - 1], codes[|codes| - 1];
      SpriteOneCharEach(init, colors);
      var k := IndexOf(colors, last);
      if k > 0 {
        assert NatToString(k - 1) == [DigitChar(k - 1)];
      }
      assert PixelText(colors, last) == [PixelChar(colors, last)];
      assert SpriteText(codes, colors) == SpriteText(init, colors) + [PixelChar(colors, last)];
      OneCharStep(SpriteText(init, colors), init, colors, last);
      SplitLast(codes);
    }
  }

  /** The induction step of `SpriteOneCharEach`: one more pixel, one more character. */
  lemma OneCharStep(text: string, init: seq<string>, colors: seq<string>, last: string)
    requires last in colors && |colors| <= 11
    requires forall i :: 0 <= i < |init| ==> init[i] in colors
    requires |text| == |init| && forall i :: 0 <= i < |init| ==> text[i] == PixelChar(colors, init[i])
    ensures forall i :: 0 <= i < |init + [last]| ==> (text + [PixelChar(colors, last)])[i] == PixelChar(colors, (init + [last])[i])
  {
  }

  /**
   * `image_to_object`'s second pass: more than ten entries in the list
   * (transparent included) means quantizing to 11 colours when some pixel is
   * transparent and to 10 otherwise.
   */
  function QuantizeTo(colors: seq<string>, sprite: string): Option<nat> {
    if |colors| > 10 then Some(if '.' in sprite then 11 else 10) else None
  }

  /** The pixels the object is finally written from; `quantize` stands for the image library. */
  function FinalPixels(pixels: seq<Rgba>, width: nat, alpha: bool, quantize: (seq<Rgba>, nat) -> seq<Rgba>): seq<Rgba>
    requires width >= 1
  {
    match QuantizeTo(TableOf(pixels, alpha), SpriteOf(pixels, width, alpha))
    case None => pixels
    case Some(k) => quantize(pixels, k)
  }

  /**
   * The object text: name, the colours other than `transparent`, the sprite;
   * stripped, so no whitespace at either end and stripping again changes nothing.
   */
  function ObjectOf(name: string, pixels: seq<Rgba>, width: nat, alpha: bool, quantize: (seq<Rgba>, nat) -> seq<Rgba>): (r: string)
    requires width >= 1
    ensures r == [] || (!IsSpace(r[0]) && !IsSpace(r[|r| - 1]))
    ensures Strip(r) == r
  {
    var final := FinalPixels(pixels, width, alpha, quantize);
    var colors := TableOf(final, alpha);
    StripIdempotent(name + "\n" + Join(colors[1..], " ") + "\n" + SpriteOf(final, width, alpha));
    Strip(name + "\n" + Join(colors[1..], " ") + "\n" + SpriteOf(final, width, alpha))
  }

  /** `image_to_object(file, name, alpha)` once the image is read into `pixels` of the given width. */
  method ImageToObject(name: string, pixels: seq<Rgba>, width: nat, alpha: bool, quantize: (seq<Rgba>, nat) -> seq<Rgba>)
    returns (obj: string)
    requires width >= 1
    ensures obj == ObjectOf(name, pixels, width, alpha, quantize)
  {
    var sprite, colors := PixelListToSprite(pixels, width, alpha);
    var final := pixels;
    if |colors| > 10 {
      if '.' in sprite {
        final := quantize(pixels, 11);
      } else {
        final := quantize(pixels, 10);
      }
      sprite, colors := PixelListToSprite(final, width, alpha);
    }
    TableStartsTransparent(final, alpha);
    var listed := colors[1..];
    obj := Strip(name + "\n" + Join(listed, " ") + "\n" + sprite);
  }

  /** `transparent` is always listed first, so `colors.pop("transparent")` drops exactly the head. */
  lemma TableStartsTransparent(pixels: seq<Rgba>, alpha: bool)
    ensures TableOf(pixels, alpha) != [] && TableOf(pixels, alpha)[0] == "transparent"
    ensures "transparent" !in TableOf(pixels, alpha)[1..]
  {
    UniqueFirst(["transparent"] + Codes(pixels, alpha));
    UniqueDistinct(["transparent"] + Codes(pixels, alpha));
  }

  /** At most ten colours besides `transparent`: the image is not quantized. */
  lemma FewColoursKept(pixels: seq<Rgba>, width: nat, alpha: bool, q1: (seq<Rgba>, nat) -> seq<Rgba>, q2: (seq<Rgba>, nat) -> seq<Rgba>)
    requires width >= 1
    requires |TableOf(pixels, alpha)| <= 10
    ensures FinalPixels(pixels, width, alpha, q1) == pixels
    ensures ObjectOf("", pixels, width, alpha, q1) == ObjectOf("", pixels, width, alpha, q2)
  {
  }

  /**
   * When the pixels finally written have at most ten visible colours, sprite
   * digit `d` names the `d`-th listed colour (counting from 0) and `.` marks
   * exactly the transparent pixels.
   */
  lemma ListedColourNamed(pixels: seq<Rgba>, alpha: bool, i: nat)
    requires |TableOf(pixels, alpha)| <= 11 && i < |pixels|
    ensures forall j :: 0 <= j < |pixels| ==> Codes(pixels, alpha)[j] in TableOf(pixels, alpha)
    ensures |SpriteText(Codes(pixels, alpha), TableOf(pixels, alpha))| == |pixels|
    ensures SpriteText(Codes(pixels, alpha), TableOf(pixels, alpha))[i] == PixelChar(TableOf(pixels, alpha), HexCode(pixels[i], alpha))
    ensures var c := SpriteText(Codes(pixels, alpha), TableOf(pixels, alpha))[i];
      && (c == '.' <==> pixels[i].a == 0)
      && (c != '.' ==> TableOf(pixels, alpha)[1..][c as int - '0' as int] == HexCode(pixels[i], alpha))
  {
    var codes := Codes(pixels, alpha);
    var table := TableOf(pixels, alpha);
    UniqueMembers(["transparent"] + codes);
    TableStartsTransparent(pixels, alpha);
    SpriteOneCharEach(codes, table);
    TransparentIffClear(pixels[i], alpha);
  }
}
