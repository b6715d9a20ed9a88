/** The text of an SVG image made of one-row rectangles, and its two renderers:
    off-chain from hex strings, and on-chain from bytes through a small buffer. */
module SvgText {
  import opened Hex
  import opened SvgBuilder

  function Decimal(n: nat): string {
    if n < 10 then [DIGITS[n]] else Decimal(n / 10) + [DIGITS[n % 10]]
  }

  function Attribute(name: string, value: string): string {
    " " + name + "=\"" + value + "\""
  }

  function RectText(width: string, x: string, y: string, color: string): string {
    "<rect" + Attribute("width", width) + Attribute("height", "10") + Attribute("x", x) + Attribute("y", y)
    + Attribute("fill", "#" + color) + " />"
  }

  function Header(background: string): string {
    "<svg" + Attribute("width", "320") + Attribute("height", "320") + Attribute("viewBox", "0 0 320 320")
    + Attribute("xmlns", "http://www.w3.org/2000/svg") + Attribute("shape-rendering", "crispEdges") + ">"
    + "<rect" + Attribute("width", "100%") + Attribute("height", "100%") + Attribute("fill", "#" + background) + " />"
  }

  function SvgOf(background: string, rects: string): string {
    Header(background) + rects + "</svg>"
  }

  /** A missing palette entry prints as `undefined`. */
  function ColorName(palette: seq<string>, i: nat): string {
    if i < |palette| then palette[i] else "undefined"
  }

  /** Where run `n` starts. */
  function Position(image: DecodedImage, n: nat): (nat, nat)
    requires n <= |image.rects|
  {
    if n == 0 then (image.bounds.left, image.bounds.top)
    else
      var (x, y) := Position(image, n - 1);
      Advance(image.bounds, x, y, image.rects[n - 1].0)
  }

  /** The text of run `i`: nothing when it is transparent. */
  function RunText(image: DecodedImage, palette: seq<string>, i: nat): string
    requires i < |image.rects|
  {
    var (length, colorIndex) := image.rects[i];
    var (x, y) := Position(image, i);
    if colorIndex == 0 then ""
    else RectText(Decimal(10 * length), Decimal(10 * x), Decimal(10 * y), ColorName(palette, colorIndex))
  }

  /** The text of the first `n` runs. */
  function RunsText(image: DecodedImage, palette: seq<string>, n: nat): string
    requires n <= |image.rects|
  {
    if n == 0 then "" else RunsText(image, palette, n - 1) + RunText(image, palette, n - 1)
  }

  function ImageText(image: DecodedImage, palette: seq<string>): string {
    RunsText(image, palette, |image.rects|)
  }

  // ---------------------------------------------------------------- off-chain

  function Join(pieces: seq<string>): string {
    if pieces == [] then "" else Join(pieces[..|pieces| - 1]) + pieces[|pieces| - 1]
  }

  function PartsText(parts: seq<string>, palette: seq<string>, n: nat): string
    requires n <= |parts| && forall i :: 0 <= i < |parts| ==> WellFormed(parts[i])
  {
    if n == 0 then "" else PartsText(parts, palette, n - 1) + ImageText(DecodeImage(parts[n - 1]), palette)
  }

  lemma JoinOne(pieces: seq<string>, piece: string)
    ensures Join(pieces + [piece]) == Join(pieces) + piece
  {
    assert (pieces + [piece])[..|pieces|] == pieces;
  }

  lemma JoinNothing(image: DecodedImage, palette: seq<string>)
    ensures Join([]) == RunsText(image, palette, 0)
  {
  }

  lemma RunsTextStep(image: DecodedImage, palette: seq<string>, i: nat)
    requires i < |image.rects|
    ensures RunsText(image, palette, i + 1) == RunsText(image, palette, i) + RunText(image, palette, i)
    ensures image.rects[i].1 == 0 ==> RunsText(image, palette, i + 1) == RunsText(image, palette, i)
  {
    hide RectText, Decimal;
  }

  method PartText(image: DecodedImage, paletteColors: seq<string>) returns (text: string)
    ensures text == ImageText(image, paletteColors)
  {
    hide RectText, Decimal, Join, RunsText;
    JoinNothing(image, paletteColors);
    var svgRects: seq<string> := [];
    var currentX, currentY := image.bounds.left, image.bounds.top;
    for i := 0 to |image.rects|
      invariant (currentX, currentY) == Position(image, i)
      invariant Join(svgRects) == RunsText(image, paletteColors, i)
    {
      var (length, colorIndex) := image.rects[i];
      var hexColor := ColorName(paletteColors, colorIndex);
      if colorIndex != 0 {
        var rect := RectText(Decimal(length * 10), Decimal(currentX * 10), Decimal(currentY * 10), hexColor);
        JoinOne(svgRects, rect);
        svgRects := svgRects + [rect];
      }
      RunsTextStep(image, paletteColors, i);
      currentX := currentX + length;
      if currentX == image.bounds.right {
        currentX := image.bounds.left;
        currentY := currentY + 1;
      }
    }
    text := Join(svgRects);
  }

  method BuildSVG(parts: seq<string>, paletteColors: seq<string>, bgColor: string) returns (svg: string)
    requires forall i :: 0 <= i < |parts| ==> WellFormed(parts[i])
    ensures svg == SvgOf(bgColor, PartsText(parts, paletteColors, |parts|))
  {
    hide Header, ImageText, DecodeImage;
    var result := Header(bgColor);
    for p := 0 to |parts|
      invariant result == Header(bgColor) + PartsText(parts, paletteColors, p)
    {
      var text := PartText(DecodeImage(parts[p]), paletteColors);
      result := result + text;
    }
    svg := result + "</svg>";
  }

  // ----------------------------------------------------------------- on-chain

  const LOOKUP: seq<string> := [
    "0", "10", "20", "30", "40", "50", "60", "70",
    "80", "90", "100", "110", "120", "130", "140", "150",
    "160", "170", "180", "190", "200", "210", "220", "230",
    "240", "250", "260", "270", "280", "290", "300", "310",
    "320"]

  /** The table holds ten times its index in decimal. */
  lemma LookupIsDecimal(i: nat)
    requires i <= 32
    ensures |LOOKUP| == 33 && LOOKUP[i] == Decimal(10 * i)
  {
    TimesTen(i);
    if i < 10 {
      assert Decimal(i) == [DIGITS[i]];
    } else {
      assert Decimal(i) == [DIGITS[i / 10], DIGITS[i % 10]];
    }
  }

  lemma TimesTen(i: nat)
    ensures i > 0 ==> Decimal(10 * i) == Decimal(i) + "0"
  {
    if i > 0 {
      assert (10 * i) / 10 == i && (10 * i) % 10 == 0;
    }
  }
}
