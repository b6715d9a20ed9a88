/** The on-chain renderer: it decodes bytes, looks coordinates up in a table, and
    writes rectangles through a buffer of sixteen strings. */
module MultiPartRLEToSVG {
  import opened Basics
  import opened Hex
  import opened ImageEncodings
  import opened SvgBuilder
  import opened SvgText

  // ----------------------------------------------------------------- decoding

  /** Enough bytes for the header, and whole runs after it. */
  predicate Decodable(image: seq<nat>) {
    |image| >= 5 && |image| % 2 == 1
  }

  lemma {:induction false} PairsAt(bytes: seq<nat>, i: nat)
    requires |bytes| % 2 == 0
    ensures |Pairs(bytes)| == |bytes| / 2
    ensures 2 * i + 1 < |bytes| ==> Pairs(bytes)[i] == (bytes[2 * i], bytes[2 * i + 1])
  {
    if |bytes| >= 2 {
      PairsAt(bytes[2..], if i > 0 then i - 1 else 0);
    }
  }

  method DecodeRLEImage(image: seq<nat>) returns (r: Outcome, decoded: DecodedImage)
    requires IsBytes(image)
    ensures r == if Decodable(image) then Success else Panicked
    ensures r.Success? ==> decoded == DecodeBytes(image)
  {
    decoded := DecodedImage(0, Bounds(0, 0, 0, 0), []);
    if |image| < 5 { return Panicked, decoded; }
    var paletteIndex, bounds := image[0], Bounds(image[1], image[2], image[3], image[4]);
    var rects := new (nat, nat)[(|image| - 5) / 2];
    var cursor := 0;
    var i := 5;
    while i < |image|
      invariant 5 <= i <= |image| + 1 && i == 5 + 2 * cursor
      invariant cursor <= rects.Length
      invariant forall k :: 0 <= k < cursor ==> 6 + 2 * k < |image| && rects[k] == (image[5 + 2 * k], image[6 + 2 * k])
    {
      if cursor >= rects.Length || i + 1 >= |image| { return Panicked, decoded; }
      rects[cursor] := (image[i], image[i + 1]);
      cursor := cursor + 1;
      i := i + 2;
    }
    DecodedPairs(image, rects[..]);
    return Success, DecodedImage(paletteIndex, bounds, rects[..]);
  }

  lemma DecodedPairs(image: seq<nat>, rects: seq<(nat, nat)>)
    requires Decodable(image) && |rects| == (|image| - 5) / 2
    requires forall k :: 0 <= k < |rects| ==> rects[k] == (image[5 + 2 * k], image[6 + 2 * k])
    ensures rects == Pairs(image[5..])
  {
    PairsAt(image[5..], 0);
    forall k: nat | k < |rects| ensures rects[k] == Pairs(image[5..])[k] {
      PairsAt(image[5..], k);
    }
  }

  // ------------------------------------------------------------------- buffer

  /** The text of the first `n` buffered strings, four to a rectangle. */
  function ChunkText(buffer: seq<string>, n: nat): string
    requires n <= |buffer| && n % 4 == 0
  {
    if n == 0 then ""
    else ChunkText(buffer, n - 4) + RectText(buffer[n - 4], buffer[n - 3], buffer[n - 2], buffer[n - 1])
  }

  lemma {:induction false} ChunkSame(a: seq<string>, b: seq<string>, n: nat)
    requires n <= |a| && n <= |b| && n % 4 == 0 && a[..n] == b[..n]
    ensures ChunkText(a, n) == ChunkText(b, n)
  {
    if n > 0 {
      assert a[..n - 4] == a[..n][..n - 4] && b[..n - 4] == b[..n][..n - 4];
      assert forall i :: n - 4 <= i < n ==> a[i] == a[..n][i] && b[i] == b[..n][i];
      ChunkSame(a, b, n - 4);
    }
  }

  method GetChunk(cursor: nat, buffer: array<string>) returns (chunk: string)
    requires cursor <= buffer.Length && cursor % 4 == 0
    ensures chunk == ChunkText(buffer[..], cursor)
  {
    hide RectText;
    chunk := "";
    var i := 0;
    while i < cursor
      invariant i <= cursor && i % 4 == 0
      invariant chunk == ChunkText(buffer[..], i)
    {
      chunk := chunk + RectText(buffer[i], buffer[i + 1], buffer[i + 2], buffer[i + 3]);
      i := i + 4;
    }
  }

  // ---------------------------------------------------------------- rendering

  /** A drawn run the table and the palette can name. */
  predicate RunInRange(image: DecodedImage, palette: seq<string>, i: nat)
    requires i < |image.rects|
  {
    var (length, colorIndex) := image.rects[i];
    var (x, y) := Position(image, i);
    colorIndex != 0 ==> length <= 32 && x <= 32 && y <= 32 && colorIndex < |palette|
  }

  predicate InRange(image: DecodedImage, palette: seq<string>, n: nat)
    requires n <= |image.rects|
  {
    forall i: nat :: i < n ==> RunInRange(image, palette, i)
  }

  /** Fills the next four slots of the buffer. */
  method BufferRun(buffer: array<string>, cursor: nat, image: DecodedImage, palette: seq<string>, i: nat, x: nat,
      y: nat)
    returns (r: Outcome)
    requires buffer.Length == 16 && cursor < 16 && cursor % 4 == 0
    requires i < |image.rects| && (x, y) == Position(image, i) && image.rects[i].1 != 0
    modifies buffer
    ensures r == if RunInRange(image, palette, i) then Success else Panicked
    ensures r.Success? ==>
            ChunkText(buffer[..], cursor + 4) == ChunkText(old(buffer[..]), cursor) + RunText(image, palette, i)
  {
    hide RectText, Decimal;
    var (length, colorIndex) := image.rects[i];
    if length >= |LOOKUP| || x >= |LOOKUP| || y >= |LOOKUP| || colorIndex >= |palette| { return Panicked; }
    buffer[cursor] := LOOKUP[length];
    buffer[cursor + 1] := LOOKUP[x];
    buffer[cursor + 2] := LOOKUP[y];
    buffer[cursor + 3] := palette[colorIndex];
    LookupIsDecimal(length);
    LookupIsDecimal(x);
    LookupIsDecimal(y);
    ChunkSame(buffer[..], old(buffer[..]), cursor);
    return Success;
  }

  /** One part: the buffer is flushed whenever it is full and once at the end. */
  method RenderPart(image: DecodedImage, palette: seq<string>) returns (r: Outcome, part: string)
    ensures r == if InRange(image, palette, |image.rects|) then Success else Panicked
    ensures r.Success? ==> part == ImageText(image, palette)
  {
    hide RectText, Decimal, RunText, RunInRange, ChunkText, RunsText;
    NothingBuffered(image, palette);
    var currentX, currentY := image.bounds.left, image.bounds.top;
    var cursor := 0;
    var buffer := new string[16](_ => "");
    part := "";
    for i := 0 to |image.rects|
      invariant (currentX, currentY) == Position(image, i)
      invariant cursor < 16 && cursor % 4 == 0
      invariant part + ChunkText(buffer[..], cursor) == RunsText(image, palette, i)
      invariant InRange(image, palette, i)
    {
      var (length, colorIndex) := image.rects[i];
      RunsTextStep(image, palette, i);
      if colorIndex != 0 {
        r := BufferRun(buffer, cursor, image, palette, i, currentX, currentY);
        if !r.Success? { return; }
        cursor := cursor + 4;
        if cursor >= 16 {
          var chunk := GetChunk(cursor, buffer);
          part := part + chunk;
          cursor := 0;
          NoChunk(buffer[..]);
        }
      } else {
        TransparentRun(image, palette, i);
      }
      currentX := currentX + length;
      if currentX == image.bounds.right {
        currentX := image.bounds.left;
        currentY := currentY + 1;
      }
    }
    if cursor != 0 {
      var chunk := GetChunk(cursor, buffer);
      part := part + chunk;
    }
    return Success, part;
  }

  lemma NothingBuffered(image: DecodedImage, palette: seq<string>)
    ensures RunsText(image, palette, 0) == ""
    ensures forall buffer: seq<string> :: ChunkText(buffer, 0) == ""
  {
  }

  lemma NoChunk(buffer: seq<string>)
    ensures ChunkText(buffer, 0) == ""
  {
  }

  lemma TransparentRun(image: DecodedImage, palette: seq<string>, i: nat)
    requires i < |image.rects| && image.rects[i].1 == 0
    ensures RunText(image, palette, i) == "" && RunInRange(image, palette, i)
  {
  }

  type Palettes = map<nat, seq<string>>

  function PaletteOf(palettes: Palettes, image: DecodedImage): seq<string> {
    At(palettes, image.paletteIndex, [])
  }

  /** The text of the first `n` parts, each with the palette it names. */
  function ChainText(parts: seq<seq<nat>>, palettes: Palettes, n: nat): string
    requires n <= |parts| && forall i :: 0 <= i < n ==> Decodable(parts[i])
  {
    if n == 0 then ""
    else
      assert Decodable(parts[n - 1]);
      var image := DecodeBytes(parts[n - 1]);
      ChainText(parts, palettes, n - 1) + ImageText(image, PaletteOf(palettes, image))
  }

  /** What the renderer can draw: at most 255 parts, since its part counter is one
      byte, each decodable and in range of the table and of its palette. */
  predicate PartRenders(part: seq<nat>, palettes: Palettes) {
    Decodable(part) &&
    var image := DecodeBytes(part);
    InRange(image, PaletteOf(palettes, image), |image.rects|)
  }

  predicate Renders(parts: seq<seq<nat>>, palettes: Palettes) {
    |parts| <= 255 && forall i :: 0 <= i < |parts| ==> PartRenders(parts[i], palettes)
  }

  /** Five bytes and whole runs; runs of colours other than 0 start and end within 32
      by 32 pixels and have their colour in the palette the first byte names. */
  predicate Drawable(part: seq<nat>, palettes: Palettes) {
    && |part| >= 5 && |part| % 2 == 1
    && var image := DecodeBytes(part);
       forall n: nat :: n < |image.rects| && image.rects[n].1 != 0 ==>
         var (x, y) := Position(image, n);
         image.rects[n].0 <= 32 && x <= 32 && y <= 32 && image.rects[n].1 < |At(palettes, part[0], [])|
  }

  lemma PartExactly(part: seq<nat>, palettes: Palettes)
    ensures PartRenders(part, palettes) <==> Drawable(part, palettes)
  {
    hide Position, Pairs;
    if Decodable(part) {
      var image := DecodeBytes(part);
      assert forall n: nat :: n < |image.rects| ==>
          (RunInRange(image, PaletteOf(palettes, image), n) <==>
           (image.rects[n].1 != 0 ==> var (x, y) := Position(image, n);
              image.rects[n].0 <= 32 && x <= 32 && y <= 32 && image.rects[n].1 < |At(palettes, part[0], [])|));
    }
  }

  /** The renderer succeeds on at most 255 parts, each of which it can draw. */
  lemma RendersExactly(parts: seq<seq<nat>>, palettes: Palettes)
    ensures Renders(parts, palettes) <==>
            |parts| <= 255 && forall i :: 0 <= i < |parts| ==> Drawable(parts[i], palettes)
  {
    hide PartRenders, Drawable;
    forall i | 0 <= i < |parts| ensures PartRenders(parts[i], palettes) <==> Drawable(parts[i], palettes) {
      PartExactly(parts[i], palettes);
    }
  }

  method GenerateSVGRects(parts: seq<seq<nat>>, palettes: Palettes) returns (r: Outcome, rects: string)
    requires forall i :: 0 <= i < |parts| ==> IsBytes(parts[i])
    ensures r == if Renders(parts, palettes) then Success else Panicked
    ensures r.Success? ==> rects == ChainText(parts, palettes, |parts|)
  {
    hide ImageText, DecodeBytes, InRange;
    rects := "";
    var p := 0;
    while p < |parts|
      invariant p <= |parts| && p <= 255
      invariant forall i :: 0 <= i < p ==> PartRenders(parts[i], palettes)
      invariant rects == ChainText(parts, palettes, p)
    {
      var decoded, image := DecodeRLEImage(parts[p]);
      if !decoded.Success? { return Panicked, rects; }
      var rendered, part := RenderPart(image, PaletteOf(palettes, image));
      if !rendered.Success? { return Panicked, rects; }
      rects := rects + part;
      if p == 255 { return Panicked, rects; }
      p := p + 1;
    }
    return Success, rects;
  }

  method GenerateSVG(parts: seq<seq<nat>>, background: string, palettes: Palettes) returns (r: Outcome, svg: string)
    requires forall i :: 0 <= i < |parts| ==> IsBytes(parts[i])
    ensures r == if Renders(parts, palettes) then Success else Panicked
    ensures r.Success? ==> svg == SvgOf(background, ChainText(parts, palettes, |parts|))
  {
    hide Header, ChainText;
    var rects;
    r, rects := GenerateSVGRects(parts, palettes);
    svg := Header(background) + rects + "</svg>";
  }

  /** The parts as the hex strings the off-chain renderer takes. */
  function HexParts(parts: seq<seq<nat>>): (hex: seq<string>)
    requires forall i :: 0 <= i < |parts| ==> IsBytes(parts[i])
    ensures |hex| == |parts| && forall i :: 0 <= i < |parts| ==> hex[i] == "0x" + BytesToHex(parts[i])
  {
    seq(|parts|, i requires 0 <= i < |parts| => "0x" + BytesToHex(parts[i]))
  }

  /** Whenever the on-chain renderer succeeds on parts that use palette 0, both
      renderers write the same SVG. */
  lemma {:induction false} SameText(parts: seq<seq<nat>>, palettes: Palettes, n: nat)
    requires n <= |parts| && forall i :: 0 <= i < |parts| ==>
             IsBytes(parts[i]) && Decodable(parts[i]) && parts[i][0] == 0
    ensures forall i :: 0 <= i < |parts| ==> WellFormed(HexParts(parts)[i])
    ensures ChainText(parts, palettes, n) == PartsText(HexParts(parts), At(palettes, 0, []), n)
  {
    hide BytesToHex, WellFormed, ImageText, DecodeImage;
    forall i | 0 <= i < |parts|
      ensures WellFormed(HexParts(parts)[i]) && DecodeImage(HexParts(parts)[i]) == DecodeBytes(parts[i])
    {
      DecodeHex(parts[i]);
    }
    if n > 0 {
      SameText(parts, palettes, n - 1);
    }
  }

  /** What `GenerateSVG` writes on-chain is what `BuildSVG` writes off-chain. */
  lemma RenderersAgree(parts: seq<seq<nat>>, background: string, palettes: Palettes)
    requires (forall i :: 0 <= i < |parts| ==> IsBytes(parts[i]) && parts[i] != [] && parts[i][0] == 0)
             && Renders(parts, palettes)
    ensures var hex := HexParts(parts);
      && (forall i :: 0 <= i < |hex| ==> WellFormed(hex[i]))
      && SvgOf(background, ChainText(parts, palettes, |parts|)) ==
         SvgOf(background, PartsText(hex, At(palettes, 0, []), |hex|))
  {
    hide SvgOf, InRange, DecodeBytes;
    SameText(parts, palettes, |parts|);
  }
}
