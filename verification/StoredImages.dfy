/** Every image the encoder stores can be rendered on-chain, and what is rendered
    is the picture it was made from. */
module StoredImages {
  import opened Basics
  import opened Hex
  import opened RunLength
  import opened ImageEncodings
  import opened SvgBuilder
  import opened CodecRows
  import opened CodecRoundTrip
  import opened SvgText
  import opened MultiPartRLEToSVG
  import opened Images
  import opened PngCollectionEncoder
  import opened SvgReader

  /** Painting from (x, y) on, every drawn run is in range of the table and the palette. */
  predicate DrawsInRange(rects: seq<(nat, nat)>, b: Bounds, colors: nat, x: nat, y: nat) {
    rects == [] ||
    (&& (rects[0].1 != 0 ==> rects[0].0 <= 32 && x <= 32 && y <= 32 && rects[0].1 < colors)
     && var (x', y') := Advance(b, x, y, rects[0].0);
        DrawsInRange(rects[1..], b, colors, x', y'))
  }

  lemma {:induction false} DrawsFrom(image: DecodedImage, palette: seq<string>, n: nat)
    requires n <= |image.rects|
    requires DrawsInRange(image.rects, image.bounds, |palette|, image.bounds.left, image.bounds.top)
    ensures var (x, y) := Position(image, n); DrawsInRange(image.rects[n..], image.bounds, |palette|, x, y)
    ensures InRange(image, palette, n)
  {
    if n > 0 {
      DrawsFrom(image, palette, n - 1);
      assert image.rects[n - 1..][0] == image.rects[n - 1] && image.rects[n - 1..][1..] == image.rects[n..];
    } else {
      assert image.rects[0..] == image.rects;
    }
  }

  ghost predicate Colored(rs: seq<Rect>, colors: nat) {
    forall i :: 0 <= i < |rs| ==> rs[i].colorIndex < colors
  }

  lemma {:induction false} StretchInRange(rs: seq<Rect>, rest: seq<(nat, nat)>, b: Bounds, colors: nat, x: nat, y: nat)
    requires Positive(rs) && rs != [] && x + |Expand(rs)| == b.right <= 32 && y <= 32 && Colored(rs, colors)
    requires DrawsInRange(rest, b, colors, b.left, y + 1)
    ensures DrawsInRange(PairsOf(rs) + rest, b, colors, x, y)
  {
    hide Expand;
    var all := PairsOf(rs) + rest;
    assert all[0] == (rs[0].length, rs[0].colorIndex) && all[1..] == PairsOf(rs[1..]) + rest;
    ExpandHead(rs, x, y);
    if |rs| == 1 {
      assert rs[1..] == [] && PairsOf(rs[1..]) + rest == rest;
      NothingStretch(x, y);
    } else {
      ExpandHead(rs[1..], x, y);
      StretchInRange(rs[1..], rest, b, colors, x + rs[0].length, y);
    }
  }

  lemma {:induction false} ExpandColored(rs: seq<Rect>, colors: nat)
    requires Positive(rs) && forall x :: 0 <= x < |Expand(rs)| ==> Expand(rs)[x] < colors
    ensures Colored(rs, colors)
  {
    if rs != [] {
      var head, tail := Repeat(rs[0].colorIndex, rs[0].length), Expand(rs[1..]);
      assert Expand(rs) == head + tail;
      assert Expand(rs)[0] == rs[0].colorIndex;
      forall x | 0 <= x < |tail| ensures tail[x] < colors { assert Expand(rs)[|head| + x] == tail[x]; }
      ExpandColored(rs[1..], colors);
    }
  }

  ghost predicate UsesColors(pix: Pixels, w: nat, colors: nat)
    requires Shape(pix, w)
  {
    forall y, x :: 0 <= y < |pix| && 0 <= x < w ==> pix[y][x] < colors
  }

  lemma {:induction false} RowsInRange(pix: Pixels, w: nat, colors: nat, lo: nat)
    requires Fits(pix, w) && UsesColors(pix, w, colors) && w <= 32 && |pix| <= 32
    requires EncodedBounds(pix, w).left < EncodedBounds(pix, w).right
    requires EncodedBounds(pix, w).top <= lo <= KeptEnd(pix, w)
    ensures DrawsInRange(TailPairs(pix, w, lo), EncodedBounds(pix, w), colors, EncodedBounds(pix, w).left, lo)
    decreases KeptEnd(pix, w) - lo
  {
    hide EncodedBounds, KeptEnd, KeptRows, Runs, RowBytes, Expand, Pairs, TrimRects;
    var b, end := EncodedBounds(pix, w), KeptEnd(pix, w);
    KeptDomain(pix, w);
    RightWithin(pix, w);
    if lo == end {
      assert RowsBytes(KeptRows(pix, w), lo, end, b.left, b.right, w) == [];
      NoPairs();
    } else {
      RowsPairs(pix, w, lo);
      var rs := TrimRects(Runs(pix[lo]), |Runs(pix[lo])|, b.left, b.right, w);
      RowsInRange(pix, w, colors, lo + 1);
      assert rs != [] by { NoPairs(); }
      ExpandColored(rs, colors);
      StretchInRange(rs, TailPairs(pix, w, lo + 1), b, colors, b.left, lo);
    }
  }

  /** With transparent outer columns, an image that is not empty has its bounds in
      strict order, or keeps no row. */
  lemma StrictBounds(pix: Pixels, w: nat)
    requires Fits(pix, w) && ClearSides(pix, w) && !IsEmptyImage(pix, w)
    requires EncodedBounds(pix, w).top < KeptEnd(pix, w)
    ensures EncodedBounds(pix, w).left < EncodedBounds(pix, w).right
  {
    VerticalMeaning(pix, w, |pix|);
    var y := EncodedBounds(pix, w).top;
    if Clear(pix[y]) {
      if !ClearBelow(pix, |pix|) { var t, e := FindSpan(pix); assert false; }
      RowZeroOnly(pix, w);
    } else {
      var x := OpaqueRow(pix[y]);
      ColumnsCovered(pix, w, y, x);
    }
  }

  /** The encoding of an image of at most 32 by 32 pixels with transparent outer
      columns always renders on-chain: no table or palette access goes out of
      range. */
  lemma EncodedImageRenders(pix: Pixels, w: nat, palettes: Palettes)
    requires Fits(pix, w) && ClearSides(pix, w) && w <= 32 && |pix| <= 32
    requires UsesColors(pix, w, |At(palettes, 0, [])|)
    ensures IsBytes(EncodedBytes(pix, w)) && Encoded(pix, w) == "0x" + BytesToHex(EncodedBytes(pix, w))
    ensures PartRenders(EncodedBytes(pix, w), palettes)
  {
    hide KeptRows, RowsBytes, Encoded, BytesToHex, Fits, Pairs, UsesColors, ClearSides, IsEmptyImage, EncodedBounds,
         KeptEnd;
    var b := EncodedBounds(pix, w);
    ShapeOf(pix, w);
    BoundsSmall(pix, w);
    EncodedIsBytes(pix, w);
    EncodedDecodes(pix, w);
    var image, palette := DecodeBytes(EncodedBytes(pix, w)), At(palettes, 0, []);
    if !IsEmptyImage(pix, w) {
      if b.top < KeptEnd(pix, w) {
        StrictBounds(pix, w);
        RowsInRange(pix, w, |palette|, b.top);
      } else {
        NoRows(pix, w);
      }
    }
    DrawsFrom(image, palette, |image.rects|);
  }

  /** The bytes decode to what the hex string does. */
  lemma EncodedDecodes(pix: Pixels, w: nat)
    requires Fits(pix, w)
    ensures Decodable(EncodedBytes(pix, w))
    ensures var d := DecodeBytes(EncodedBytes(pix, w));
      if IsEmptyImage(pix, w) then d == DecodedImage(0, Bounds(0, 0, 0, 0), [])
      else d == DecodedImage(0, EncodedBounds(pix, w), TailPairs(pix, w, EncodedBounds(pix, w).top))
  {
    hide EncodedBounds, KeptEnd, KeptRows, RowsBytes, IsEmptyImage, Fits, Pairs;
    var b, bytes := EncodedBounds(pix, w), EncodedBytes(pix, w);
    KeptDomain(pix, w);
    EvenBytes(KeptRows(pix, w), b.top, KeptEnd(pix, w), b.left, b.right, w);
    NoPairs();
    if IsEmptyImage(pix, w) {
      assert bytes[5..] == [];
    } else {
      assert bytes[5..] == RowsBytes(KeptRows(pix, w), b.top, KeptEnd(pix, w), b.left, b.right, w);
    }
  }

  lemma PictureColors(e: PNGCollectionEncoder, png: Png)
    requires Numbered(e.colors.keys, e.colors.index) && Known(e.colors.index, png.rgbaAt, png.width, png.height)
             && png.width > 0
    ensures UsesColors(PixelsOf(e.colors.index, png.rgbaAt, png.width, png.height), png.width, |e.colors.keys|)
  {
    hide Numbered, Known;
    var pix := PixelsOf(e.colors.index, png.rgbaAt, png.width, png.height);
    forall y, x | 0 <= y < |pix| && 0 <= x < png.width ensures pix[y][x] < |e.colors.keys| {
      IndexMeaning(e.colors.keys, e.colors.index, png, x, y);
    }
  }

  /** For every image ever encoded from a picture of at most 32 by 32 pixels with
      its margins: with the encoder's palette stored as palette 0, the on-chain
      renderer never runs out of range on it. */
  lemma StoredImageRenders(e: PNGCollectionEncoder, name: string, palettes: Palettes) returns (bytes: seq<nat>)
    requires e.Valid() && name in e.images && |e.colors.keys| <= 256 && At(palettes, 0, []) == e.colors.keys
    requires 0 < e.sources[name].width <= 32 && e.sources[name].height <= 32 && PngMargins(e.sources[name])
    ensures IsBytes(bytes) && e.images[name] == "0x" + BytesToHex(bytes) && PartRenders(bytes, palettes)
  {
    hide Numbered, Known, PngMargins, Encoded, EncodedBytes, GoodMargins, ClearSides, Fits, UsesColors, PartRenders,
         BytesToHex, IsBytes;
    var png, index, keys := e.sources[name], e.colors.index, e.colors.keys;
    var pix := PixelsOf(index, png.rgbaAt, png.width, png.height);
    assert EncodedUnder(index, png, e.images[name]);
    PictureFits(keys, index, png);
    ShapeOf(pix, png.width);
    PictureMargins(keys, index, png);
    PictureColors(e, png);
    EncodedImageRenders(pix, png.width, palettes);
    bytes := EncodedBytes(pix, png.width);
  }

  // ---------------------------------------------------- the picture in the document

  /** A fill that names a colour: a number sign, and the digits of red, green and blue. */
  predicate NamesColor(fill: string, c: RGBAColor) {
    && |fill| == 7 && fill[0] == '#' && IsHex(fill[1..])
    && ParseHex(fill[1..][0..2]) == Some(c.r) && ParseHex(fill[1..][2..4]) == Some(c.g)
    && ParseHex(fill[1..][4..6]) == Some(c.b)
  }

  /** Among the names the palette holds, only one names a colour. */
  lemma NameOfColor(name: string, c: RGBAColor)
    requires IsLowerHex(name)
    ensures NamesColor("#" + name, c) <==> name == HexOf(c)
  {
    hide ParseHex, RgbToHex, ByteToHex;
    var fill := "#" + name;
    assert fill[1..] == name;
    RgbMeaning(c.r, c.g, c.b);
    if NamesColor(fill, c) {
      ColorDigits(name, c);
    }
  }

  lemma ColorDigits(name: string, c: RGBAColor)
    requires |name| == 6 && IsLowerHex(name) && IsHex(name)
    requires ParseHex(name[0..2]) == Some(c.r) && ParseHex(name[2..4]) == Some(c.g) && ParseHex(name[4..6]) == Some(c.b)
    ensures name == HexOf(c)
  {
    hide ParseHex, ByteToHex, ToPaddedHex;
    LowerByte(name[0..2], c.r);
    LowerByte(name[2..4], c.g);
    LowerByte(name[4..6], c.b);
    PaddedByte(c.r); PaddedByte(c.g); PaddedByte(c.b);
    assert name == name[0..2] + name[2..4] + name[4..6];
  }

  /** The unit at (i, j) is painted exactly when it belongs to an opaque pixel of the
      picture, and then in its colour. */
  ghost predicate UnitOf(r: Picture, png: Png, i: nat, j: nat) {
    var x, y := i / 10, j / 10;
    && ((i, j) in r <==> x < png.width && y < png.height && Opaque(png, x, y))
    && ((i, j) in r ==> NamesColor(r[(i, j)], png.rgbaAt(x, y)))
  }

  /** A document of 320 by 320 units whose rectangles, over a full background, paint
      exactly the opaque pixels of the picture, each ten units wide and high. */
  ghost predicate IsDrawing(svg: string, background: string, png: Png) {
    var es := Elements(svg);
    && |es| >= 2 && es[0].tag == "svg" && es[1].tag == "rect"
    && es[0].attributes == map["width" := "320", "height" := "320", "viewBox" := "0 0 320 320",
                               "xmlns" := "http://www.w3.org/2000/svg", "shape-rendering" := "crispEdges"]
    && es[1].attributes == map["width" := "100%", "height" := "100%", "fill" := "#" + background]
    && forall i: nat, j: nat :: UnitOf(Raster(es[2..]), png, i, j)
  }

  /** What the canvas paints at one pixel is right. */
  predicate PixelOf(c: Canvas, keys: seq<string>, png: Png, x: nat, y: nat) {
    && ((x, y) in c <==> x < png.width && y < png.height && Opaque(png, x, y))
    && ((x, y) in c ==> c[(x, y)] < |keys| && keys[c[(x, y)]] == HexOf(png.rgbaAt(x, y)))
  }

  lemma PictureByPixels(c: Canvas, keys: seq<string>, png: Png)
    ensures IsPicture(c, keys, png) <==> forall x: nat, y: nat :: PixelOf(c, keys, png, x, y)
  {
    hide HexOf, Opaque;
    if forall x: nat, y: nat :: PixelOf(c, keys, png, x, y) {
      forall p | p in c
        ensures p.0 < png.width && p.1 < png.height && Opaque(png, p.0, p.1)
        ensures c[p] < |keys| && keys[c[p]] == HexOf(png.rgbaAt(p.0, p.1))
      {
        assert PixelOf(c, keys, png, p.0, p.1);
      }
      forall x: nat, y: nat | x < png.width && y < png.height && Opaque(png, x, y) ensures (x, y) in c {
        assert PixelOf(c, keys, png, x, y);
      }
    }
  }

  lemma UnitByPixel(r: Picture, c: Canvas, keys: seq<string>, index: map<string, nat>, png: Png, i: nat, j: nat)
    requires Numbered(keys, index) && Shown(r, Coloured(c, keys), i, j)
    ensures UnitOf(r, png, i, j) <==> PixelOf(c, keys, png, i / 10, j / 10)
  {
    hide HexOf, Opaque, NamesColor;
    var at := (i / 10, j / 10);
    if at in c {
      if c[at] < |keys| {
        NameOfColor(keys[c[at]], png.rgbaAt(at.0, at.1));
      } else {
        NoColor(png.rgbaAt(at.0, at.1));
      }
    }
  }

  lemma NoColor(c: RGBAColor)
    ensures !NamesColor("#" + "undefined", c)
  {
  }

  lemma DrawingByPixels(r: Picture, c: Canvas, keys: seq<string>, index: map<string, nat>, png: Png)
    requires Numbered(keys, index) && AtTen(r, Coloured(c, keys))
    ensures (forall i: nat, j: nat :: UnitOf(r, png, i, j)) <==> IsPicture(c, keys, png)
  {
    hide UnitOf, PixelOf, Numbered, Coloured, IsPicture, Shown;
    PictureByPixels(c, keys, png);
    forall i: nat, j: nat ensures UnitOf(r, png, i, j) <==> PixelOf(c, keys, png, i / 10, j / 10) {
      assert Shown(r, Coloured(c, keys), i, j);
      UnitByPixel(r, c, keys, index, png, i, j);
    }
    if forall i: nat, j: nat :: UnitOf(r, png, i, j) {
      forall x: nat, y: nat ensures PixelOf(c, keys, png, x, y) {
        assert UnitOf(r, png, 10 * x, 10 * y);
        assert (10 * x) / 10 == x && (10 * y) / 10 == y;
      }
    }
  }

  lemma PaletteIsPlain(keys: seq<string>, index: map<string, nat>)
    requires Numbered(keys, index)
    ensures Plain(keys)
  {
    forall c | c in keys ensures Unquoted(c) {
      var i :| 0 <= i < |keys| && keys[i] == c;
      assert IsLowerHex(keys[i]);
    }
  }

  /** For every image ever encoded, under the palette of now: the document made from
      what was stored draws the picture it was made from, if and only if the
      picture has its margins. */
  lemma StoredImageDrawn(e: PNGCollectionEncoder, name: string, background: string)
    requires e.Valid() && name in e.images && |e.colors.keys| <= 256 && Unquoted(background)
    requires 0 < e.sources[name].width < 256 && e.sources[name].height <= 256
    ensures WellFormed(e.images[name])
    ensures var svg := SvgOf(background, PartsText([e.images[name]], e.colors.keys, 1));
      IsDrawing(svg, background, e.sources[name]) <==> PngMargins(e.sources[name])
  {
    hide IsPicture, PngMargins, Painted, DecodeImage, WellFormed, Elements, SvgOf, Raster, AtTen, Coloured, UnitOf;
    hide EncodedUnder, Numbered;
    var parts, keys, png := [e.images[name]], e.colors.keys, e.sources[name];
    StoredImageRoundTrips(e, name);
    PaletteIsPlain(keys, e.colors.index);
    BuiltDraws(parts, keys, background);
    var c := Painted(DecodeImage(parts[0]));
    OnePart(parts, keys);
    var r := Raster(Elements(SvgOf(background, PartsText(parts, keys, 1)))[2..]);
    DrawingByPixels(r, c, keys, e.colors.index, png);
  }

  lemma OnePart(parts: seq<string>, keys: seq<string>)
    requires |parts| == 1 && WellFormed(parts[0])
    ensures forall i :: 0 <= i < |parts| ==> WellFormed(parts[i])
    ensures PartsPicture(parts, keys, 1) == Coloured(Painted(DecodeImage(parts[0])), keys)
  {
    hide Painted, DecodeImage, WellFormed, Coloured;
    assert PartsPicture(parts, keys, 0) == map[];
    assert map[] + Coloured(Painted(DecodeImage(parts[0])), keys) == Coloured(Painted(DecodeImage(parts[0])), keys);
  }
}
