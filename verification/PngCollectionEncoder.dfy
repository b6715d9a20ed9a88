/** Encoding a collection of images over one shared palette. */
module PngCollectionEncoder {
  import opened Basics
  import opened ImageEncodings
  import opened SvgBuilder
  import opened CodecRoundTrip
  import opened Images

  /** A decoded picture, and the palette when it was encoded. */
  datatype Png = Png(width: nat, height: nat, rgbaAt: GetRgba)

  /** `image` is the encoding of the picture under the palette `index`. */
  ghost predicate EncodedUnder(index: map<string, nat>, png: Png, image: string) {
    && Known(index, png.rgbaAt, png.width, png.height)
    && image == Encoded(PixelsOf(index, png.rgbaAt, png.width, png.height), png.width)
  }

  lemma StillEncoded(before: map<string, nat>, after: map<string, nat>, png: Png, image: string)
    requires Extends(before, after) && EncodedUnder(before, png, image)
    ensures EncodedUnder(after, png, image)
  {
    PixelsKept(before, after, png.rgbaAt, png.width, png.height);
  }

  class PNGCollectionEncoder {
    const colors: ColorMap
    var images: map<string, string>
    var folders: map<string, seq<string>>

    /** The picture each stored image was made from. */
    ghost var sources: map<string, Png>

    /** Every image ever encoded is still the encoding of its picture under the
        palette of now, however many images came after it. */
    ghost predicate Valid()
      reads this, colors
    {
      && Numbered(colors.keys, colors.index)
      && images.Keys == sources.Keys
      && (forall name :: name in images ==> EncodedUnder(colors.index, sources[name], images[name]))
    }

    constructor ()
      ensures Valid() && fresh(colors) && images == map[] && folders == map[]
    {
      colors := new ColorMap();
      images, folders, sources := map[], map[], map[];
    }

    /** An image with rows but no columns cannot be encoded and is not stored. */
    method EncodeImage(name: string, png: Png, folder: Option<string>) returns (r: Outcome, rle: string)
      requires Valid()
      modifies this, colors
      ensures Valid() && old(colors.keys) <= colors.keys
      ensures AddsOnly(old(colors.index), colors.index, png.rgbaAt, png.width, png.height)
      ensures r == if png.width == 0 && png.height > 0 then Panicked else Success
      ensures r.Success? ==> images == old(images)[name := rle] && sources == old(sources)[name := png]
      ensures r.Success? ==> folders == match folder
        case None => old(folders)
        case Some(f) => if f == "" then old(folders) else old(folders)[f := At(old(folders), f, []) + [name]]
      ensures !r.Success? ==> images == old(images) && sources == old(sources) && folders == old(folders)
    {
      hide Known, Encoded, Numbered, EncodedUnder, Extends, AddsOnly;
      var image := new Image(png.width, png.height);
      r, rle := image.ToRLE(png.rgbaAt, colors);
      forall n | n in images ensures EncodedUnder(colors.index, sources[n], images[n]) {
        StillEncoded(old(colors.index), colors.index, sources[n], images[n]);
      }
      if !r.Success? { return; }
      NowEncoded(colors.index, png, rle);
      images, sources := images[name := rle], sources[name := png];
      if folder.Some? && folder.value != "" {
        folders := folders[folder.value := At(folders, folder.value, []) + [name]];
      }
    }
  }

  lemma NowEncoded(index: map<string, nat>, png: Png, image: string)
    requires Known(index, png.rgbaAt, png.width, png.height)
    requires image == Encoded(PixelsOf(index, png.rgbaAt, png.width, png.height), png.width)
    ensures EncodedUnder(index, png, image)
  {
  }

  // --------------------------------------------------- back to the picture

  predicate Opaque(png: Png, x: nat, y: nat) {
    png.rgbaAt(x, y).a != 0
  }

  /** The picture's outer columns are transparent, and only its row 0 is opaque
      or its row 0 is transparent and so is its last row unless it is row 31. */
  ghost predicate PngMargins(png: Png)
    requires png.width > 0
  {
    && (forall y: nat :: y < png.height ==> !Opaque(png, 0, y) && !Opaque(png, png.width - 1, y))
    && (RowsTransparent(png, 1, png.height) ||
        (RowsTransparent(png, 0, 1) && (png.height == 32 || RowsTransparent(png, png.height - 1, png.height))))
  }

  ghost predicate RowsTransparent(png: Png, lo: int, hi: int) {
    forall y: nat, x: nat :: lo <= y < hi && x < png.width ==> !Opaque(png, x, y)
  }

  /** The canvas, with the palette, is the picture: it paints each opaque pixel in
      its colour and no transparent one. */
  ghost predicate IsPicture(c: Canvas, keys: seq<string>, png: Png) {
    && (forall p :: p in c ==> p.0 < png.width && p.1 < png.height && Opaque(png, p.0, p.1))
    && (forall p :: p in c ==> c[p] < |keys| && keys[c[p]] == HexOf(png.rgbaAt(p.0, p.1)))
    && (forall x: nat, y: nat :: x < png.width && y < png.height && Opaque(png, x, y) ==> (x, y) in c)
  }

  /** A pixel has a non-zero index exactly when it is opaque, and then the
      palette gives back its colour. */
  lemma IndexMeaning(keys: seq<string>, index: map<string, nat>, png: Png, x: nat, y: nat)
    requires Numbered(keys, index) && Known(index, png.rgbaAt, png.width, png.height) && x < png.width && y < png.height
    ensures var i := PixelsOf(index, png.rgbaAt, png.width, png.height)[y][x];
      && i < |keys| && (i != 0 <==> Opaque(png, x, y))
      && (i != 0 ==> keys[i] == HexOf(png.rgbaAt(x, y)))
  {
    var c := png.rgbaAt(x, y);
    assert RowKnown(index, png.rgbaAt, y, png.width);
    assert HexOf(c) in index;
    HexOfLower(c);
  }

  lemma PictureFits(keys: seq<string>, index: map<string, nat>, png: Png)
    requires Numbered(keys, index) && Known(index, png.rgbaAt, png.width, png.height)
    requires 0 < png.width < 256 && png.height <= 256 && |keys| <= 256
    ensures Fits(PixelsOf(index, png.rgbaAt, png.width, png.height), png.width)
  {
    hide Numbered, Known;
    var pix := PixelsOf(index, png.rgbaAt, png.width, png.height);
    forall y, x | 0 <= y < |pix| && 0 <= x < png.width ensures pix[y][x] < 256 {
      IndexMeaning(keys, index, png, x, y);
    }
  }

  lemma RowsMeaning(keys: seq<string>, index: map<string, nat>, png: Png, lo: nat, hi: nat)
    requires Numbered(keys, index) && Known(index, png.rgbaAt, png.width, png.height) && hi <= png.height
    ensures var pix := PixelsOf(index, png.rgbaAt, png.width, png.height);
      (forall y :: lo <= y < hi ==> Clear(pix[y])) <==> RowsTransparent(png, lo, hi)
  {
    hide Numbered, Known, Opaque, PixelRow;
    var pix := PixelsOf(index, png.rgbaAt, png.width, png.height);
    forall y: nat, x: nat | lo <= y < hi && x < png.width ensures pix[y][x] != 0 <==> Opaque(png, x, y) {
      IndexMeaning(keys, index, png, x, y);
    }
    if RowsTransparent(png, lo, hi) {
    } else {
      var y: nat, x: nat :| lo <= y < hi && x < png.width && Opaque(png, x, y);
      assert pix[y][x] != 0;
    }
  }

  lemma SidesMeaning(keys: seq<string>, index: map<string, nat>, png: Png)
    requires Numbered(keys, index) && Known(index, png.rgbaAt, png.width, png.height) && png.width > 0
    ensures var pix := PixelsOf(index, png.rgbaAt, png.width, png.height);
      ClearSides(pix, png.width) <==> forall y: nat :: y < png.height ==>
          !Opaque(png, 0, y) && !Opaque(png, png.width - 1, y)
  {
    hide Numbered, Known, Opaque, PixelRow;
    var pix := PixelsOf(index, png.rgbaAt, png.width, png.height);
    forall y: nat | y < png.height
      ensures (pix[y][0] == 0 <==> !Opaque(png, 0, y))
              && (pix[y][png.width - 1] == 0 <==> !Opaque(png, png.width - 1, y))
    {
      IndexMeaning(keys, index, png, 0, y);
      IndexMeaning(keys, index, png, png.width - 1, y);
    }
  }

  lemma PictureMargins(keys: seq<string>, index: map<string, nat>, png: Png)
    requires Numbered(keys, index) && Known(index, png.rgbaAt, png.width, png.height) && png.width > 0
    ensures var pix := PixelsOf(index, png.rgbaAt, png.width, png.height);
      ClearSides(pix, png.width) && GoodMargins(pix) <==> PngMargins(png)
  {
    hide Numbered, Known, Opaque, PixelRow, RowsTransparent, Clear, ClearSides;
    var pix, h := PixelsOf(index, png.rgbaAt, png.width, png.height), png.height;
    SidesMeaning(keys, index, png);
    RowsMeaning(keys, index, png, 1, h);
    if h > 0 {
      RowsMeaning(keys, index, png, 0, 1);
      RowsMeaning(keys, index, png, h - 1, h);
    }
  }

  /** A canvas that shows the colour indices is the picture. */
  lemma FaithfulIsPicture(keys: seq<string>, index: map<string, nat>, png: Png, c: Canvas)
    requires Numbered(keys, index) && Known(index, png.rgbaAt, png.width, png.height) && png.width > 0
    ensures Faithful(c, PixelsOf(index, png.rgbaAt, png.width, png.height), png.width) ==> IsPicture(c, keys, png)
    ensures IsPicture(c, keys, png) ==> Faithful(c, PixelsOf(index, png.rgbaAt, png.width, png.height), png.width)
  {
    hide Numbered, Known, Opaque, PixelRow;
    var pix := PixelsOf(index, png.rgbaAt, png.width, png.height);
    forall y: nat, x: nat | y < png.height && x < png.width
      ensures var i := pix[y][x];
        i < |keys| && (i != 0 <==> Opaque(png, x, y)) && (i != 0 ==> keys[i] == HexOf(png.rgbaAt(x, y)))
    {
      IndexMeaning(keys, index, png, x, y);
    }
    if IsPicture(c, keys, png) {
      forall p | p in c ensures p.1 < png.height && p.0 < png.width && c[p] == pix[p.1][p.0] {
        SameColour(keys, index, c[p], pix[p.1][p.0]);
      }
    }
  }

  /** Different palette positions hold different colours. */
  lemma SameColour(keys: seq<string>, index: map<string, nat>, i: nat, j: nat)
    requires Numbered(keys, index) && i < |keys| && j < |keys| && keys[i] == keys[j]
    ensures i == j
  {
  }

  /** For every image ever encoded, under the palette of now: decoding what was
      stored and painting it with the palette gives exactly the opaque pixels of
      the picture in their colours, if and only if the picture has its margins. */
  lemma StoredImageRoundTrips(e: PNGCollectionEncoder, name: string)
    requires e.Valid() && name in e.images && |e.colors.keys| <= 256
    requires 0 < e.sources[name].width < 256 && e.sources[name].height <= 256
    ensures WellFormed(e.images[name])
    ensures IsPicture(Painted(DecodeImage(e.images[name])), e.colors.keys, e.sources[name]) <==>
            PngMargins(e.sources[name])
  {
    hide Numbered, Known, IsPicture, PngMargins, Painted, DecodeImage, WellFormed, Encoded, Faithful, GoodMargins,
         ClearSides, Fits;
    var png, index, keys := e.sources[name], e.colors.index, e.colors.keys;
    var pix := PixelsOf(index, png.rgbaAt, png.width, png.height);
    assert EncodedUnder(index, png, e.images[name]);
    PictureFits(keys, index, png);
    DecodesBack(pix, png.width);
    ShapeOf(pix, png.width);
    RoundTripExactly(pix, png.width);
    PictureMargins(keys, index, png);
    FaithfulIsPicture(keys, index, png, Repainted(pix, png.width));
  }
}
