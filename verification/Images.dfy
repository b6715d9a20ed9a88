/** The image encoder: it walks the pixels of an image, growing the shared palette
    and the runs of each row, and tracks the bounds as it goes. */
module Images {
  import opened Basics
  import opened Hex
  import opened RunLength
  import opened ImageEncodings

  type Byte = b: nat | b < 256

  datatype RGBAColor = RGBAColor(r: Byte, g: Byte, b: Byte, a: Byte)

  type GetRgba = (nat, nat) -> RGBAColor

  function HexOf(c: RGBAColor): string {
    RgbToHex(c.r, c.g, c.b)
  }

  lemma HexOfLower(c: RGBAColor)
    ensures |HexOf(c)| == 6 && IsLowerHex(HexOf(c))
  {
    hide RgbToHex;
    RgbMeaning(c.r, c.g, c.b);
  }

  // ------------------------------------------------------------- the palette

  /** Colours are numbered in the order they were inserted; the empty string,
      inserted first, stands for transparent. */
  ghost predicate Numbered(keys: seq<string>, index: map<string, nat>) {
    && keys != [] && keys[0] == "" && (forall i :: 0 <= i < |keys| ==> IsLowerHex(keys[i]))
    && (forall i :: 0 <= i < |keys| ==> keys[i] in index && index[keys[i]] == i)
    && (forall k :: k in index ==> index[k] < |keys| && keys[index[k]] == k)
  }

  /** A map from colours to palette positions that keeps insertion order. */
  class ColorMap {
    var keys: seq<string>
    var index: map<string, nat>

    constructor ()
      ensures Numbered(keys, index) && keys == [""]
    {
      keys, index := [""], map["" := 0];
    }

    method Insert(color: string)
      requires Numbered(keys, index) && color !in index && IsLowerHex(color)
      modifies this
      ensures Numbered(keys, index)
      ensures keys == old(keys) + [color] && index == old(index)[color := |old(keys)|]
    {
      index := index[color := |keys|];
      keys := keys + [color];
    }
  }

  /** Later palettes extend earlier ones. */
  ghost predicate Extends(before: map<string, nat>, after: map<string, nat>) {
    forall k :: k in before ==> k in after && after[k] == before[k]
  }

  /** Every new colour is that of some pixel of the image. */
  ghost predicate AddsOnly(before: map<string, nat>, after: map<string, nat>, f: GetRgba, w: nat, h: nat) {
    forall k :: k in after && k !in before ==> HasColor(f, w, h, k)
  }

  ghost predicate HasColor(f: GetRgba, w: nat, h: nat, k: string) {
    exists x: nat, y: nat :: x < w && y < h && HexOf(f(x, y)) == k
  }

  lemma ColorAt(f: GetRgba, w: nat, h: nat, x: nat, y: nat)
    requires x < w && y < h
    ensures HasColor(f, w, h, HexOf(f(x, y)))
  {
  }

  /** The colour index of a pixel under a palette. */
  function PixelIndex(index: map<string, nat>, c: RGBAColor): nat {
    if c.a == 0 then 0 else At<string, nat>(index, HexOf(c), 0)
  }

  function PixelRow(index: map<string, nat>, f: GetRgba, y: nat, n: nat): (row: seq<nat>)
    ensures |row| == n && forall x :: 0 <= x < n ==> row[x] == PixelIndex(index, f(x, y))
  {
    seq<nat>(n, (x: nat) requires x < n => PixelIndex(index, f(x, y)))
  }

  /** The colour indices of an image under a palette. */
  function PixelsOf(index: map<string, nat>, f: GetRgba, w: nat, h: nat): (pix: Pixels)
    ensures |pix| == h && forall y :: 0 <= y < h ==> pix[y] == PixelRow(index, f, y, w)
  {
    seq(h, (y: nat) requires y < h => PixelRow(index, f, y, w))
  }

  /** Every colour of the first `n` pixels of row `y` is in the palette. */
  ghost predicate RowKnown(index: map<string, nat>, f: GetRgba, y: nat, n: nat) {
    forall x: nat :: x < n ==> HexOf(f(x, y)) in index
  }

  ghost predicate Known(index: map<string, nat>, f: GetRgba, w: nat, h: nat) {
    forall y: nat :: y < h ==> RowKnown(index, f, y, w)
  }

  lemma RowKept(before: map<string, nat>, after: map<string, nat>, f: GetRgba, y: nat, n: nat)
    requires Extends(before, after) && RowKnown(before, f, y, n)
    ensures RowKnown(after, f, y, n) && PixelRow(after, f, y, n) == PixelRow(before, f, y, n)
  {
  }

  /** An image keeps its colour indices when the palette grows. */
  lemma PixelsKept(before: map<string, nat>, after: map<string, nat>, f: GetRgba, w: nat, h: nat)
    requires Extends(before, after) && Known(before, f, w, h)
    ensures Known(after, f, w, h) && PixelsOf(after, f, w, h) == PixelsOf(before, f, w, h)
  {
    forall y: nat | y < h ensures RowKnown(after, f, y, w) && PixelRow(after, f, y, w) == PixelRow(before, f, y, w) {
      RowKept(before, after, f, y, w);
    }
  }

  // -------------------------------------------------------------- the encoder

  class Image {
    const width: nat
    const height: nat
    var rows: map<nat, ImageRow>
    var bounds: Bounds
    var rle: Option<string>

    constructor (width: nat, height: nat)
      ensures this.width == width && this.height == height
      ensures rows == map[] && bounds == Bounds(0, 0, 0, 0) && rle == None
    {
      this.width, this.height := width, height;
      rows, bounds, rle := map[], Bounds(0, 0, 0, 0), None;
    }

    method AppendPixelToRect(colorIndex: nat, y: nat)
      modifies `rows
      ensures var before := At(old(rows), y, ImageRow([], 0, 0));
        rows == old(rows)[y := before.(rects := AppendPixel(before.rects, colorIndex))]
    {
      if y !in rows {
        rows := rows[y := ImageRow([], 0, 0)];
      }
      var rects := rows[y].rects;
      if |rects| == 0 || rects[|rects| - 1].colorIndex != colorIndex {
        rows := rows[y := rows[y].(rects := rects + [Rect(1, colorIndex)])];
        return;
      }
      rows := rows[y := rows[y].(rects := rects[|rects| - 1 := Rect(rects[|rects| - 1].length + 1, colorIndex)])];
    }

    method UpdateImageBounds(y: nat)
      requires y in rows && rows[y].rects != [] && rows[y].rects[|rows[y].rects| - 1].length <= width
      requires bounds.top > 0 ==> bounds.top < y
      modifies `rows, `bounds
      ensures rows == old(rows)[y := RowOf(old(rows)[y].rects, width)]
      ensures (bounds.top, bounds.bottom) ==
              StepVertical(old(bounds.top), old(bounds.bottom), y, IsEmptyRow(old(rows)[y].rects, width))
      ensures bounds.left == old(bounds.left) && bounds.right == old(bounds.right)
    {
      var rects := rows[y].rects;
      if !IsEmptyRow(rects, width) && bounds.top == 0 {
        bounds := bounds.(top := y);
      }
      if bounds.top != 0 {
        if IsEmptyRow(rects, width) {
          if bounds.bottom == 0 {
            bounds := bounds.(bottom := y - 1);
          }
        } else if y == 31 {
          bounds := bounds.(bottom := y);
        } else {
          bounds := bounds.(bottom := 0);
        }
      }
      rows := rows[y := rows[y].(left := rects[0].length, right := width - rects[|rects| - 1].length)];
    }

    method DeleteEmptyRows()
      modifies `rows
      ensures rows == map y | y in old(rows) && bounds.top <= y && (y <= bounds.bottom || y >= height) :: old(rows)[y]
    {
      for i := 0 to bounds.top
        invariant rows == map y | y in old(rows) && i <= y :: old(rows)[y]
      {
        rows := rows - {i};
      }
      var i := height - 1;
      while i > bounds.bottom
        invariant i <= height - 1
        invariant rows == map y | y in old(rows) && bounds.top <= y && (y <= i || y >= height) :: old(rows)[y]
        invariant i >= bounds.bottom || i == height - 1
      {
        rows := rows - {i};
        i := i - 1;
      }
    }

    /** One pixel: a new colour enters the palette, whatever its alpha, and the
        pixel lengthens a run or starts one. */
    method EncodePixel(getRgbaAt: GetRgba, x: nat, y: nat, colors: ColorMap, ghost others: map<nat, ImageRow>)
      requires Numbered(colors.keys, colors.index) && RowKnown(colors.index, getRgbaAt, y, x)
      requires y !in others && rows == WithRow(others, colors.index, getRgbaAt, y, x)
      requires x < width && y < height
      modifies `rows, colors
      ensures AddsOnly(old(colors.index), colors.index, getRgbaAt, width, height)
      ensures Numbered(colors.keys, colors.index) && old(colors.keys) <= colors.keys
      ensures Extends(old(colors.index), colors.index) && RowKnown(colors.index, getRgbaAt, y, x + 1)
      ensures rows == WithRow(others, colors.index, getRgbaAt, y, x + 1)
    {
      hide Runs, HexOf, AppendPixel, HasColor;
      ColorAt(getRgbaAt, width, height, x, y);
      var c := getRgbaAt(x, y);
      var hexColor := HexOf(c);
      HexOfLower(c);
      if hexColor !in colors.index {
        colors.Insert(hexColor);
      }
      RowKept(old(colors.index), colors.index, getRgbaAt, y, x);
      RowGrows(colors.index, getRgbaAt, y, x);
      var colorIndex := if c.a == 0 then 0 else colors.index[hexColor];
      AppendPixelToRect(colorIndex, y);
    }

    method AppendRow(getRgbaAt: GetRgba, y: nat, colors: ColorMap)
      requires y !in rows && width > 0 && y < height && Numbered(colors.keys, colors.index)
      modifies `rows, colors
      ensures AddsOnly(old(colors.index), colors.index, getRgbaAt, width, height)
      ensures Numbered(colors.keys, colors.index) && old(colors.keys) <= colors.keys
      ensures Extends(old(colors.index), colors.index) && RowKnown(colors.index, getRgbaAt, y, width)
      ensures rows == old(rows)[y := ImageRow(Runs(PixelRow(colors.index, getRgbaAt, y, width)), 0, 0)]
    {
      for x := 0 to width
        invariant Numbered(colors.keys, colors.index) && old(colors.keys) <= colors.keys
        invariant AddsOnly(old(colors.index), colors.index, getRgbaAt, width, height)
        invariant Extends(old(colors.index), colors.index) && RowKnown(colors.index, getRgbaAt, y, x)
        invariant rows == WithRow(old(rows), colors.index, getRgbaAt, y, x)
      {
        EncodePixel(getRgbaAt, x, y, colors, old(rows));
      }
    }

    /** Rows and bounds after scanning the first `y` rows. */
    ghost predicate Scanned(index: map<string, nat>, f: GetRgba, y: nat)
      reads this
    {
      var pix := PixelsOf(index, f, width, y);
      && rows == ScannedRows(pix, width, y)
      && (bounds.top, bounds.bottom) == Vertical(pix, width, y)
      && bounds.left == 0 && bounds.right == 0
    }

    method ScanRow(getRgbaAt: GetRgba, y: nat, colors: ColorMap)
      requires width > 0 && y < height && Numbered(colors.keys, colors.index)
      requires Known(colors.index, getRgbaAt, width, y) && Scanned(colors.index, getRgbaAt, y)
      modifies `rows, `bounds, colors
      ensures Numbered(colors.keys, colors.index) && old(colors.keys) <= colors.keys
      ensures AddsOnly(old(colors.index), colors.index, getRgbaAt, width, height)
      ensures Extends(old(colors.index), colors.index) && Known(colors.index, getRgbaAt, width, y + 1)
      ensures Scanned(colors.index, getRgbaAt, y + 1)
    {
      hide Vertical, Runs, StepVertical, PixelRow, RowOf, IsEmptyRow, Numbered, AddsOnly;
      AppendRow(getRgbaAt, y, colors);
      PixelsKept(old(colors.index), colors.index, getRgbaAt, width, y);
      RowEnds(PixelRow(colors.index, getRgbaAt, y, width), width);
      UpdateImageBounds(y);
      ScanGrows(colors.index, getRgbaAt, width, y);
    }

    /** How encoding ends: the bounds of a row without pixels cannot be read. */
    function EncodeOutcome(): Outcome {
      if width == 0 && height > 0 then Panicked else Success
    }

    method ScanRows(getRgbaAt: GetRgba, colors: ColorMap) returns (r: Outcome)
      requires rows == map[] && bounds == Bounds(0, 0, 0, 0) && Numbered(colors.keys, colors.index)
      modifies `rows, `bounds, colors
      ensures r == EncodeOutcome()
      ensures AddsOnly(old(colors.index), colors.index, getRgbaAt, width, height)
      ensures Numbered(colors.keys, colors.index) && old(colors.keys) <= colors.keys
      ensures Extends(old(colors.index), colors.index)
      ensures r.Success? ==> Known(colors.index, getRgbaAt, width, height) && Scanned(colors.index, getRgbaAt, height)
    {
      for y := 0 to height
        invariant y == 0 || width > 0
        invariant AddsOnly(old(colors.index), colors.index, getRgbaAt, width, height)
        invariant Numbered(colors.keys, colors.index) && old(colors.keys) <= colors.keys
        invariant Extends(old(colors.index), colors.index) && Known(colors.index, getRgbaAt, width, y)
        invariant Scanned(colors.index, getRgbaAt, y)
      {
        if width == 0 { return Panicked; }
        ScanRow(getRgbaAt, y, colors);
      }
      return Success;
    }

    /** The encoding is that of the colour indices of all pixels under the palette
        as it stands afterwards; nothing but colours of this image was added. */
    method Encode(getRgbaAt: GetRgba, colors: ColorMap) returns (r: Outcome, encoded: string)
      requires rows == map[] && bounds == Bounds(0, 0, 0, 0) && Numbered(colors.keys, colors.index)
      modifies `rows, `bounds, colors
      ensures r == EncodeOutcome()
      ensures AddsOnly(old(colors.index), colors.index, getRgbaAt, width, height)
      ensures Numbered(colors.keys, colors.index) && old(colors.keys) <= colors.keys
      ensures Extends(old(colors.index), colors.index)
      ensures r.Success? ==> Known(colors.index, getRgbaAt, width, height)
                             && encoded == Encoded(PixelsOf(colors.index, getRgbaAt, width, height), width)
    {
      hide Vertical, Runs, RowOf, PixelRow, Numbered, Known, Extends, AddsOnly, RowsBytes, BytesToHex, BoundsToHex;
      r := ScanRows(getRgbaAt, colors);
      if !r.Success? { return r, ""; }
      DeleteEmptyRows();
      ghost var pix := PixelsOf(colors.index, getRgbaAt, width, height);
      DeletedRows(pix, width);
      assert rows == KeptRows(pix, width);
      encoded := EncodeRows(pix);
    }

    /** Bounds the kept rows and writes them. */
    method EncodeRows(ghost pix: Pixels) returns (encoded: string)
      requires |pix| == height && rows == KeptRows(pix, width)
      requires (bounds.top, bounds.bottom) == Vertical(pix, width, |pix|) && bounds.left == 0 && bounds.right == 0
      modifies `bounds
      ensures encoded == Encoded(pix, width)
    {
      hide Vertical, Runs, RowOf, RowsBytes, BytesToHex, BoundsToHex, MinLeft, MaxRight, IsEmptyRow;
      KeptDomain(pix, width);
      KeptCount(pix, width);
      var end := if bounds.bottom + 1 <= height then bounds.bottom + 1 else height;
      var rowCount := |rows|;
      if rowCount != 0 {
        bounds := bounds.(left := MinLeft(rows, bounds.top, end));
        bounds := bounds.(right := MaxRight(rows, bounds.top, end));
        if rowCount == 1 && 0 in rows && IsEmptyRow(rows[0].rects, width) {
          return "0x0000000000";
        }
      }
      assert bounds == EncodedBounds(pix, width);
      var body := WriteRows(end);
      encoded := BoundsToHex(bounds) + body;
    }

    method WriteRows(end: nat) returns (body: string)
      requires forall y: nat :: bounds.top <= y < end ==> y in rows
      ensures body == BytesToHex(RowsBytes(rows, bounds.top, end, bounds.left, bounds.right, width))
    {
      hide BytesToHex, RowBytes;
      body := "";
      var y := bounds.top;
      assert BytesToHex([]) == "" by { NoBytes(); }
      while y < end
        invariant bounds.top <= y
        invariant body + BytesToHex(RowsBytes(rows, y, end, bounds.left, bounds.right, width)) ==
                  BytesToHex(RowsBytes(rows, bounds.top, end, bounds.left, bounds.right, width))
      {
        var bytes := RowBytes(rows[y].rects, bounds.left, bounds.right, width);
        BytesToHexConcat(bytes, RowsBytes(rows, y + 1, end, bounds.left, bounds.right, width));
        body := body + BytesToHex(bytes);
        y := y + 1;
      }
    }

    /** Encodes once; later calls give the stored result. */
    method ToRLE(getRgbaAt: GetRgba, colors: ColorMap) returns (r: Outcome, encoded: string)
      requires Numbered(colors.keys, colors.index)
      requires rle == None ==> rows == map[] && bounds == Bounds(0, 0, 0, 0)
      modifies `rows, `bounds, `rle, colors
      ensures r == if old(rle) == None then EncodeOutcome() else Success
      ensures rle == if r.Success? then Some(encoded) else None
      ensures old(rle) != None ==>
              encoded == old(rle).value && colors.keys == old(colors.keys) && colors.index == old(colors.index)
      ensures old(rle) == None ==>
                && Numbered(colors.keys, colors.index) && old(colors.keys) <= colors.keys
                && Extends(old(colors.index), colors.index)
                && AddsOnly(old(colors.index), colors.index, getRgbaAt, width, height)
                && (r.Success? ==> Known(colors.index, getRgbaAt, width, height)
                                   && encoded == Encoded(PixelsOf(colors.index, getRgbaAt, width, height), width))
    {
      hide Numbered, Known, Extends, AddsOnly, Encoded;
      if rle == None {
        var outcome, result := Encode(getRgbaAt, colors);
        if !outcome.Success? { return outcome, ""; }
        rle := Some(result);
      }
      return Success, rle.value;
    }
  }

  lemma NoBytes()
    ensures BytesToHex([]) == ""
  {
  }

  lemma DeletedRows(pix: Pixels, w: nat)
    ensures var (top, bottom) := Vertical(pix, w, |pix|); var all := ScannedRows(pix, w, |pix|);
      KeptRows(pix, w) == map y | y in all && top <= y && (y <= bottom || y >= |pix|) :: all[y]
  {
  }

  /** Rows are kept exactly when there is one between the bounds; a single row 0
      is the only way to keep one row and row 0. */
  lemma KeptCount(pix: Pixels, w: nat)
    ensures var rows := KeptRows(pix, w);
      && (|rows| != 0 <==> Vertical(pix, w, |pix|).0 < KeptEnd(pix, w))
      && (rows.Keys == {0} <==> |rows| == 1 && 0 in rows)
  {
    var rows := KeptRows(pix, w);
    var (top, bottom) := Vertical(pix, w, |pix|);
    if top < KeptEnd(pix, w) {
      assert top in rows;
    } else {
      assert rows == map[];
    }
    if |rows| == 1 && 0 in rows {
      assert |rows.Keys - {0}| == 0;
    }
  }

  lemma RowEnds(row: seq<nat>, w: nat)
    requires |row| == w > 0
    ensures Runs(row) != [] && Runs(row)[|Runs(row)| - 1].length <= w
  {
    RunsExpand(row);
    Ends(Runs(row));
  }

  /** The rows while row `y` is being appended: it appears with its first pixel. */
  function WithRow(others: map<nat, ImageRow>, index: map<string, nat>, f: GetRgba, y: nat, x: nat)
    : map<nat, ImageRow>
  {
    if x == 0 then others else others[y := ImageRow(Runs(PixelRow(index, f, y, x)), 0, 0)]
  }

  lemma RowGrows(index: map<string, nat>, f: GetRgba, y: nat, x: nat)
    ensures PixelRow(index, f, y, x + 1) == PixelRow(index, f, y, x) + [PixelIndex(index, f(x, y))]
    ensures Runs(PixelRow(index, f, y, x + 1))
            == AppendPixel(Runs(PixelRow(index, f, y, x)), PixelIndex(index, f(x, y)))
    ensures PixelRow(index, f, y, 0) == [] && Runs([]) == []
  {
    var row := PixelRow(index, f, y, x + 1);
    assert row[..x] == PixelRow(index, f, y, x);
  }

  /** The rows after scanning `n` of them. */
  function ScannedRows(pix: Pixels, w: nat, n: nat): map<nat, ImageRow>
    requires n <= |pix|
  {
    map y: nat | y < n :: RowOf(Runs(pix[y]), w)
  }

  lemma {:induction false} VerticalSame(p: Pixels, q: Pixels, w: nat, n: nat)
    requires n <= |p| && n <= |q| && p[..n] == q[..n]
    ensures Vertical(p, w, n) == Vertical(q, w, n)
  {
    if n > 0 {
      assert p[..n - 1] == p[..n][..n - 1] && q[..n - 1] == q[..n][..n - 1];
      assert p[n - 1] == p[..n][n - 1] && q[n - 1] == q[..n][n - 1];
      VerticalSame(p, q, w, n - 1);
    }
  }

  lemma ScanGrows(index: map<string, nat>, f: GetRgba, w: nat, y: nat)
    ensures var p, q := PixelsOf(index, f, w, y), PixelsOf(index, f, w, y + 1);
      && q == p + [PixelRow(index, f, y, w)]
      && Vertical(q, w, y) == Vertical(p, w, y)
      && Vertical(q, w, y + 1) == StepVertical(Vertical(p, w, y).0, Vertical(p, w, y).1, y, IsEmptyRow(Runs(q[y]), w))
      && ScannedRows(q, w, y + 1) == ScannedRows(p, w, y)[y := RowOf(Runs(q[y]), w)]
  {
    var p, q := PixelsOf(index, f, w, y), PixelsOf(index, f, w, y + 1);
    assert q == p + [PixelRow(index, f, y, w)];
    assert q[..y] == p == p[..y];
    VerticalSame(q, p, w, y);
  }
}
