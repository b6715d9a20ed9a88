/** Decoding and painting an encoded image: what comes back, and exactly when it
    is the image. */
module CodecRoundTrip {
  import opened Hex
  import opened RunLength
  import opened ImageEncodings
  import opened SvgBuilder
  import opened CodecRows

  /** What fits the format: bounds, lengths and colour indices of one byte. */
  ghost predicate Fits(pix: Pixels, w: nat) {
    && Shape(pix, w) && w < 256 && |pix| <= 256
    && forall y, x :: 0 <= y < |pix| && 0 <= x < w ==> pix[y][x] < 256
  }

  /** The canvas holds exactly the opaque pixels of rows lo to hi - 1 and columns l to r - 1. */
  ghost predicate Shows(c: Canvas, pix: Pixels, lo: nat, hi: nat, l: nat, r: nat)
    requires hi <= |pix|
    requires forall y: nat :: lo <= y < hi ==> r <= |pix[y]|
  {
    && (forall p: (nat, nat) :: p in c ==>
          lo <= p.1 < hi && l <= p.0 < r && pix[p.1][p.0] != 0 && c[p] == pix[p.1][p.0])
    && (forall y: nat, x: nat :: lo <= y < hi && l <= x < r && pix[y][x] != 0 ==> (x, y) in c)
  }

  // ---------------------------------------------------------------- the bounds

  /** The left and right bounds cut no further than into each row's first and last runs. */
  lemma BoundsCut(pix: Pixels, w: nat, y: nat)
    requires Shape(pix, w)
    requires EncodedBounds(pix, w).top <= y < KeptEnd(pix, w)
    ensures y < |pix|
    ensures var b := EncodedBounds(pix, w); var runs := Runs(pix[y]);
      && runs != [] && 0 < b.left <= runs[0].length && w - b.right <= runs[|runs| - 1].length && b.right < w
      && (b.left <= b.right ==> Cuts(runs, b.left, b.right, w))
  {
    var b, rows, end := EncodedBounds(pix, w), KeptRows(pix, w), KeptEnd(pix, w);
    KeptDomain(pix, w);
    assert b.left == MinLeft(rows, b.top, end) && b.right == MaxRight(rows, b.top, end);
    forall i: nat | b.top <= i < end ensures i < |pix| && rows[i].left > 0 && rows[i].right < w {
      RowBounds(pix[i], w);
    }
    RowBounds(pix[y], w);
    assert b.left <= rows[y].left && rows[y].right <= b.right;
  }

  lemma RowBounds(row: seq<nat>, w: nat)
    requires |row| == w > 0
    ensures var runs := Runs(row); var r := RowOf(runs, w);
      && runs != [] && 0 < r.left == runs[0].length && r.right == w - runs[|runs| - 1].length < w
  {
    RunsExpand(row);
    Ends(Runs(row));
  }

  /** A kept row with more than one run keeps the bounds in order. */
  lemma BoundsInOrder(pix: Pixels, w: nat, y: nat)
    requires Shape(pix, w)
    requires EncodedBounds(pix, w).top <= y < KeptEnd(pix, w) && y < |pix|
    requires exists x :: 0 <= x < w && pix[y][x] != pix[y][0]
    ensures EncodedBounds(pix, w).left <= EncodedBounds(pix, w).right
  {
    BoundsCut(pix, w, y);
    RunsExpand(pix[y]);
    SingleRun(pix[y]);
    Ends(Runs(pix[y]));
  }

  // ---------------------------------------------------------------- the window

  /** The runs written for the kept rows from `lo` on. */
  ghost function TailPairs(pix: Pixels, w: nat, lo: nat): seq<(nat, nat)>
    requires EncodedBounds(pix, w).top <= lo
  {
    var b := EncodedBounds(pix, w);
    KeptDomain(pix, w);
    Pairs(RowsBytes(KeptRows(pix, w), lo, KeptEnd(pix, w), b.left, b.right, w))
  }

  lemma RowsPairs(pix: Pixels, w: nat, lo: nat)
    requires Fits(pix, w) && EncodedBounds(pix, w).left <= EncodedBounds(pix, w).right
    requires EncodedBounds(pix, w).top <= lo < KeptEnd(pix, w)
    ensures lo < |pix| && Cuts(Runs(pix[lo]), EncodedBounds(pix, w).left, EncodedBounds(pix, w).right, w)
    ensures var b, end := EncodedBounds(pix, w), KeptEnd(pix, w);
      var rs := TrimRects(Runs(pix[lo]), |Runs(pix[lo])|, b.left, b.right, w);
      && TailPairs(pix, w, lo) == PairsOf(rs) + TailPairs(pix, w, lo + 1)
      && Expand(rs) == pix[lo][b.left..b.right] && (b.left < b.right ==> Positive(rs))
  {
    hide EncodedBounds, KeptEnd, KeptRows, Runs, RowBytes, Expand, Pairs;
    var b, end := EncodedBounds(pix, w), KeptEnd(pix, w);
    KeptDomain(pix, w);
    BoundsCut(pix, w, lo);
    RowBytesPairs(pix[lo], b.left, b.right, w);
    assert KeptRows(pix, w)[lo].rects == Runs(pix[lo]) by { RowRects(Runs(pix[lo]), w); }
    PairsConcat(RowBytes(Runs(pix[lo]), b.left, b.right, w),
                RowsBytes(KeptRows(pix, w), lo + 1, end, b.left, b.right, w));
  }

  lemma RowRects(rects: seq<Rect>, w: nat)
    ensures RowOf(rects, w).rects == rects
  {
  }

  /** Painting the kept rows from `lo` on shows their part of the window. */
  lemma {:induction false} PaintRows(pix: Pixels, w: nat, lo: nat)
    requires Fits(pix, w) && EncodedBounds(pix, w).left < EncodedBounds(pix, w).right
    requires EncodedBounds(pix, w).top <= lo <= KeptEnd(pix, w)
    ensures var b, end := EncodedBounds(pix, w), KeptEnd(pix, w);
      b.right <= w && end <= |pix| && Shows(Paint(TailPairs(pix, w, lo), b, b.left, lo), pix, lo, end, b.left, b.right)
    decreases KeptEnd(pix, w) - lo
  {
    hide EncodedBounds, KeptEnd, KeptRows, Runs, RowBytes, Expand, Pairs, TrimRects;
    var b, end := EncodedBounds(pix, w), KeptEnd(pix, w);
    KeptDomain(pix, w);
    RightWithin(pix, w);
    if lo == end {
      assert RowsBytes(KeptRows(pix, w), lo, end, b.left, b.right, w) == [];
      NoPairs();
    } else {
      RowsPairs(pix, w, lo);
      var rs := TrimRects(Runs(pix[lo]), |Runs(pix[lo])|, b.left, b.right, w);
      var rest := TailPairs(pix, w, lo + 1);
      PaintRows(pix, w, lo + 1);
      assert rs != [] by { NoPairs(); }
      PaintStretch(rs, rest, b, b.left, lo);
      ShowsMore(Paint(rest, b, b.left, lo + 1), pix, lo, end, b.left, b.right);
    }
  }

  lemma NoPairs()
    ensures Pairs([]) == [] && Expand([]) == []
  {
  }

  lemma RightWithin(pix: Pixels, w: nat)
    requires Shape(pix, w)
    ensures EncodedBounds(pix, w).right <= w && KeptEnd(pix, w) <= |pix|
  {
    if EncodedBounds(pix, w).top < KeptEnd(pix, w) { BoundsCut(pix, w, EncodedBounds(pix, w).top); }
  }

  lemma ShowsMore(c: Canvas, pix: Pixels, lo: nat, hi: nat, l: nat, r: nat)
    requires lo < hi <= |pix| && l <= r
    requires forall y: nat :: lo <= y < hi ==> r <= |pix[y]|
    requires Shows(c, pix, lo + 1, hi, l, r)
    ensures Shows(StretchCanvas(pix[lo][l..r], l, lo) + c, pix, lo, hi, l, r)
  {
    var row := pix[lo][l..r];
    var c' := StretchCanvas(row, l, lo) + c;
    forall y: nat, x: nat | lo <= y < hi && l <= x < r && pix[y][x] != 0 ensures (x, y) in c' {
      if y == lo { assert row[x - l] == pix[lo][x]; }
    }
  }

  /** When left and right coincide, nothing but runs of no length is written. */
  lemma {:induction false} EmptyRows(pix: Pixels, w: nat, lo: nat)
    requires Fits(pix, w) && EncodedBounds(pix, w).left == EncodedBounds(pix, w).right
    requires EncodedBounds(pix, w).top <= lo <= KeptEnd(pix, w)
    ensures var b, end := EncodedBounds(pix, w), KeptEnd(pix, w);
      var ps := TailPairs(pix, w, lo);
      forall i :: 0 <= i < |ps| ==> ps[i].0 == 0
    decreases KeptEnd(pix, w) - lo
  {
    hide EncodedBounds, KeptEnd, KeptRows, Runs, RowBytes, Expand, Pairs, TrimRects;
    var b, end := EncodedBounds(pix, w), KeptEnd(pix, w);
    KeptDomain(pix, w);
    if lo == end {
      assert RowsBytes(KeptRows(pix, w), lo, end, b.left, b.right, w) == [];
      NoPairs();
    } else {
      RowsPairs(pix, w, lo);
      EmptyRows(pix, w, lo + 1);
      EmptyExpansion(TrimRects(Runs(pix[lo]), |Runs(pix[lo])|, b.left, b.right, w));
    }
  }

  // ------------------------------------------------------ what decoding paints

  ghost function Repainted(pix: Pixels, w: nat): Canvas
    requires Fits(pix, w)
  {
    DecodesBack(pix, w);
    Painted(DecodeImage(Encoded(pix, w)))
  }

  lemma BoundsSmall(pix: Pixels, w: nat)
    requires Fits(pix, w)
    ensures SmallBounds(EncodedBounds(pix, w))
    ensures EncodedBounds(pix, w).top < |pix| || EncodedBounds(pix, w).top == 0
  {
    VerticalMeaning(pix, w, |pix|);
    if !ClearBelow(pix, |pix|) {
      var t, b := FindSpan(pix);
    }
    var e := EncodedBounds(pix, w);
    if e.top < KeptEnd(pix, w) { BoundsCut(pix, w, e.top); FirstRunWithin(pix, w, e.top); }
  }

  lemma FirstRunWithin(pix: Pixels, w: nat, y: nat)
    requires Shape(pix, w) && y < |pix|
    ensures Runs(pix[y]) != [] && Runs(pix[y])[0].length <= w
  {
    RunsExpand(pix[y]);
    Ends(Runs(pix[y]));
  }

  /** A whole number of runs is written for every row. */
  lemma {:induction false} EvenRuns(rects: seq<Rect>, n: nat, left: nat, right: nat, w: nat)
    requires n <= |rects|
    ensures |TrimmedRuns(rects, n, left, right, w)| % 2 == 0
  {
    if n > 0 {
      EvenRuns(rects, n - 1, left, right, w);
      assert |TrimmedRun(rects, n - 1, left, right, w)| in {0, 2};
      EvenSum(|TrimmedRuns(rects, n - 1, left, right, w)|, |TrimmedRun(rects, n - 1, left, right, w)|);
    }
  }

  lemma EvenRow(rects: seq<Rect>, left: nat, right: nat, w: nat)
    ensures |RowBytes(rects, left, right, w)| % 2 == 0
  {
    hide TrimmedRuns;
    EvenRuns(rects, |rects|, left, right, w);
  }

  lemma EvenSum(a: nat, b: nat)
    requires a % 2 == 0 && b % 2 == 0
    ensures (a + b) % 2 == 0
  {
  }

  lemma {:induction false} EvenBytes(rows: map<nat, ImageRow>, lo: nat, hi: nat, left: nat, right: nat, w: nat)
    requires forall y: nat :: lo <= y < hi ==> y in rows
    ensures |RowsBytes(rows, lo, hi, left, right, w)| % 2 == 0
    decreases hi - lo
  {
    hide RowBytes;
    if lo < hi {
      EvenRow(rows[lo].rects, left, right, w);
      EvenBytes(rows, lo + 1, hi, left, right, w);
      EvenSum(|RowBytes(rows[lo].rects, left, right, w)|, |RowsBytes(rows, lo + 1, hi, left, right, w)|);
    }
  }

  /** The encoding is well formed, and decodes to the bounds and runs written. */
  lemma DecodesBack(pix: Pixels, w: nat)
    requires Fits(pix, w)
    ensures WellFormed(Encoded(pix, w))
    ensures var d := DecodeImage(Encoded(pix, w));
      if IsEmptyImage(pix, w) then d == DecodedImage(0, Bounds(0, 0, 0, 0), [])
      else d == DecodedImage(0, EncodedBounds(pix, w), TailPairs(pix, w, EncodedBounds(pix, w).top))
  {
    hide EncodedBounds, KeptEnd, KeptRows, RowsBytes, Encoded, IsEmptyImage, Fits, BytesToHex, DecodeImage,
         WellFormed, Pairs, IsBytes;
    var b := EncodedBounds(pix, w);
    BoundsSmall(pix, w);
    KeptDomain(pix, w);
    EncodedIsBytes(pix, w);
    EvenBytes(KeptRows(pix, w), b.top, KeptEnd(pix, w), b.left, b.right, w);
    var bytes := EncodedBytes(pix, w);
    DecodeHex(bytes);
    NoPairs();
    if IsEmptyImage(pix, w) {
      assert bytes[5..] == [];
    } else {
      assert bytes[5..] == RowsBytes(KeptRows(pix, w), b.top, KeptEnd(pix, w), b.left, b.right, w);
    }
  }

  /** Unless the left bound lies right of the right bound, decoding paints exactly
      the opaque pixels inside the encoded bounds, in the kept rows. */
  lemma WindowPainted(pix: Pixels, w: nat)
    requires Fits(pix, w) && EncodedBounds(pix, w).left <= EncodedBounds(pix, w).right
    ensures EncodedBounds(pix, w).right <= w && KeptEnd(pix, w) <= |pix|
    ensures Shows(Repainted(pix, w), pix, EncodedBounds(pix, w).top, KeptEnd(pix, w), EncodedBounds(pix, w).left,
            EncodedBounds(pix, w).right)
  {
    hide EncodedBounds, KeptEnd, KeptRows, RowsBytes, Encoded, Fits, DecodeImage, WellFormed, IsEmptyImage;
    var b, end := EncodedBounds(pix, w), KeptEnd(pix, w);
    ShapeOf(pix, w);
    DecodesBack(pix, w);
    RightWithin(pix, w);
    if IsEmptyImage(pix, w) {
      EmptyWindow(pix, w);
    } else if end < b.top {
      NoRows(pix, w);
    } else if b.left == b.right {
      EmptyRows(pix, w, b.top);
      PaintNothing(TailPairs(pix, w, b.top), b, b.left, b.top);
    } else {
      PaintRows(pix, w, b.top);
    }
  }

  lemma ShapeOf(pix: Pixels, w: nat)
    requires Fits(pix, w)
    ensures Shape(pix, w)
  {
  }

  lemma NoRows(pix: Pixels, w: nat)
    requires KeptEnd(pix, w) <= EncodedBounds(pix, w).top
    ensures TailPairs(pix, w, EncodedBounds(pix, w).top) == []
  {
  }

  lemma EmptyWindow(pix: Pixels, w: nat)
    requires Shape(pix, w) && IsEmptyImage(pix, w)
    ensures EncodedBounds(pix, w).top == 0 && KeptEnd(pix, w) == 1 <= |pix| && Clear(pix[0])
  {
    var rows := KeptRows(pix, w);
    var (top, bottom) := Vertical(pix, w, |pix|);
    assert rows.Keys == {0} && 0 in rows;
    assert top == 0;
    assert KeptEnd(pix, w) > 1 ==> 1 in rows;
    EmptyRowIsClear(pix[0]);
  }

  // ----------------------------------------------------------- the round trip

  /** The canvas is the image: its opaque pixels with their colours, and nothing else. */
  ghost predicate Faithful(c: Canvas, pix: Pixels, w: nat)
    requires Shape(pix, w)
  {
    Shows(c, pix, 0, |pix|, 0, w)
  }

  /** The outer columns are transparent. */
  predicate ClearSides(pix: Pixels, w: nat)
    requires Shape(pix, w)
  {
    forall y :: 0 <= y < |pix| ==> pix[y][0] == 0 && pix[y][w - 1] == 0
  }

  /** Only row 0 is used, or row 0 is transparent and so is the last row unless it is row 31. */
  ghost predicate GoodMargins(pix: Pixels) {
    ClearBelow(pix, |pix|) || (Clear(pix[0]) && (|pix| == 32 || Clear(pix[|pix| - 1])))
  }

  lemma OpaqueRow(row: seq<nat>) returns (x: nat)
    requires !Clear(row)
    ensures x < |row| && row[x] != 0
  {
    x :| 0 <= x < |row| && row[x] != 0;
  }

  /** A column 0 that is transparent in every row keeps the bounds in order. */
  lemma SidesInOrder(pix: Pixels, w: nat)
    requires Fits(pix, w) && (forall y :: 0 <= y < |pix| ==> pix[y][0] == 0)
    ensures EncodedBounds(pix, w).left <= EncodedBounds(pix, w).right || IsEmptyImage(pix, w)
  {
    VerticalMeaning(pix, w, |pix|);
    var b, end := EncodedBounds(pix, w), KeptEnd(pix, w);
    if b.top < end {
      if Clear(pix[b.top]) {
        if !ClearBelow(pix, |pix|) { var t, e := FindSpan(pix); assert false; }
        RowZeroOnly(pix, w);
      } else {
        var x := OpaqueRow(pix[b.top]);
        BoundsInOrder(pix, w, b.top);
      }
    }
  }

  lemma RowZeroOnly(pix: Pixels, w: nat)
    requires Shape(pix, w) && ClearBelow(pix, |pix|) && |pix| > 0
    ensures EncodedBounds(pix, w).top == 0 && KeptEnd(pix, w) == 1
    ensures Clear(pix[0]) ==> IsEmptyImage(pix, w)
  {
    VerticalMeaning(pix, w, |pix|);
    EmptyRowIsClear(pix[0]);
    assert KeptRows(pix, w).Keys == {0};
  }

  /** With good margins the window covers every opaque pixel. */
  lemma WindowIsAll(pix: Pixels, w: nat, c: Canvas)
    requires Fits(pix, w) && ClearSides(pix, w) && GoodMargins(pix)
    requires EncodedBounds(pix, w).right <= w && KeptEnd(pix, w) <= |pix|
    requires Shows(c, pix, EncodedBounds(pix, w).top, KeptEnd(pix, w), EncodedBounds(pix, w).left,
             EncodedBounds(pix, w).right)
    ensures Faithful(c, pix, w)
  {
    var b, end := EncodedBounds(pix, w), KeptEnd(pix, w);
    forall y: nat, x: nat | y < |pix| && x < w && pix[y][x] != 0
      ensures b.top <= y < end && b.left <= x < b.right
    {
      RowsCovered(pix, w, y, x);
      ColumnsCovered(pix, w, y, x);
    }
  }

  lemma RowsCovered(pix: Pixels, w: nat, y: nat, x: nat)
    requires Shape(pix, w) && GoodMargins(pix) && y < |pix| && x < w && pix[y][x] != 0
    ensures EncodedBounds(pix, w).top <= y < KeptEnd(pix, w)
  {
    hide EncodedBounds, KeptEnd;
    if ClearBelow(pix, |pix|) {
      RowZeroOnly(pix, w);
    } else {
      var t, e := FindSpan(pix);
      SpanBounds(pix, w, t, e);
    }
  }

  lemma SpanBounds(pix: Pixels, w: nat, t: nat, e: nat)
    requires Shape(pix, w) && Span(pix, |pix|, t, e)
    ensures EncodedBounds(pix, w).top == t
    ensures KeptEnd(pix, w) == if e < |pix| - 1 || e == 31 then e + 1 else 1
  {
    VerticalMeaning(pix, w, |pix|);
  }

  lemma ColumnsCovered(pix: Pixels, w: nat, y: nat, x: nat)
    requires Shape(pix, w) && ClearSides(pix, w) && EncodedBounds(pix, w).top <= y < KeptEnd(pix, w)
    requires y < |pix| && x < w && pix[y][x] != 0
    ensures EncodedBounds(pix, w).left <= x < EncodedBounds(pix, w).right
  {
    BoundsCut(pix, w, y);
    RunsExpand(pix[y]);
    Ends(Runs(pix[y]));
  }

  /** Encoding, decoding and painting gives the image back. */
  lemma RoundTrip(pix: Pixels, w: nat)
    requires Fits(pix, w) && ClearSides(pix, w) && GoodMargins(pix)
    ensures Faithful(Repainted(pix, w), pix, w)
  {
    hide EncodedBounds, KeptEnd, Shows, GoodMargins, Repainted;
    SidesInOrder(pix, w);
    if EncodedBounds(pix, w).left <= EncodedBounds(pix, w).right {
      WindowPainted(pix, w);
      WindowIsAll(pix, w, Repainted(pix, w));
    } else {
      EmptyRepainted(pix, w);
    }
  }

  lemma EmptyRepainted(pix: Pixels, w: nat)
    requires Fits(pix, w) && IsEmptyImage(pix, w) && GoodMargins(pix)
    ensures Faithful(Repainted(pix, w), pix, w)
  {
    DecodesBack(pix, w);
    EmptyWindow(pix, w);
    forall y: nat, x: nat | y < |pix| && x < w ensures pix[y][x] == 0 {
      if pix[y][x] != 0 { RowsCovered(pix, w, y, x); }
    }
  }

  /** Nothing is painted outside the rows and columns the bounds start at. */
  lemma RepaintedWithin(pix: Pixels, w: nat, p: (nat, nat))
    requires Fits(pix, w) && p in Repainted(pix, w)
    ensures EncodedBounds(pix, w).top < KeptEnd(pix, w)
    ensures p.0 >= EncodedBounds(pix, w).left > 0 && p.1 >= EncodedBounds(pix, w).top
  {
    hide EncodedBounds, KeptEnd, Fits;
    var b := EncodedBounds(pix, w);
    ShapeOf(pix, w);
    DecodesBack(pix, w);
    if KeptEnd(pix, w) <= b.top { NoRows(pix, w); }
    PaintWithin(TailPairs(pix, w, b.top), b, b.left, b.top);
    BoundsCut(pix, w, b.top);
  }

  /** The margins are needed: without them some opaque pixel is lost. */
  lemma RoundTripNeedsMargins(pix: Pixels, w: nat)
    requires Fits(pix, w) && Faithful(Repainted(pix, w), pix, w)
    ensures ClearSides(pix, w) && GoodMargins(pix)
  {
    hide EncodedBounds, KeptEnd, Repainted;
    forall y: nat | y < |pix| ensures pix[y][0] == 0 {
      if pix[y][0] != 0 { RepaintedWithin(pix, w, (0, y)); }
    }
    SidesInOrder(pix, w);
    forall y: nat | y < |pix| ensures pix[y][w - 1] == 0 {
      if pix[y][w - 1] != 0 { LastColumnLost(pix, w, y); }
    }
    if !GoodMargins(pix) {
      MarginsNeeded(pix, w);
    }
  }

  lemma LastColumnLost(pix: Pixels, w: nat, y: nat)
    requires Fits(pix, w) && y < |pix| && pix[y][w - 1] != 0
    requires EncodedBounds(pix, w).left <= EncodedBounds(pix, w).right || IsEmptyImage(pix, w)
    ensures (w - 1, y) !in Repainted(pix, w)
  {
    hide EncodedBounds, KeptEnd, Repainted, Fits;
    ShapeOf(pix, w);
    if (w - 1, y) in Repainted(pix, w) {
      RepaintedWithin(pix, w, (w - 1, y));
      BoundsCut(pix, w, EncodedBounds(pix, w).top);
      NotEmptyPainted(pix, w, (w - 1, y));
      WindowPainted(pix, w);
    }
  }

  lemma NotEmptyPainted(pix: Pixels, w: nat, p: (nat, nat))
    requires Fits(pix, w) && p in Repainted(pix, w)
    ensures !IsEmptyImage(pix, w)
  {
    DecodesBack(pix, w);
  }

  lemma MarginsNeeded(pix: Pixels, w: nat)
    requires Fits(pix, w) && !GoodMargins(pix)
    ensures !Faithful(Repainted(pix, w), pix, w)
  {
    VerticalMeaning(pix, w, |pix|);
    var t, e := FindSpan(pix);
    if !Clear(pix[0]) {
      var x := OpaqueRow(pix[0]);
      if (x, 0 as nat) in Repainted(pix, w) { RepaintedWithin(pix, w, (x, 0)); }
    } else {
      var x := OpaqueRow(pix[e]);
      if (x, e) in Repainted(pix, w) { RepaintedWithin(pix, w, (x, e)); }
    }
  }

  /** Encoding, decoding and painting gives exactly the image back if and only if
      the outer columns are transparent and either only row 0 is used or row 0 is
      transparent and so is the last row, which may be opaque only as row 31. */
  lemma RoundTripExactly(pix: Pixels, w: nat)
    requires Fits(pix, w)
    ensures Faithful(Repainted(pix, w), pix, w) <==> ClearSides(pix, w) && GoodMargins(pix)
  {
    hide Faithful, ClearSides, GoodMargins, Repainted;
    if ClearSides(pix, w) && GoodMargins(pix) {
      RoundTrip(pix, w);
    } else if Faithful(Repainted(pix, w), pix, w) {
      RoundTripNeedsMargins(pix, w);
    }
  }
}
