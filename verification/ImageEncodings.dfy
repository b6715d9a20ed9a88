/** The encoded form of an image, as a function of its colour indices. */
module ImageEncodings {
  import opened RunLength
  import opened Hex

  /** Colour indices row by row; index 0 is transparent. */
  type Pixels = seq<seq<nat>>

  datatype ImageRow = ImageRow(rects: seq<Rect>, left: nat, right: nat)

  datatype Bounds = Bounds(top: nat, right: nat, bottom: nat, left: nat)

  /** Every row has `w` pixels, and there is at least one column. */
  predicate Shape(pix: Pixels, w: nat) {
    w > 0 && forall y :: 0 <= y < |pix| ==> |pix[y]| == w
  }

  predicate IsEmptyRow(rects: seq<Rect>, w: nat) {
    rects != [] && rects[0].length == w && rects[0].colorIndex == 0
  }

  predicate Clear(row: seq<nat>) {
    forall x :: 0 <= x < |row| ==> row[x] == 0
  }

  lemma EmptyRowIsClear(row: seq<nat>)
    requires row != []
    ensures IsEmptyRow(Runs(row), |row|) <==> Clear(row)
  {
    RunsExpand(row);
    Ends(Runs(row));
    if Clear(row) { SingleRun(row); }
  }

  /** The bounds of a row: where its first run ends and its last run begins. */
  function RowOf(rects: seq<Rect>, w: nat): ImageRow {
    if rects == [] || rects[|rects| - 1].length > w then ImageRow(rects, 0, 0)
    else ImageRow(rects, rects[0].length, w - rects[|rects| - 1].length)
  }

  // --------------------------------------------------------- top and bottom

  /** How row `y` changes the top and bottom bounds. The encoder lets 0 mean that
      a bound is not set, and takes row 31 for the last one. */
  function StepVertical(top: nat, bottom: nat, y: nat, empty: bool): (nat, nat)
    requires top > 0 ==> top < y
  {
    var top' := if !empty && top == 0 then y else top;
    if top' == 0 then (top', bottom)
    else if empty then (top', if bottom == 0 then y - 1 else bottom)
    else if y == 31 then (top', y)
    else (top', 0)
  }

  /** The top and bottom bounds after the first `n` rows. */
  function Vertical(pix: Pixels, w: nat, n: nat): (r: (nat, nat))
    requires n <= |pix|
    ensures r.0 > 0 ==> r.0 < n
  {
    if n == 0 then (0, 0)
    else
      var (top, bottom) := Vertical(pix, w, n - 1);
      StepVertical(top, bottom, n - 1, IsEmptyRow(Runs(pix[n - 1]), w))
  }

  /** No row from 1 to n - 1 has an opaque pixel. */
  ghost predicate ClearBelow(pix: Pixels, n: nat)
    requires n <= |pix|
  {
    forall y :: 1 <= y < n ==> Clear(pix[y])
  }

  /** `t` and `b` are the first and last rows, among rows 1 to n - 1, with an opaque pixel. */
  ghost predicate Span(pix: Pixels, n: nat, t: nat, b: nat)
    requires n <= |pix|
  {
    && 1 <= t <= b < n
    && !Clear(pix[t]) && !Clear(pix[b])
    && (forall y :: 1 <= y < n && (y < t || y > b) ==> Clear(pix[y]))
  }

  /** What the bounds are after the first `n` rows: row 0 never sets them; the
      bottom is lost when the last row is opaque and is not row 31. */
  lemma {:induction false} VerticalMeaning(pix: Pixels, w: nat, n: nat)
    requires Shape(pix, w) && n <= |pix|
    ensures ClearBelow(pix, n) ==> Vertical(pix, w, n) == (0, 0)
    ensures forall t: nat, b: nat :: Span(pix, n, t, b) ==>
              Vertical(pix, w, n) == (t, if b < n - 1 || b == 31 then b else 0)
  {
    if n > 0 {
      VerticalMeaning(pix, w, n - 1);
      EmptyRowIsClear(pix[n - 1]);
      if n > 1 && ClearBelow(pix, n - 1) && !Clear(pix[n - 1]) {
        assert !ClearBelow(pix, n);
      }
      forall t: nat, b: nat | Span(pix, n, t, b)
        ensures Vertical(pix, w, n) == (t, if b < n - 1 || b == 31 then b else 0)
      {
        if t == n - 1 {
          assert ClearBelow(pix, n - 1);
        } else if b == n - 1 {
          var b' := LastOpaque(pix, n - 1, t);
          assert Span(pix, n - 1, t, b');
        } else {
          assert Span(pix, n - 1, t, b);
        }
      }
    }
  }

  /** The last row before `n` with an opaque pixel, given an earlier one. */
  lemma {:induction false} LastOpaque(pix: Pixels, n: nat, t: nat) returns (b: nat)
    requires n <= |pix| && t < n && !Clear(pix[t])
    ensures t <= b < n && !Clear(pix[b]) && forall y :: b < y < n ==> Clear(pix[y])
  {
    if Clear(pix[n - 1]) {
      b := LastOpaque(pix, n - 1, t);
    } else {
      b := n - 1;
    }
  }

  lemma {:induction false} FirstOpaque(pix: Pixels, n: nat) returns (t: nat)
    requires n <= |pix| && !ClearBelow(pix, n)
    ensures 1 <= t < n && !Clear(pix[t]) && forall y :: 1 <= y < t ==> Clear(pix[y])
  {
    if ClearBelow(pix, n - 1) {
      t := n - 1;
    } else {
      t := FirstOpaque(pix, n - 1);
    }
  }

  /** Either only row 0 can be opaque, or the rest spans some rows. */
  lemma FindSpan(pix: Pixels) returns (t: nat, b: nat)
    requires !ClearBelow(pix, |pix|)
    ensures Span(pix, |pix|, t, b)
  {
    t := FirstOpaque(pix, |pix|);
    b := LastOpaque(pix, |pix|, t);
  }

  // ---------------------------------------------------------- the kept rows

  /** The rows not deleted as lying above the top or below the bottom bound. */
  function KeptRows(pix: Pixels, w: nat): map<nat, ImageRow> {
    var (top, bottom) := Vertical(pix, w, |pix|);
    map y: nat | top <= y <= bottom && y < |pix| :: RowOf(Runs(pix[y]), w)
  }

  /** One past the last kept row, if any row is kept. */
  function KeptEnd(pix: Pixels, w: nat): nat {
    var bottom := Vertical(pix, w, |pix|).1;
    if bottom + 1 <= |pix| then bottom + 1 else |pix|
  }

  function Min(a: nat, b: nat): nat { if a <= b then a else b }

  function Max(a: nat, b: nat): nat { if a >= b then a else b }

  function MinLeft(rows: map<nat, ImageRow>, lo: nat, hi: nat): (m: nat)
    requires lo < hi && forall y: nat :: lo <= y < hi ==> y in rows
    ensures forall y: nat :: lo <= y < hi ==> m <= rows[y].left
    ensures exists y: nat :: lo <= y < hi && m == rows[y].left
    decreases hi - lo
  {
    if lo + 1 == hi then rows[lo].left else Min(rows[lo].left, MinLeft(rows, lo + 1, hi))
  }

  function MaxRight(rows: map<nat, ImageRow>, lo: nat, hi: nat): (m: nat)
    requires lo < hi && forall y: nat :: lo <= y < hi ==> y in rows
    ensures forall y: nat :: lo <= y < hi ==> m >= rows[y].right
    ensures exists y: nat :: lo <= y < hi && m == rows[y].right
    decreases hi - lo
  {
    if lo + 1 == hi then rows[lo].right else Max(rows[lo].right, MaxRight(rows, lo + 1, hi))
  }

  /** The bounds written into the encoding; left and right stay 0 when no row is kept. */
  function EncodedBounds(pix: Pixels, w: nat): Bounds {
    var (top, bottom) := Vertical(pix, w, |pix|);
    var rows, end := KeptRows(pix, w), KeptEnd(pix, w);
    if top < end then Bounds(top, MaxRight(rows, top, end), bottom, MinLeft(rows, top, end))
    else Bounds(top, 0, bottom, 0)
  }

  // -------------------------------------------------------------- the encoding

  /** The numbers written for run `i` of a row: the first and last runs lose what
      lies outside the bounds. */
  function TrimmedRun(rects: seq<Rect>, i: nat, left: nat, right: nat, w: nat): seq<int>
    requires i < |rects|
  {
    var r := rects[i];
    if i == 0 && i == |rects| - 1 then [right - left, r.colorIndex]
    else if i == 0 && r.length > left then [r.length - left, r.colorIndex]
    else if i == 0 && r.length == left then []
    else if i == |rects| - 1 && r.length > w - right then [r.length - (w - right), r.colorIndex]
    else if i == |rects| - 1 && r.length == w - right then []
    else [r.length, r.colorIndex]
  }

  function TrimmedRuns(rects: seq<Rect>, n: nat, left: nat, right: nat, w: nat): seq<int>
    requires n <= |rects|
  {
    if n == 0 then [] else TrimmedRuns(rects, n - 1, left, right, w) + TrimmedRun(rects, n - 1, left, right, w)
  }

  /** A byte buffer keeps the low eight bits. */
  function ToBytes(s: seq<int>): (bytes: seq<nat>)
    ensures IsBytes(bytes) && |bytes| == |s|
  {
    seq(|s|, i requires 0 <= i < |s| => s[i] % 256)
  }

  function RowBytes(rects: seq<Rect>, left: nat, right: nat, w: nat): (bytes: seq<nat>)
    ensures IsBytes(bytes)
  {
    ToBytes(TrimmedRuns(rects, |rects|, left, right, w))
  }

  /** The bytes of rows lo to hi - 1. */
  function RowsBytes(rows: map<nat, ImageRow>, lo: nat, hi: nat, left: nat, right: nat, w: nat): (bytes: seq<nat>)
    requires forall y: nat :: lo <= y < hi ==> y in rows
    ensures IsBytes(bytes)
    decreases hi - lo
  {
    if lo >= hi then [] else RowBytes(rows[lo].rects, left, right, w) + RowsBytes(rows, lo + 1, hi, left, right, w)
  }

  function BoundsToHex(b: Bounds): string {
    "0x00" + ToPaddedHex(b.top, 2) + ToPaddedHex(b.right, 2) + ToPaddedHex(b.bottom, 2) + ToPaddedHex(b.left, 2)
  }

  const EMPTY_IMAGE: string := "0x0000000000"

  /** Only row 0 is kept and it is empty. */
  predicate IsEmptyImage(pix: Pixels, w: nat) {
    KeptRows(pix, w).Keys == {0} && 0 in KeptRows(pix, w) && IsEmptyRow(KeptRows(pix, w)[0].rects, w)
  }

  function Encoded(pix: Pixels, w: nat): string {
    var b := EncodedBounds(pix, w);
    if IsEmptyImage(pix, w) then EMPTY_IMAGE
    else BoundsToHex(b) + BytesToHex(RowsBytes(KeptRows(pix, w), b.top, KeptEnd(pix, w), b.left, b.right, w))
  }

  /** The encoding as bytes, when all bounds fit a byte. */
  function EncodedBytes(pix: Pixels, w: nat): seq<nat> {
    var b := EncodedBounds(pix, w);
    if IsEmptyImage(pix, w) then [0, 0, 0, 0, 0]
    else [0, b.top, b.right, b.bottom, b.left] + RowsBytes(KeptRows(pix, w), b.top, KeptEnd(pix, w), b.left, b.right, w)
  }

  predicate SmallBounds(b: Bounds) {
    b.top < 256 && b.right < 256 && b.bottom < 256 && b.left < 256
  }

  lemma KeptDomain(pix: Pixels, w: nat)
    ensures forall y: nat :: EncodedBounds(pix, w).top <= y < KeptEnd(pix, w) ==>
              y in KeptRows(pix, w) && y < |pix| && KeptRows(pix, w)[y] == RowOf(Runs(pix[y]), w)
  {
    var (top, bottom) := Vertical(pix, w, |pix|);
    var rows := map y: nat | top <= y <= bottom && y < |pix| :: RowOf(Runs(pix[y]), w);
    assert KeptRows(pix, w) == rows && EncodedBounds(pix, w).top == top;
  }

  lemma EncodedIsBytes(pix: Pixels, w: nat)
    requires SmallBounds(EncodedBounds(pix, w))
    ensures IsBytes(EncodedBytes(pix, w)) && Encoded(pix, w) == "0x" + BytesToHex(EncodedBytes(pix, w))
  {
    hide KeptRows, KeptEnd, RowsBytes, BytesToHex, BoundsToHex, EncodedBounds, ByteToHex, IsEmptyImage;
    var b := EncodedBounds(pix, w);
    KeptDomain(pix, w);
    var tail := RowsBytes(KeptRows(pix, w), b.top, KeptEnd(pix, w), b.left, b.right, w);
    if IsEmptyImage(pix, w) {
      HeaderHex(Bounds(0, 0, 0, 0));
    } else {
      var header := [0, b.top, b.right, b.bottom, b.left];
      HeaderHex(b);
      BytesToHexConcat(header, tail);
      Assoc("0x", BytesToHex(header), BytesToHex(tail));
    }
  }

  lemma Assoc(a: string, b: string, c: string)
    ensures a + (b + c) == (a + b) + c
  {
  }

  lemma HeaderHex(b: Bounds)
    requires SmallBounds(b)
    ensures "0x" + BytesToHex([0, b.top, b.right, b.bottom, b.left]) == BoundsToHex(b)
    ensures BytesToHex([0, 0, 0, 0, 0]) == "0000000000"
  {
    PaddedByte(b.top); PaddedByte(b.right); PaddedByte(b.bottom); PaddedByte(b.left);
    FiveBytes(0, b.top, b.right, b.bottom, b.left);
    FiveBytes(0, 0, 0, 0, 0);
    assert ByteToHex(0) == "00";
  }

  lemma FiveBytes(a: nat, b: nat, c: nat, d: nat, e: nat)
    requires a < 256 && b < 256 && c < 256 && d < 256 && e < 256
    ensures BytesToHex([a, b, c, d, e]) == ByteToHex(a) + ByteToHex(b) + ByteToHex(c) + ByteToHex(d) + ByteToHex(e)
  {
    hide BytesToHex, ByteToHex;
    assert [a, b, c, d, e] == [a] + ([b] + ([c] + ([d] + [e])));
    BytesToHexConcat([d], [e]);
    BytesToHexConcat([c], [d] + [e]);
    BytesToHexConcat([b], [c] + ([d] + [e]));
    BytesToHexConcat([a], [b] + ([c] + ([d] + [e])));
    OneByte(a); OneByte(b); OneByte(c); OneByte(d); OneByte(e);
  }

  lemma OneByte(a: nat)
    requires a < 256
    ensures BytesToHex([a]) == ByteToHex(a)
  {
    assert [a][1..] == [];
  }
}
