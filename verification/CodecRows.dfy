/** One row of the codec: trimming its runs to the bounds, writing them as bytes,
    and painting them back. */
module CodecRows {
  import opened RunLength
  import opened ImageEncodings
  import opened SvgBuilder

  /** The bounds cut into the row's first and last runs only. */
  predicate Cuts(runs: seq<Rect>, left: nat, right: nat, w: nat) {
    && runs != [] && left <= right <= w
    && left <= runs[0].length && w - right <= runs[|runs| - 1].length
  }

  /** The trimmed runs as runs. */
  function TrimRect(runs: seq<Rect>, i: nat, left: nat, right: nat, w: nat): seq<Rect>
    requires i < |runs| && Cuts(runs, left, right, w)
  {
    var r := runs[i];
    if |runs| == 1 then [Rect(right - left, r.colorIndex)]
    else if i == 0 then (if r.length == left then [] else [Rect(r.length - left, r.colorIndex)])
    else if i == |runs| - 1 then (if r.length == w - right then [] else [Rect(r.length - (w - right), r.colorIndex)])
    else [r]
  }

  function TrimRects(runs: seq<Rect>, n: nat, left: nat, right: nat, w: nat): seq<Rect>
    requires n <= |runs| && Cuts(runs, left, right, w)
  {
    if n == 0 then [] else TrimRects(runs, n - 1, left, right, w) + TrimRect(runs, n - 1, left, right, w)
  }

  function Flat(rs: seq<Rect>): seq<int> {
    if rs == [] then [] else Flat(rs[..|rs| - 1]) + [rs[|rs| - 1].length, rs[|rs| - 1].colorIndex]
  }

  lemma TrimmedOne(runs: seq<Rect>, i: nat, left: nat, right: nat, w: nat)
    requires i < |runs| && Cuts(runs, left, right, w)
    ensures var t := TrimRect(runs, i, left, right, w);
      |t| <= 1 && TrimmedRun(runs, i, left, right, w) == if t == [] then [] else [t[0].length, t[0].colorIndex]
  {
  }

  lemma FlatAppend(rs: seq<Rect>, t: seq<Rect>)
    requires |t| <= 1
    ensures Flat(rs + t) == Flat(rs) + if t == [] then [] else [t[0].length, t[0].colorIndex]
  {
    if t == [] {
      assert rs + t == rs;
    } else {
      assert (rs + t)[..|rs|] == rs;
    }
  }

  lemma {:induction false} TrimmedFlat(runs: seq<Rect>, n: nat, left: nat, right: nat, w: nat)
    requires n <= |runs| && Cuts(runs, left, right, w)
    ensures TrimmedRuns(runs, n, left, right, w) == Flat(TrimRects(runs, n, left, right, w))
  {
    hide Cuts, TrimmedRun, TrimRect;
    if n > 0 {
      TrimmedFlat(runs, n - 1, left, right, w);
      TrimmedOne(runs, n - 1, left, right, w);
      FlatAppend(TrimRects(runs, n - 1, left, right, w), TrimRect(runs, n - 1, left, right, w));
    }
  }

  /** What trimming leaves of one run: the first loses `left` pixels, the last
      those from `right` on. */
  lemma TrimOneExpand(runs: seq<Rect>, i: nat, left: nat, right: nat, w: nat)
    requires i < |runs| && Cuts(runs, left, right, w) && (|runs| == 1 ==> runs[0].length == w)
    ensures var px := Repeat(runs[i].colorIndex, runs[i].length);
      var lo := if i == 0 then left else 0;
      var hi := if i == |runs| - 1 then runs[i].length - (w - right) else runs[i].length;
      0 <= lo <= |px| && (lo <= hi ==> hi <= |px| && Expand(TrimRect(runs, i, left, right, w)) == px[lo..hi])
  {
    var t := TrimRect(runs, i, left, right, w);
    if t != [] { ExpandOne(t[0]); }
  }

  lemma ExpandPrefix(runs: seq<Rect>, n: nat)
    requires 0 < n <= |runs|
    ensures Expand(runs[..n]) == Expand(runs[..n - 1]) + Repeat(runs[n - 1].colorIndex, runs[n - 1].length)
  {
    assert runs[..n] == runs[..n - 1] + [runs[n - 1]];
    ExpandConcat(runs[..n - 1], [runs[n - 1]]);
    ExpandOne(runs[n - 1]);
  }

  /** Trimming leaves exactly the pixels between the bounds. */
  lemma {:induction false} TrimExpand(runs: seq<Rect>, n: nat, left: nat, right: nat, w: nat)
    requires 1 <= n <= |runs| && Cuts(runs, left, right, w) && |Expand(runs)| == w
    ensures var all := Expand(runs[..n]);
      left <= |all| && right <= w &&
      Expand(TrimRects(runs, n, left, right, w)) ==
      if n == |runs| then (Whole(runs); Expand(runs)[left..right]) else all[left..]
  {
    hide Expand, TrimRect;
    Whole(runs);
    ExpandPrefix(runs, n);
    ExpandConcat(TrimRects(runs, n - 1, left, right, w), TrimRect(runs, n - 1, left, right, w));
    if n == 1 {
      FirstTrim(runs, left, right, w);
    } else {
      TrimExpand(runs, n - 1, left, right, w);
      TrimOneExpand(runs, n - 1, left, right, w);
    }
  }

  lemma FirstTrim(runs: seq<Rect>, left: nat, right: nat, w: nat)
    requires Cuts(runs, left, right, w) && |Expand(runs)| == w
    ensures Expand(runs[..0]) == [] && Expand(TrimRects(runs, 0, left, right, w)) == []
    ensures left <= runs[0].length && (|runs| == 1 ==> runs[0].length == w)
    ensures Expand(TrimRect(runs, 0, left, right, w)) ==
            Repeat(runs[0].colorIndex, runs[0].length)[left..if |runs| == 1 then right else runs[0].length]
  {
    if |runs| == 1 { ExpandPrefix(runs, 1); Whole(runs); }
    TrimOneExpand(runs, 0, left, right, w);
  }

  lemma Whole(runs: seq<Rect>)
    ensures runs[..|runs|] == runs && |Expand(runs[..|runs|])| == |Expand(runs)|
  {
  }

  /** Trimmed runs still have positive lengths, unless the bounds coincide. */
  lemma {:induction false} TrimPositive(runs: seq<Rect>, n: nat, left: nat, right: nat, w: nat)
    requires n <= |runs| && Cuts(runs, left, right, w) && Positive(runs)
    ensures left < right ==> Positive(TrimRects(runs, n, left, right, w))
  {
    if n > 0 {
      TrimPositive(runs, n - 1, left, right, w);
    }
  }

  // -------------------------------------------------------------------- bytes

  function PairsOf(rs: seq<Rect>): (ps: seq<(nat, nat)>)
    ensures |ps| == |rs|
  {
    seq(|rs|, i requires 0 <= i < |rs| => (rs[i].length, rs[i].colorIndex))
  }

  lemma {:induction false} PairsConcat(a: seq<nat>, b: seq<nat>)
    requires |a| % 2 == 0
    ensures Pairs(a + b) == Pairs(a) + Pairs(b)
  {
    if a == [] {
      assert a + b == b;
    } else {
      assert (a + b)[2..] == a[2..] + b;
      PairsConcat(a[2..], b);
    }
  }

  ghost predicate Small(rs: seq<Rect>) {
    forall i :: 0 <= i < |rs| ==> rs[i].length < 256 && rs[i].colorIndex < 256
  }

  lemma {:induction false} FlatBytes(rs: seq<Rect>)
    requires Small(rs)
    ensures |Flat(rs)| == 2 * |rs| && Pairs(ToBytes(Flat(rs))) == PairsOf(rs)
  {
    if rs != [] {
      var front, r := rs[..|rs| - 1], rs[|rs| - 1];
      FlatBytes(front);
      var last: seq<nat> := [r.length, r.colorIndex];
      assert ToBytes(Flat(rs)) == ToBytes(Flat(front)) + last;
      PairsConcat(ToBytes(Flat(front)), last);
      assert last[2..] == [];
    }
  }

  lemma {:induction false} RunsSmall(row: seq<nat>)
    requires |row| < 256 && forall x :: 0 <= x < |row| ==> row[x] < 256
    ensures forall i :: 0 <= i < |Runs(row)| ==> Runs(row)[i].length <= |row| && Runs(row)[i].colorIndex < 256
  {
    if row != [] {
      RunsSmall(row[..|row| - 1]);
    }
  }

  lemma {:induction false} TrimSmall(runs: seq<Rect>, n: nat, left: nat, right: nat, w: nat)
    requires n <= |runs| && Cuts(runs, left, right, w) && w < 256
    requires forall i :: 0 <= i < |runs| ==> runs[i].length <= w && runs[i].colorIndex < 256
    ensures Small(TrimRects(runs, n, left, right, w))
  {
    if n > 0 {
      TrimSmall(runs, n - 1, left, right, w);
    }
  }

  /** The bytes written for a row are its trimmed runs. */
  lemma RowBytesPairs(row: seq<nat>, left: nat, right: nat, w: nat)
    requires |row| == w < 256 && (forall x :: 0 <= x < |row| ==> row[x] < 256)
    requires Cuts(Runs(row), left, right, w)
    ensures var rs := TrimRects(Runs(row), |Runs(row)|, left, right, w);
      && Pairs(RowBytes(Runs(row), left, right, w)) == PairsOf(rs)
      && |RowBytes(Runs(row), left, right, w)| % 2 == 0
      && Expand(rs) == row[left..right]
      && (left < right ==> Positive(rs))
  {
    hide Cuts, TrimRects, TrimmedRuns, Flat, Small, Runs, Expand;
    var runs := Runs(row);
    RunsExpand(row);
    RunsSmall(row);
    assert |runs| > 0 by { CutsNonEmpty(runs, left, right, w); }
    TrimmedFlat(runs, |runs|, left, right, w);
    TrimSmall(runs, |runs|, left, right, w);
    FlatBytes(TrimRects(runs, |runs|, left, right, w));
    TrimExpand(runs, |runs|, left, right, w);
    TrimPositive(runs, |runs|, left, right, w);
  }

  lemma CutsNonEmpty(runs: seq<Rect>, left: nat, right: nat, w: nat)
    requires Cuts(runs, left, right, w)
    ensures |runs| > 0
  {
  }

  // ----------------------------------------------------------------- painting

  /** The opaque pixels of a stretch of row `y` starting at column `x`. */
  function StretchCanvas(pixels: seq<nat>, x: nat, y: nat): Canvas {
    map i: nat | x <= i < x + |pixels| && pixels[i - x] != 0 :: (i, y) := pixels[i - x]
  }

  lemma StretchConcat(a: seq<nat>, b: seq<nat>, x: nat, y: nat)
    ensures StretchCanvas(a + b, x, y) == StretchCanvas(a, x, y) + StretchCanvas(b, x + |a|, y)
  {
  }

  lemma RunStretch(c: nat, n: nat, x: nat, y: nat)
    ensures RunCanvas(x, y, n, c) == StretchCanvas(Repeat(c, n), x, y)
  {
  }

  lemma ExpandHead(rs: seq<Rect>, x: nat, y: nat)
    requires rs != []
    ensures |Expand(rs)| == rs[0].length + |Expand(rs[1..])|
    ensures StretchCanvas(Expand(rs), x, y) ==
            RunCanvas(x, y, rs[0].length, rs[0].colorIndex) + StretchCanvas(Expand(rs[1..]), x + rs[0].length, y)
  {
    hide StretchCanvas, RunCanvas;
    RunStretch(rs[0].colorIndex, rs[0].length, x, y);
    StretchConcat(Repeat(rs[0].colorIndex, rs[0].length), Expand(rs[1..]), x, y);
  }

  /** Runs that end exactly at the right bound paint one stretch of the row, and
      painting goes on at the start of the next row. */
  lemma {:induction false} PaintStretch(rs: seq<Rect>, rest: seq<(nat, nat)>, b: Bounds, x: nat, y: nat)
    requires Positive(rs) && rs != [] && x + |Expand(rs)| == b.right
    ensures Paint(PairsOf(rs) + rest, b, x, y) == StretchCanvas(Expand(rs), x, y) + Paint(rest, b, b.left, y + 1)
  {
    hide Expand, StretchCanvas, RunCanvas;
    var all := PairsOf(rs) + rest;
    assert all[0] == (rs[0].length, rs[0].colorIndex) && all[1..] == PairsOf(rs[1..]) + rest;
    ExpandHead(rs, x, y);
    if |rs| == 1 {
      assert rs[1..] == [] && PairsOf(rs[1..]) + rest == rest;
      NothingStretch(x + rs[0].length, y);
    } else {
      ExpandHead(rs[1..], x, y);
      PaintStretch(rs[1..], rest, b, x + rs[0].length, y);
    }
  }

  lemma NothingStretch(x: nat, y: nat)
    ensures Expand([]) == [] && StretchCanvas(Expand([]), x, y) == map[]
  {
  }

  /** Runs of no length paint nothing. */
  lemma {:induction false} PaintNothing(rects: seq<(nat, nat)>, b: Bounds, x: nat, y: nat)
    requires forall i :: 0 <= i < |rects| ==> rects[i].0 == 0
    ensures Paint(rects, b, x, y) == map[]
  {
    if rects != [] {
      var (x', y') := Advance(b, x, y, rects[0].0);
      PaintNothing(rects[1..], b, x', y');
      assert RunCanvas(x, y, 0, rects[0].1) == map[];
    }
  }

  lemma {:induction false} EmptyExpansion(rs: seq<Rect>)
    requires Expand(rs) == []
    ensures forall i :: 0 <= i < |rs| ==> rs[i].length == 0
  {
    if rs != [] {
      assert |Repeat(rs[0].colorIndex, rs[0].length)| == 0;
      EmptyExpansion(rs[1..]);
    }
  }

  /** Nothing is ever painted left of the left bound or above the top. */
  lemma {:induction false} PaintWithin(rects: seq<(nat, nat)>, b: Bounds, x: nat, y: nat)
    requires b.left <= x
    ensures forall p :: p in Paint(rects, b, x, y) ==> p.0 >= b.left && p.1 >= y
  {
    if rects != [] {
      var (x', y') := Advance(b, x, y, rects[0].0);
      PaintWithin(rects[1..], b, x', y');
    }
  }
}
