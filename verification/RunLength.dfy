/** Run-length encoding of one row of colour indices. */
module RunLength {
  datatype Rect = Rect(length: nat, colorIndex: nat)

  function Repeat(c: nat, n: nat): (s: seq<nat>)
    ensures |s| == n && forall i :: 0 <= i < n ==> s[i] == c
  {
    seq(n, _ => c)
  }

  /** The pixels a sequence of runs stands for. */
  function Expand(runs: seq<Rect>): seq<nat> {
    if runs == [] then [] else Repeat(runs[0].colorIndex, runs[0].length) + Expand(runs[1..])
  }

  /** One more pixel: it lengthens the last run or starts a new one. */
  function AppendPixel(runs: seq<Rect>, c: nat): seq<Rect> {
    if runs == [] || runs[|runs| - 1].colorIndex != c then runs + [Rect(1, c)]
    else runs[|runs| - 1 := Rect(runs[|runs| - 1].length + 1, c)]
  }

  /** The runs of a row. */
  function Runs(row: seq<nat>): seq<Rect> {
    if row == [] then [] else AppendPixel(Runs(row[..|row| - 1]), row[|row| - 1])
  }

  ghost predicate Positive(runs: seq<Rect>) {
    forall i :: 0 <= i < |runs| ==> runs[i].length > 0
  }

  /** Neighbouring runs differ in colour. */
  ghost predicate Maximal(runs: seq<Rect>) {
    forall i :: 0 <= i < |runs| - 1 ==> runs[i].colorIndex != runs[i + 1].colorIndex
  }

  lemma {:induction false} ExpandConcat(a: seq<Rect>, b: seq<Rect>)
    ensures Expand(a + b) == Expand(a) + Expand(b)
  {
    if a == [] {
      assert a + b == b;
    } else {
      assert (a + b)[1..] == a[1..] + b;
      ExpandConcat(a[1..], b);
    }
  }

  lemma ExpandOne(r: Rect)
    ensures Expand([r]) == Repeat(r.colorIndex, r.length)
  {
    assert [r][1..] == [];
  }

  lemma ExpandAppend(runs: seq<Rect>, c: nat)
    ensures Expand(AppendPixel(runs, c)) == Expand(runs) + [c]
  {
    if runs == [] || runs[|runs| - 1].colorIndex != c {
      ExpandConcat(runs, [Rect(1, c)]);
      ExpandOne(Rect(1, c));
    } else {
      var front, last := runs[..|runs| - 1], runs[|runs| - 1];
      assert runs == front + [last] && AppendPixel(runs, c) == front + [Rect(last.length + 1, c)];
      ExpandConcat(front, [last]);
      ExpandConcat(front, [Rect(last.length + 1, c)]);
      ExpandOne(last);
      ExpandOne(Rect(last.length + 1, c));
      assert Repeat(c, last.length + 1) == Repeat(c, last.length) + [c];
    }
  }

  /** Runs are a faithful and minimal form of the row. */
  lemma {:induction false} RunsExpand(row: seq<nat>)
    ensures Expand(Runs(row)) == row && Positive(Runs(row)) && Maximal(Runs(row))
    ensures Runs(row) == [] <==> row == []
  {
    hide AppendPixel, Expand;
    if row == [] {
      assert Runs(row) == [] && Expand([]) == [] by { NoRuns(); }
    } else {
      var front, c := row[..|row| - 1], row[|row| - 1];
      RunsExpand(front);
      ExpandAppend(Runs(front), c);
      AppendMaximal(Runs(front), c);
      assert row == front + [c];
    }
  }

  lemma NoRuns()
    ensures Runs([]) == [] && Expand([]) == []
  {
  }

  lemma AppendMaximal(runs: seq<Rect>, c: nat)
    requires Positive(runs) && Maximal(runs)
    ensures AppendPixel(runs, c) != [] && Positive(AppendPixel(runs, c)) && Maximal(AppendPixel(runs, c))
  {
  }

  /** The first run covers the start of the row, the last run its end. */
  lemma Ends(runs: seq<Rect>)
    requires runs != []
    ensures var row := Expand(runs); var first, last := runs[0], runs[|runs| - 1];
      && first.length <= |row| && last.length <= |row|
      && (forall x :: 0 <= x < first.length ==> row[x] == first.colorIndex)
      && (forall x :: |row| - last.length <= x < |row| ==> row[x] == last.colorIndex)
      && (|runs| > 1 ==> first.length + last.length <= |row|)
  {
    var front, last := runs[..|runs| - 1], runs[|runs| - 1];
    assert runs == front + [last];
    ExpandConcat(front, [last]);
    ExpandOne(last);
    if |runs| > 1 {
      assert Expand(front) == Repeat(front[0].colorIndex, front[0].length) + Expand(front[1..]);
    }
  }

  /** A row is a single run exactly when all its pixels have one colour. */
  lemma SingleRun(row: seq<nat>)
    requires row != []
    ensures |Runs(row)| == 1 <==> forall x :: 0 <= x < |row| ==> row[x] == row[0]
    ensures |Runs(row)| == 1 ==> Runs(row)[0] == Rect(|row|, row[0])
  {
    var runs := Runs(row);
    RunsExpand(row);
    if |runs| == 1 {
      ExpandOne(runs[0]);
    } else {
      assert Expand(runs) == Repeat(runs[0].colorIndex, runs[0].length) + Expand(runs[1..]);
      assert Expand(runs[1..]) == Repeat(runs[1].colorIndex, runs[1].length) + Expand(runs[1..][1..]);
      assert row[0] == runs[0].colorIndex && row[runs[0].length] == runs[1].colorIndex;
    }
  }
}
