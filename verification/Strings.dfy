/** Splitting and joining strings at a separator. */
module Strings {
  function Join(parts: seq<string>, c: char): string {
    if parts == [] then ""
    else if |parts| == 1 then parts[0]
    else parts[0] + [c] + Join(parts[1..], c)
  }

  function IndexOf(s: string, c: char): (i: nat)
    ensures i <= |s| && c !in s[..i] && (i < |s| ==> s[i] == c)
    ensures c in s <==> i < |s|
  {
    if s == [] || s[0] == c then 0 else 1 + IndexOf(s[1..], c)
  }

  function Split(s: string, c: char): (parts: seq<string>)
    ensures parts != []
  {
    var i := IndexOf(s, c);
    if i == |s| then [s] else [s[..i]] + Split(s[i + 1..], c)
  }

  lemma {:induction false} JoinSplit(s: string, c: char)
    ensures Join(Split(s, c), c) == s
    ensures forall i :: 0 <= i < |Split(s, c)| ==> c !in Split(s, c)[i]
  {
    var i := IndexOf(s, c);
    if i < |s| {
      JoinSplit(s[i + 1..], c);
      assert Split(s, c)[1..] == Split(s[i + 1..], c);
      assert s == s[..i] + [c] + s[i + 1..];
    }
  }

  lemma {:induction false} IndexAfter(a: string, b: string, c: char)
    requires c !in a
    ensures IndexOf(a + [c] + b, c) == |a|
  {
    if a != "" {
      assert (a + [c] + b)[1..] == a[1..] + [c] + b;
      IndexAfter(a[1..], b, c);
    }
  }

  lemma SplitAt(a: string, b: string, c: char)
    requires c !in a
    ensures Split(a + [c] + b, c) == [a] + Split(b, c)
  {
    var s := a + [c] + b;
    assert s[|a|] == c;
    IndexAfter(a, b, c);
    assert s[..|a|] == a && s[|a| + 1..] == b;
  }

  /** The parts of two strings put together: the last of the one and the first of
      the other become one. */
  function Glue(a: seq<string>, b: seq<string>): seq<string>
    requires a != [] && b != []
  {
    a[..|a| - 1] + [a[|a| - 1] + b[0]] + b[1..]
  }

  lemma {:induction false} SplitConcat(a: string, b: string, c: char)
    ensures Split(a + b, c) == Glue(Split(a, c), Split(b, c))
    decreases |a|
  {
    hide Split;
    var i := IndexOf(a, c);
    if i == |a| {
      NoSplit(a, c);
      SplitPlain(a, b, c);
    } else {
      var rest := a[i + 1..];
      SplitConcat(rest, b, c);
      assert a == a[..i] + [c] + rest && a + b == a[..i] + [c] + (rest + b);
      SplitAt(a[..i], rest, c);
      SplitAt(a[..i], rest + b, c);
      GlueCons(a[..i], Split(rest, c), Split(b, c));
    }
  }

  lemma GlueCons(s: string, a: seq<string>, b: seq<string>)
    requires a != [] && b != []
    ensures Glue([s] + a, b) == [s] + Glue(a, b)
  {
    assert ([s] + a)[..|a|] == [s] + a[..|a| - 1];
  }

  /** Text without the separator goes to the first part. */
  lemma SplitPlain(a: string, b: string, c: char)
    requires c !in a
    ensures Split(a + b, c) == [a + Split(b, c)[0]] + Split(b, c)[1..]
  {
    hide Split;
    var j := IndexOf(b, c);
    if j == |b| {
      NoSplit(b, c);
      NoSplit(a + b, c);
    } else {
      assert b == b[..j] + [c] + b[j + 1..] && a + b == (a + b[..j]) + [c] + b[j + 1..];
      SplitAt(b[..j], b[j + 1..], c);
      SplitAt(a + b[..j], b[j + 1..], c);
    }
  }

  lemma NoSplit(s: string, c: char)
    requires c !in s
    ensures Split(s, c) == [s]
  {
  }

  /** Parts without the separator come back as they were. */
  lemma {:induction false} SplitJoin(parts: seq<string>, c: char)
    requires parts != [] && forall i :: 0 <= i < |parts| ==> c !in parts[i]
    ensures Split(Join(parts, c), c) == parts
  {
    if |parts| > 1 {
      SplitJoin(parts[1..], c);
      SplitAt(parts[0], Join(parts[1..], c), c);
    }
  }

  lemma {:induction false} CharsOfJoin(parts: seq<string>, sep: char, c: char)
    requires c != sep && forall i :: 0 <= i < |parts| ==> c !in parts[i]
    ensures c !in Join(parts, sep)
  {
    if |parts| > 1 {
      CharsOfJoin(parts[1..], sep, c);
    }
  }

  lemma CharsOfSplit(s: string, sep: char, c: char)
    requires c !in s
    ensures forall i :: 0 <= i < |Split(s, sep)| ==> c !in Split(s, sep)[i]
    decreases |s|
  {
    var i := IndexOf(s, sep);
    if i < |s| {
      CharsOfSplit(s[i + 1..], sep, c);
    }
  }
}
