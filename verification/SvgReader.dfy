/** Reading an SVG document back: its elements and their attributes, and what its
    rectangles paint. Both renderers are shown to paint the decoded images at ten
    units to the pixel. */
module SvgReader {
  import opened Basics
  import opened Hex
  import opened SvgBuilder
  import opened SvgText
  import opened MultiPartRLEToSVG
  import Strings

  // ---------------------------------------------------------------- the reader

  datatype Element = Element(tag: string, attributes: map<string, string>)

  /** What follows the last `c`; everything if there is none. */
  function AfterLast(s: string, c: char): string {
    if s == "" || c !in s then s else AfterLast(s[1..], c)
  }

  function BeforeFirst(s: string, c: char): string {
    s[..Strings.IndexOf(s, c)]
  }

  /** The name of the attribute whose value comes after the text `outside`. */
  function NameOf(outside: string): string {
    BeforeFirst(AfterLast(outside, ' '), '=')
  }

  function TagOf(outside: string): string {
    BeforeFirst(AfterLast(outside, '<'), ' ')
  }

  /** One more attribute: a `<` before it opens another element. */
  function Attach(es: seq<Element>, outside: string, value: string): seq<Element> {
    if '<' in outside then es + [Element(TagOf(outside), map[NameOf(outside) := value])]
    else if es == [] then []
    else
      var e := es[|es| - 1];
      es[|es| - 1 := e.(attributes := e.attributes[NameOf(outside) := value])]
  }

  /** The elements of a document split at its quotes: text outside of quotes and
      attribute values take turns. */
  function ReadPieces(pieces: seq<string>): seq<Element> {
    if |pieces| < 3 then []
    else Attach(ReadPieces(pieces[..|pieces| - 2]), pieces[|pieces| - 3], pieces[|pieces| - 2])
  }

  function Pieces(text: string): seq<string> {
    Strings.Split(text, '"')
  }

  function Elements(text: string): seq<Element> {
    ReadPieces(Pieces(text))
  }

  /** Every quote is closed. */
  predicate Closed(text: string) {
    |Pieces(text)| % 2 == 1
  }

  /** The text after the last quote. */
  function Tail(text: string): string {
    Pieces(text)[|Pieces(text)| - 1]
  }

  predicate Unquoted(s: string) {
    '"' !in s
  }

  // ---------------------------------------------------------- reading what is written

  lemma {:induction false} AfterLastIs(a: string, b: string, c: char)
    requires c !in b
    ensures AfterLast(a + [c] + b, c) == b
  {
    if a == "" {
      assert [c] + b == a + [c] + b && ([c] + b)[1..] == b;
    } else {
      assert (a + [c] + b)[1..] == a[1..] + [c] + b;
      AfterLastIs(a[1..], b, c);
    }
  }

  lemma BeforeFirstIs(a: string, b: string, c: char)
    requires c !in a
    ensures BeforeFirst(a + [c] + b, c) == a
  {
    Strings.IndexAfter(a, b, c);
  }

  lemma {:induction false} ReadLast(pieces: seq<string>, other: seq<string>)
    requires |pieces| == |other| && pieces != [] && pieces[..|pieces| - 1] == other[..|pieces| - 1]
    ensures ReadPieces(pieces) == ReadPieces(other)
  {
    var n := |pieces|;
    if n >= 3 {
      assert pieces[..n - 2] == pieces[..n - 1][..n - 2] && other[..n - 2] == other[..n - 1][..n - 2];
      assert pieces[n - 3] == pieces[..n - 1][n - 3] && pieces[n - 2] == pieces[..n - 1][n - 2];
    }
  }

  /** Text without quotes adds no element and no attribute yet. */
  lemma ReadPlain(text: string, s: string)
    requires Unquoted(s)
    ensures Elements(text + s) == Elements(text) && Tail(text + s) == Tail(text) + s
    ensures Closed(text + s) <==> Closed(text)
  {
    Strings.SplitConcat(text, s, '"');
    Strings.NoSplit(s, '"');
    ReadLast(Pieces(text + s), Pieces(text));
  }

  /** An attribute belongs to the element opened last. */
  lemma ReadAttribute(text: string, name: string, value: string)
    requires Closed(text) && Unquoted(name) && Unquoted(value)
    ensures Elements(text + Attribute(name, value)) == Attach(Elements(text), Tail(text) + " " + name + "=", value)
    ensures Tail(text + Attribute(name, value)) == "" && Closed(text + Attribute(name, value))
  {
    hide Strings.Split, ReadPieces, Attach;
    var before, ps := Pieces(text), Pieces(text + Attribute(name, value));
    var outside := Tail(text) + " " + name + "=";
    AttributePieces(name, value);
    Strings.SplitConcat(text, Attribute(name, value), '"');
    assert Tail(text) + (" " + name + "=") == outside;
    assert ps == before[..|before| - 1] + [outside] + [value, ""];
    assert ps[..|ps| - 2] == before[..|before| - 1] + [outside];
    ReadLast(ps[..|ps| - 2], before);
    ReadMore(ps);
  }

  lemma ReadMore(pieces: seq<string>)
    requires |pieces| >= 3
    ensures ReadPieces(pieces) ==
            Attach(ReadPieces(pieces[..|pieces| - 2]), pieces[|pieces| - 3], pieces[|pieces| - 2])
  {
  }

  lemma AttributePieces(name: string, value: string)
    requires Unquoted(name) && Unquoted(value)
    ensures Pieces(Attribute(name, value)) == [" " + name + "=", value, ""]
  {
    hide Strings.Split;
    var outside := " " + name + "=";
    Strings.NoSplit("", '"');
    Strings.SplitAt(value, "", '"');
    Strings.SplitAt(outside, value + "\"", '"');
    assert value + ['"'] + "" == value + "\"";
    assert Attribute(name, value) == outside + ['"'] + (value + "\"");
  }

  /** Attribute and tag names: letters and hyphens. */
  predicate Word(s: string) {
    forall i :: 0 <= i < |s| ==> 'a' <= s[i] <= 'z' || 'A' <= s[i] <= 'Z' || s[i] == '-'
  }

  /** The first attribute after an opening tag. */
  lemma OpensElement(es: seq<Element>, before: string, tag: string, name: string, value: string)
    requires Word(tag) && Word(name)
    ensures Attach(es, before + "<" + tag + " " + name + "=", value) == es + [Element(tag, map[name := value])]
  {
    var outside := before + "<" + tag + " " + name + "=";
    assert outside[|before|] == '<';
    assert outside == before + ['<'] + (tag + [' '] + (name + "="));
    AfterLastIs(before, tag + [' '] + (name + "="), '<');
    BeforeFirstIs(tag, name + "=", ' ');
    Named(before + "<" + tag, name);
  }

  lemma Named(before: string, name: string)
    requires Word(name)
    ensures NameOf(before + " " + name + "=") == name
  {
    assert before + " " + name + "=" == before + [' '] + (name + "=");
    AfterLastIs(before, name + "=", ' ');
    assert name + "=" == name + ['='] + "";
    BeforeFirstIs(name, "", '=');
  }

  /** A later attribute. */
  lemma AddsAttribute(es: seq<Element>, tag: string, attributes: map<string, string>, name: string, value: string)
    requires Word(name)
    ensures Attach(es + [Element(tag, attributes)], " " + name + "=", value) ==
            es + [Element(tag, attributes[name := value])]
  {
    Named("", name);
    assert "" + " " + name + "=" == " " + name + "=";
  }

  /** An opening tag with its first attribute opens an element. */
  lemma ReadOpen(text: string, tag: string, name: string, value: string)
    requires Closed(text) && Word(tag) && Word(name) && Unquoted(value)
    ensures var text' := text + ("<" + tag) + Attribute(name, value);
      && Closed(text') && Tail(text') == ""
      && Elements(text') == Elements(text) + [Element(tag, map[name := value])]
  {
    hide Strings.Split, ReadPieces, Attach, Elements, Closed, Tail, Attribute;
    assert Unquoted("<" + tag) && Unquoted(name);
    ReadPlain(text, "<" + tag);
    ReadAttribute(text + ("<" + tag), name, value);
    OpensElement(Elements(text), Tail(text), tag, name, value);
    assert Tail(text) + ("<" + tag) + " " + name + "=" == Tail(text) + "<" + tag + " " + name + "=";
  }

  /** A further attribute is one of the same element. */
  lemma ReadNext(text: string, es: seq<Element>, tag: string, attributes: map<string, string>,
      name: string, value: string)
    requires Closed(text) && Tail(text) == "" && Elements(text) == es + [Element(tag, attributes)]
    requires Word(name) && Unquoted(value)
    ensures var text' := text + Attribute(name, value);
      && Closed(text') && Tail(text') == "" && Elements(text') == es + [Element(tag, attributes[name := value])]
  {
    hide Strings.Split, ReadPieces, Attach, Elements, Closed, Tail, Attribute;
    assert Unquoted(name);
    ReadAttribute(text, name, value);
    AddsAttribute(es, tag, attributes, name, value);
    assert "" + " " + name + "=" == " " + name + "=";
  }

  lemma Names()
    ensures Word("svg") && Word("rect") && Word("width") && Word("height") && Word("x") && Word("y") && Word("fill")
    ensures Word("viewBox") && Word("xmlns") && Word("shape-rendering")
  {
  }

  // --------------------------------------------------------------- one rectangle

  function RectElement(width: string, x: string, y: string, color: string): Element {
    Element("rect", map["width" := width, "height" := "10", "x" := x, "y" := y, "fill" := "#" + color])
  }

  lemma ReadRect(text: string, width: string, x: string, y: string, color: string)
    requires Closed(text) && Unquoted(width) && Unquoted(x) && Unquoted(y) && Unquoted(color)
    ensures var text' := text + RectText(width, x, y, color);
      Closed(text') && Elements(text') == Elements(text) + [RectElement(width, x, y, color)]
  {
    hide Strings.Split, ReadPieces, Attach, Elements, Closed, Tail, Attribute, Word;
    Names();
    var es := Elements(text);
    ReadOpen(text, "rect", "width", width);
    var t := text + ("<" + "rect") + Attribute("width", width);
    ReadNext(t, es, "rect", map["width" := width], "height", "10");
    ReadNext(t + Attribute("height", "10"), es, "rect", map["width" := width, "height" := "10"], "x", x);
    var u := t + Attribute("height", "10") + Attribute("x", x);
    ReadNext(u, es, "rect", map["width" := width, "height" := "10", "x" := x], "y", y);
    ReadNext(u + Attribute("y", y), es, "rect", map["width" := width, "height" := "10", "x" := x, "y" := y],
             "fill", "#" + color);
    var v := u + Attribute("y", y) + Attribute("fill", "#" + color);
    ReadPlain(v, " />");
    assert text + RectText(width, x, y, color) == v + " />";
  }

  // ------------------------------------------------------------------- numbers

  /** The value of a string of decimal digits. */
  function Number(s: string): nat {
    if s == "" then 0
    else
      var c := s[|s| - 1];
      10 * Number(s[..|s| - 1]) + if '0' <= c <= '9' then c as nat - '0' as nat else 0
  }

  lemma {:induction false} NumberOfDecimal(n: nat)
    ensures Number(Decimal(n)) == n && Unquoted(Decimal(n))
  {
    hide Number;
    DigitChar(n % 10);
    if n < 10 {
      LastDigit("", n);
      assert "" + [DIGITS[n]] == Decimal(n);
      assert Number("") == 0 by { NoDigits(); }
    } else {
      NumberOfDecimal(n / 10);
      LastDigit(Decimal(n / 10), n % 10);
    }
  }

  lemma NoDigits()
    ensures Number("") == 0
  {
  }

  lemma DigitChar(d: nat)
    requires d < 10
    ensures '0' <= DIGITS[d] <= '9' && DIGITS[d] as nat - '0' as nat == d
  {
  }

  lemma LastDigit(s: string, d: nat)
    requires d < 10
    ensures Number(s + [DIGITS[d]]) == 10 * Number(s) + d
  {
    DigitChar(d);
    assert (s + [DIGITS[d]])[..|s|] == s;
  }

  // ------------------------------------------------------------------ painting

  /** What is painted where. */
  type Picture = map<(nat, nat), string>

  function Value(e: Element, name: string): string {
    if name in e.attributes then e.attributes[name] else ""
  }

  /** The units a rectangle covers, in its fill. */
  ghost function Area(e: Element): Picture {
    var x, y := Number(Value(e, "x")), Number(Value(e, "y"));
    var width, height := Number(Value(e, "width")), Number(Value(e, "height"));
    if e.tag != "rect" then map[]
    else map i: nat, j: nat | x <= i < x + width && y <= j < y + height :: (i, j) := Value(e, "fill")
  }

  /** Later rectangles paint over earlier ones. */
  ghost function Raster(es: seq<Element>): Picture {
    if es == [] then map[] else Raster(es[..|es| - 1]) + Area(es[|es| - 1])
  }

  /** The unit at (i, j) is painted like the pixel it belongs to. */
  ghost predicate Shown(r: Picture, p: Picture, i: nat, j: nat) {
    var at := (i / 10, j / 10);
    ((i, j) in r <==> at in p) && ((i, j) in r && at in p ==> r[(i, j)] == p[at])
  }

  /** The raster shows the picture at ten units to the pixel. */
  ghost predicate AtTen(r: Picture, p: Picture) {
    forall i: nat, j: nat :: Shown(r, p, i, j)
  }

  /** A canvas in the colours of a palette. */
  ghost function Coloured(c: Canvas, palette: seq<string>): Picture {
    map p | p in c :: "#" + if c[p] < |palette| then palette[c[p]] else "undefined"
  }

  lemma AtTenSum(r: Picture, p: Picture, r': Picture, p': Picture)
    requires AtTen(r, p) && AtTen(r', p')
    ensures AtTen(r + r', p + p')
  {
    hide Shown;
    forall i: nat, j: nat ensures Shown(r + r', p + p', i, j) {
      ShownSum(r, p, r', p', i, j);
    }
  }

  lemma ShownSum(r: Picture, p: Picture, r': Picture, p': Picture, i: nat, j: nat)
    requires Shown(r, p, i, j) && Shown(r', p', i, j)
    ensures Shown(r + r', p + p', i, j)
  {
  }

  lemma ColouredSum(c: Canvas, c': Canvas, palette: seq<string>)
    ensures Coloured(c + c', palette) == Coloured(c, palette) + Coloured(c', palette)
  {
  }

  lemma {:induction false} RasterConcat(a: seq<Element>, b: seq<Element>)
    ensures Raster(a + b) == Raster(a) + Raster(b)
  {
    hide Area;
    if b == [] {
      assert a + b == a;
    } else {
      var front, last := b[..|b| - 1], b[|b| - 1];
      RasterConcat(a, front);
      assert (a + b)[..|a + b| - 1] == a + front;
      PlusAssoc(Raster(a), Raster(front), Area(last));
    }
  }

  lemma PlusAssoc(p: Picture, q: Picture, r: Picture)
    ensures p + q + r == p + (q + r)
  {
  }

  /** A block of units in one fill. */
  ghost function Block(x: nat, y: nat, width: nat, height: nat, fill: string): Picture {
    map i: nat, j: nat | x <= i < x + width && y <= j < y + height :: (i, j) := fill
  }

  lemma RectArea(width: nat, x: nat, y: nat, color: string)
    ensures Area(RectElement(Decimal(width), Decimal(x), Decimal(y), color)) == Block(x, y, width, 10, "#" + color)
  {
    hide Decimal, Number;
    NumberOfDecimal(width);
    NumberOfDecimal(x);
    NumberOfDecimal(y);
    Ten();
  }

  lemma Ten()
    ensures Number("10") == 10
  {
    assert "10"[..1] == "1" && "1"[..0] == "";
  }

  lemma BlockAt(x: nat, y: nat, width: nat, height: nat, fill: string, i: nat, j: nat)
    ensures (i, j) in Block(x, y, width, height, fill) <==> x <= i < x + width && y <= j < y + height
    ensures (i, j) in Block(x, y, width, height, fill) ==> Block(x, y, width, height, fill)[(i, j)] == fill
  {
  }

  lemma RunAt(x: nat, y: nat, length: nat, colorIndex: nat, palette: seq<string>, i: nat, j: nat)
    requires colorIndex != 0
    ensures var p := Coloured(RunCanvas(x, y, length, colorIndex), palette);
      && ((i, j) in p <==> x <= i < x + length && j == y)
      && ((i, j) in p ==> p[(i, j)] == "#" + ColorName(palette, colorIndex))
  {
  }

  lemma RunShown(x: nat, y: nat, length: nat, colorIndex: nat, palette: seq<string>, i: nat, j: nat)
    requires colorIndex != 0
    ensures Shown(Block(10 * x, 10 * y, 10 * length, 10, "#" + ColorName(palette, colorIndex)),
                  Coloured(RunCanvas(x, y, length, colorIndex), palette), i, j)
  {
    hide Block, Coloured, RunCanvas, ColorName;
    BlockAt(10 * x, 10 * y, 10 * length, 10, "#" + ColorName(palette, colorIndex), i, j);
    RunAt(x, y, length, colorIndex, palette, i / 10, j / 10);
  }

  /** One run covers its pixels, ten by ten. */
  lemma RunArea(x: nat, y: nat, length: nat, colorIndex: nat, palette: seq<string>)
    requires colorIndex != 0
    ensures var color := ColorName(palette, colorIndex);
      AtTen(Area(RectElement(Decimal(10 * length), Decimal(10 * x), Decimal(10 * y), color)),
            Coloured(RunCanvas(x, y, length, colorIndex), palette))
  {
    hide Decimal, Block, Coloured, RunCanvas, Area, RectElement, ColorName, Shown;
    var color := ColorName(palette, colorIndex);
    RectArea(10 * length, 10 * x, 10 * y, color);
    forall i: nat, j: nat
      ensures Shown(Block(10 * x, 10 * y, 10 * length, 10, "#" + color),
                    Coloured(RunCanvas(x, y, length, colorIndex), palette), i, j)
    {
      RunShown(x, y, length, colorIndex, palette, i, j);
    }
  }

  // ------------------------------------------------------------------ one image

  /** The palette's names hold no quote. */
  predicate Plain(palette: seq<string>) {
    forall c :: c in palette ==> Unquoted(c)
  }

  lemma PlainColor(palette: seq<string>, i: nat)
    requires Plain(palette)
    ensures Unquoted(ColorName(palette, i))
  {
    if i < |palette| { assert palette[i] in palette; }
  }

  /** The canvas after the first `n` runs. */
  function PaintedTo(image: DecodedImage, n: nat): Canvas
    requires n <= |image.rects|
  {
    if n == 0 then map[]
    else
      var (x, y) := Position(image, n - 1);
      PaintedTo(image, n - 1) + RunCanvas(x, y, image.rects[n - 1].0, image.rects[n - 1].1)
  }

  lemma {:induction false} PaintedFrom(image: DecodedImage, n: nat)
    requires n <= |image.rects|
    ensures var (x, y) := Position(image, n);
      PaintedTo(image, n) + Paint(image.rects[n..], image.bounds, x, y) == Painted(image)
  {
    hide RunCanvas;
    if n == 0 {
      assert image.rects[0..] == image.rects;
      assert map[] + Painted(image) == Painted(image);
    } else {
      PaintedFrom(image, n - 1);
      var rest := image.rects[n - 1..];
      assert rest[0] == image.rects[n - 1] && rest[1..] == image.rects[n..];
      var (x, y) := Position(image, n - 1);
      var (x', y') := Position(image, n);
      CanvasAssoc(PaintedTo(image, n - 1), RunCanvas(x, y, rest[0].0, rest[0].1),
                  Paint(image.rects[n..], image.bounds, x', y'));
    }
  }

  lemma CanvasAssoc(p: Canvas, q: Canvas, r: Canvas)
    ensures p + q + r == p + (q + r)
  {
  }

  lemma PaintedAll(image: DecodedImage)
    ensures PaintedTo(image, |image.rects|) == Painted(image)
  {
    hide PaintedTo, Position;
    PaintedFrom(image, |image.rects|);
    assert image.rects[|image.rects|..] == [];
    assert PaintedTo(image, |image.rects|) + map[] == PaintedTo(image, |image.rects|);
  }

  lemma PaintedStep(image: DecodedImage, n: nat)
    requires n < |image.rects|
    ensures PaintedTo(image, n + 1) == PaintedTo(image, n) + RunPainted(image, n)
    ensures PaintedTo(image, 0) == map[]
  {
  }

  function RunPainted(image: DecodedImage, i: nat): Canvas
    requires i < |image.rects|
  {
    var (x, y) := Position(image, i);
    RunCanvas(x, y, image.rects[i].0, image.rects[i].1)
  }

  /** Reading the text of the first `n` runs gives rectangles that paint them. */
  lemma {:induction false} RunsRead(text: string, image: DecodedImage, palette: seq<string>, n: nat)
    returns (es: seq<Element>)
    requires Closed(text) && Plain(palette) && n <= |image.rects|
    ensures var text' := text + RunsText(image, palette, n);
      Closed(text') && Elements(text') == Elements(text) + es
    ensures AtTen(Raster(es), Coloured(PaintedTo(image, n), palette))
  {
    hide *;
    if n == 0 {
      es := [];
      NothingRead(text, image, palette);
    } else {
      var before := RunsRead(text, image, palette, n - 1);
      var front, run := RunsText(image, palette, n - 1), RunText(image, palette, n - 1);
      var more := RunRead(text + front, image, palette, n - 1);
      es := before + more;
      RunsTextStep(image, palette, n - 1);
      assert text + (front + run) == text + front + run;
      RasterConcat(before, more);
      PaintedStep(image, n - 1);
      ColouredSum(PaintedTo(image, n - 1), RunPainted(image, n - 1), palette);
      AtTenSum(Raster(before), Coloured(PaintedTo(image, n - 1), palette),
               Raster(more), Coloured(RunPainted(image, n - 1), palette));
    }
  }

  lemma NothingRead(text: string, image: DecodedImage, palette: seq<string>)
    ensures text + RunsText(image, palette, 0) == text && Elements(text) + [] == Elements(text)
    ensures AtTen(Raster([]), Coloured(PaintedTo(image, 0), palette))
  {
    hide Elements;
  }

  lemma RunRead(text: string, image: DecodedImage, palette: seq<string>, i: nat) returns (es: seq<Element>)
    requires Closed(text) && Plain(palette) && i < |image.rects|
    ensures var text' := text + RunText(image, palette, i);
      Closed(text') && Elements(text') == Elements(text) + es
    ensures AtTen(Raster(es), Coloured(RunPainted(image, i), palette))
  {
    hide Closed, Elements, Position, Coloured, Raster, AtTen, Decimal, RectText, Plain, Unquoted;
    hide ColorName, RectElement;
    var (length, colorIndex) := image.rects[i];
    var (x, y) := Position(image, i);
    if colorIndex == 0 {
      es := [];
      assert text + "" == text;
      NoRun(palette, x, y, length);
    } else {
      NumberOfDecimal(10 * length);
      NumberOfDecimal(10 * x);
      NumberOfDecimal(10 * y);
      PlainColor(palette, colorIndex);
      ReadRect(text, Decimal(10 * length), Decimal(10 * x), Decimal(10 * y), ColorName(palette, colorIndex));
      var e := RectElement(Decimal(10 * length), Decimal(10 * x), Decimal(10 * y), ColorName(palette, colorIndex));
      es := [e];
      OneArea(e);
      RunArea(x, y, length, colorIndex, palette);
    }
  }

  lemma NoRun(palette: seq<string>, x: nat, y: nat, length: nat)
    ensures AtTen(Raster([]), Coloured(RunCanvas(x, y, length, 0), palette))
  {
  }

  lemma OneArea(e: Element)
    ensures Raster([e]) == Area(e)
  {
    hide Area;
    assert [e][..0] == [];
    assert Raster([]) + Area(e) == Area(e);
  }

  /** Reading the text of an image gives rectangles that paint the decoded image at
      ten units to the pixel, in the colours of the palette. */
  lemma ImageRead(text: string, image: DecodedImage, palette: seq<string>) returns (es: seq<Element>)
    requires Closed(text) && Plain(palette)
    ensures var text' := text + ImageText(image, palette);
      Closed(text') && Elements(text') == Elements(text) + es
    ensures AtTen(Raster(es), Coloured(Painted(image), palette))
  {
    hide Closed, Elements, Coloured, Raster, AtTen, Painted, RunsText;
    es := RunsRead(text, image, palette, |image.rects|);
    PaintedAll(image);
  }

  // --------------------------------------------------------------- the document

  lemma NothingYet()
    ensures Closed("") && Elements("") == []
  {
    Strings.NoSplit("", '"');
  }

  lemma SvgTagRead()
    ensures var text := "" + ("<" + "svg") + Attribute("width", "320") + Attribute("height", "320")
                        + Attribute("viewBox", "0 0 320 320") + Attribute("xmlns", "http://www.w3.org/2000/svg")
                        + Attribute("shape-rendering", "crispEdges") + ">";
      && Closed(text)
      && Elements(text) == [Element("svg", map["width" := "320", "height" := "320", "viewBox" := "0 0 320 320",
                                               "xmlns" := "http://www.w3.org/2000/svg",
                                               "shape-rendering" := "crispEdges"])]
  {
    hide Strings.Split, ReadPieces, Attach, Elements, Closed, Tail, Attribute, Word;
    Names();
    NothingYet();
    ReadOpen("", "svg", "width", "320");
    var t := "" + ("<" + "svg") + Attribute("width", "320");
    var m := map["width" := "320"];
    ReadNext(t, [], "svg", m, "height", "320");
    t, m := t + Attribute("height", "320"), m["height" := "320"];
    ReadNext(t, [], "svg", m, "viewBox", "0 0 320 320");
    t, m := t + Attribute("viewBox", "0 0 320 320"), m["viewBox" := "0 0 320 320"];
    ReadNext(t, [], "svg", m, "xmlns", "http://www.w3.org/2000/svg");
    t, m := t + Attribute("xmlns", "http://www.w3.org/2000/svg"), m["xmlns" := "http://www.w3.org/2000/svg"];
    ReadNext(t, [], "svg", m, "shape-rendering", "crispEdges");
    t, m := t + Attribute("shape-rendering", "crispEdges"), m["shape-rendering" := "crispEdges"];
    ReadPlain(t, ">");
  }

  /** A square of 320 units with a background that fills it. */
  lemma HeaderRead(background: string)
    requires Unquoted(background)
    ensures Closed(Header(background))
    ensures var es := Elements(Header(background));
      && |es| == 2 && es[0].tag == "svg" && es[1].tag == "rect"
      && es[0].attributes == map["width" := "320", "height" := "320", "viewBox" := "0 0 320 320",
                                 "xmlns" := "http://www.w3.org/2000/svg", "shape-rendering" := "crispEdges"]
      && es[1].attributes == map["width" := "100%", "height" := "100%", "fill" := "#" + background]
  {
    hide Strings.Split, ReadPieces, Attach, Elements, Closed, Tail, Attribute, Word;
    Names();
    SvgTagRead();
    var text := "" + ("<" + "svg") + Attribute("width", "320") + Attribute("height", "320")
                + Attribute("viewBox", "0 0 320 320") + Attribute("xmlns", "http://www.w3.org/2000/svg")
                + Attribute("shape-rendering", "crispEdges") + ">";
    var es := Elements(text);
    ReadOpen(text, "rect", "width", "100%");
    var t := text + ("<" + "rect") + Attribute("width", "100%");
    ReadNext(t, es, "rect", map["width" := "100%"], "height", "100%");
    ReadNext(t + Attribute("height", "100%"), es, "rect", map["width" := "100%", "height" := "100%"],
             "fill", "#" + background);
    ReadPlain(t + Attribute("height", "100%") + Attribute("fill", "#" + background), " />");
    assert Header(background) == t + Attribute("height", "100%") + Attribute("fill", "#" + background) + " />";
  }

  /** The document of some text between the header and the end tag. */
  lemma DocumentRead(background: string, rects: string, es: seq<Element>)
    requires Unquoted(background)
    requires Closed(Header(background) + rects)
    requires Elements(Header(background) + rects) == Elements(Header(background)) + es
    ensures Elements(SvgOf(background, rects)) == Elements(Header(background)) + es
  {
    hide Elements, Closed, Header;
    ReadPlain(Header(background) + rects, "</svg>");
  }

  /** Off-chain: what the first `n` parts paint, one over the other. */
  ghost function PartsPicture(parts: seq<string>, palette: seq<string>, n: nat): Picture
    requires n <= |parts| && forall i :: 0 <= i < |parts| ==> WellFormed(parts[i])
  {
    if n == 0 then map[]
    else PartsPicture(parts, palette, n - 1) + Coloured(Painted(DecodeImage(parts[n - 1])), palette)
  }

  lemma {:induction false} PartsRead(text: string, parts: seq<string>, palette: seq<string>, n: nat)
    returns (es: seq<Element>)
    requires n <= |parts| && forall i :: 0 <= i < |parts| ==> WellFormed(parts[i])
    requires Closed(text) && Plain(palette)
    ensures var text' := text + PartsText(parts, palette, n);
      Closed(text') && Elements(text') == Elements(text) + es
    ensures AtTen(Raster(es), PartsPicture(parts, palette, n))
  {
    hide Closed, Elements, Coloured, Raster, AtTen, Painted, ImageText, DecodeImage, WellFormed, Plain;
    if n == 0 {
      es := [];
      assert text + "" == text;
      NoRaster();
    } else {
      var before := PartsRead(text, parts, palette, n - 1);
      var image := DecodeImage(parts[n - 1]);
      var front, last := PartsText(parts, palette, n - 1), ImageText(image, palette);
      var more := ImageRead(text + front, image, palette);
      es := before + more;
      assert text + (front + last) == text + front + last;
      RasterConcat(before, more);
      AtTenSum(Raster(before), PartsPicture(parts, palette, n - 1), Raster(more), Coloured(Painted(image), palette));
    }
  }

  lemma NoRaster()
    ensures AtTen(Raster([]), map[])
  {
  }

  /** On-chain: each part in the colours of the palette it names. */
  ghost function ChainPicture(parts: seq<seq<nat>>, palettes: Palettes, n: nat): Picture
    requires n <= |parts| && forall i :: 0 <= i < n ==> Decodable(parts[i])
  {
    if n == 0 then map[]
    else
      assert Decodable(parts[n - 1]);
      var image := DecodeBytes(parts[n - 1]);
      ChainPicture(parts, palettes, n - 1) + Coloured(Painted(image), At(palettes, parts[n - 1][0], []))
  }

  predicate AllPlain(palettes: Palettes) {
    forall k :: k in palettes ==> Plain(palettes[k])
  }

  lemma PaletteNamed(part: seq<nat>, palettes: Palettes)
    requires Decodable(part)
    ensures PaletteOf(palettes, DecodeBytes(part)) == At(palettes, part[0], [])
  {
  }

  lemma {:induction false} ChainRead(text: string, parts: seq<seq<nat>>, palettes: Palettes, n: nat)
    returns (es: seq<Element>)
    requires n <= |parts| && forall i :: 0 <= i < n ==> Decodable(parts[i])
    requires Closed(text) && AllPlain(palettes)
    ensures var text' := text + ChainText(parts, palettes, n);
      Closed(text') && Elements(text') == Elements(text) + es
    ensures AtTen(Raster(es), ChainPicture(parts, palettes, n))
  {
    hide Closed, Elements, Coloured, Raster, AtTen, Painted, ImageText, DecodeBytes;
    if n == 0 {
      es := [];
      assert text + "" == text;
      NoRaster();
    } else {
      var before := ChainRead(text, parts, palettes, n - 1);
      assert Decodable(parts[n - 1]);
      var image := DecodeBytes(parts[n - 1]);
      var palette := At(palettes, parts[n - 1][0], []);
      PaletteNamed(parts[n - 1], palettes);
      var front, last := ChainText(parts, palettes, n - 1), ImageText(image, palette);
      var more := ImageRead(text + front, image, palette);
      es := before + more;
      assert text + (front + last) == text + front + last;
      RasterConcat(before, more);
      AtTenSum(Raster(before), ChainPicture(parts, palettes, n - 1), Raster(more), Coloured(Painted(image), palette));
    }
  }

  /** A document of 320 by 320 units with a full background, whose other elements
      paint the picture at ten units to the pixel. */
  ghost predicate Draws(svg: string, background: string, p: Picture) {
    var es := Elements(svg);
    && |es| >= 2 && es[0].tag == "svg" && es[1].tag == "rect"
    && es[0].attributes == map["width" := "320", "height" := "320", "viewBox" := "0 0 320 320",
                               "xmlns" := "http://www.w3.org/2000/svg", "shape-rendering" := "crispEdges"]
    && es[1].attributes == map["width" := "100%", "height" := "100%", "fill" := "#" + background]
    && AtTen(Raster(es[2..]), p)
  }

  /** What the off-chain renderer writes draws the decoded parts. */
  lemma BuiltDraws(parts: seq<string>, palette: seq<string>, background: string)
    requires forall i :: 0 <= i < |parts| ==> WellFormed(parts[i])
    requires Plain(palette) && Unquoted(background)
    ensures Draws(SvgOf(background, PartsText(parts, palette, |parts|)), background,
                  PartsPicture(parts, palette, |parts|))
  {
    hide Closed, Elements, Header, AtTen, Raster, PartsText, PartsPicture, SvgOf, Plain, WellFormed;
    HeaderRead(background);
    var es := PartsRead(Header(background), parts, palette, |parts|);
    DocumentRead(background, PartsText(parts, palette, |parts|), es);
    assert (Elements(Header(background)) + es)[2..] == es;
  }

  /** And so does what the on-chain renderer writes, whenever it succeeds. */
  lemma GeneratedDraws(parts: seq<seq<nat>>, palettes: Palettes, background: string)
    requires Renders(parts, palettes) && AllPlain(palettes) && Unquoted(background)
    ensures Draws(SvgOf(background, ChainText(parts, palettes, |parts|)), background,
                  ChainPicture(parts, palettes, |parts|))
  {
    hide Closed, Elements, Header, AtTen, Raster, ChainText, ChainPicture, SvgOf, InRange, DecodeBytes;
    HeaderRead(background);
    var es := ChainRead(Header(background), parts, palettes, |parts|);
    DocumentRead(background, ChainText(parts, palettes, |parts|), es);
    assert (Elements(Header(background)) + es)[2..] == es;
  }
}
