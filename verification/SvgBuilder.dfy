/** Decoding an encoded image, what its runs paint, and the SVG built from it. */
module SvgBuilder {
  import opened Hex
  import opened ImageEncodings

  datatype DecodedImage = DecodedImage(paletteIndex: nat, bounds: Bounds, rects: seq<(nat, nat)>)

  // ----------------------------------------------------------------- decoding

  function StripPrefix(image: string): string {
    if |image| >= 2 && image[..2] == "0x" then image[2..] else image
  }

  /** Hex digits, with five header bytes and two bytes for each run. */
  predicate WellFormed(image: string) {
    var data := StripPrefix(image);
    IsHex(data) && |data| >= 10 && |data| % 4 == 2
  }

  function Parsed(s: string): nat
    requires IsHex(s) && s != []
  {
    ParseHex(s).value
  }

  /** Pieces of four digits. */
  function Chunks(s: string): (cs: seq<string>)
    requires IsHex(s) && |s| % 4 == 0
    ensures forall i :: 0 <= i < |cs| ==> |cs[i]| == 4 && IsHex(cs[i])
  {
    if s == [] then [] else [s[..4]] + Chunks(s[4..])
  }

  function DecodeImage(image: string): DecodedImage
    requires WellFormed(image)
  {
    var data := StripPrefix(image);
    var chunks := Chunks(data[10..]);
    DecodedImage(
      Parsed(data[0..2]),
      Bounds(Parsed(data[2..4]), Parsed(data[4..6]), Parsed(data[6..8]), Parsed(data[8..10])),
      seq(|chunks|, i requires 0 <= i < |chunks| => (Parsed(chunks[i][0..2]), Parsed(chunks[i][2..4]))))
  }

  /** The runs in a sequence of bytes. */
  function Pairs(bytes: seq<nat>): seq<(nat, nat)> {
    if |bytes| < 2 then [] else [(bytes[0], bytes[1])] + Pairs(bytes[2..])
  }

  /** What the bytes of an encoded image mean. */
  function DecodeBytes(bytes: seq<nat>): DecodedImage
    requires |bytes| >= 5
  {
    DecodedImage(bytes[0], Bounds(bytes[1], bytes[2], bytes[3], bytes[4]), Pairs(bytes[5..]))
  }

  lemma {:induction false} ChunksOfBytes(bytes: seq<nat>)
    requires IsBytes(bytes) && |bytes| % 2 == 0
    ensures IsHex(BytesToHex(bytes)) && |BytesToHex(bytes)| == 2 * |bytes|
    ensures var cs := Chunks(BytesToHex(bytes));
      |cs| == |Pairs(bytes)| &&
      forall i :: 0 <= i < |cs| ==> Parsed(cs[i][0..2]) == Pairs(bytes)[i].0 && Parsed(cs[i][2..4]) == Pairs(bytes)[i].1
  {
    BytesToHexLength(bytes);
    if bytes != [] {
      var s, rest := BytesToHex(bytes), bytes[2..];
      BytesToHexConcat(bytes[..2], rest);
      assert bytes == bytes[..2] + rest;
      BytesToHexLength(bytes[..2]);
      BytesToHexLength(rest);
      ChunksOfBytes(rest);
      assert s[4..] == BytesToHex(rest);
      ChunkDigits(bytes);
    }
  }

  lemma ChunkDigits(bytes: seq<nat>)
    requires IsBytes(bytes) && |bytes| >= 2
    ensures var s := BytesToHex(bytes);
      |s| == 2 * |bytes| && IsHex(s) && Parsed(s[..4][0..2]) == bytes[0] && Parsed(s[..4][2..4]) == bytes[1]
  {
    var s := BytesToHex(bytes);
    BytesToHexAt(bytes, 0);
    BytesToHexAt(bytes, 1);
    assert s[..4][0..2] == s[0..2] && s[..4][2..4] == s[2..4];
    ByteRoundTrip(bytes[0]);
    ByteRoundTrip(bytes[1]);
  }

  lemma HexAt(bytes: seq<nat>, i: nat)
    requires IsBytes(bytes) && i < |bytes|
    ensures var s := BytesToHex(bytes);
      |s| == 2 * |bytes| && IsHex(s) && Parsed(s[2 * i..2 * i + 2]) == bytes[i]
  {
    BytesToHexAt(bytes, i);
    ByteRoundTrip(bytes[i]);
  }

  lemma HeaderHexAt(bytes: seq<nat>)
    requires IsBytes(bytes) && |bytes| >= 5
    ensures var s := BytesToHex(bytes);
      && |s| == 2 * |bytes| && IsHex(s)
      && Parsed(s[0..2]) == bytes[0] && Parsed(s[2..4]) == bytes[1] && Parsed(s[4..6]) == bytes[2]
      && Parsed(s[6..8]) == bytes[3] && Parsed(s[8..10]) == bytes[4]
  {
    HexAt(bytes, 0); HexAt(bytes, 1); HexAt(bytes, 2); HexAt(bytes, 3); HexAt(bytes, 4);
  }

  lemma TailHex(bytes: seq<nat>)
    requires IsBytes(bytes) && |bytes| >= 5
    ensures |BytesToHex(bytes)| >= 10 && BytesToHex(bytes)[10..] == BytesToHex(bytes[5..])
  {
    BytesToHexConcat(bytes[..5], bytes[5..]);
    assert bytes == bytes[..5] + bytes[5..];
    BytesToHexLength(bytes[..5]);
  }

  lemma StripPrefixed(s: string)
    ensures StripPrefix("0x" + s) == s
  {
    var image := "0x" + s;
    assert image[..2] == "0x" && image[2..] == s;
  }

  lemma DoubleOdd(n: nat)
    requires n % 2 == 1
    ensures (2 * n) % 4 == 2
  {
  }

  lemma HexWellFormed(bytes: seq<nat>)
    requires IsBytes(bytes) && |bytes| >= 5 && |bytes| % 2 == 1
    ensures var image := "0x" + BytesToHex(bytes);
      StripPrefix(image) == BytesToHex(bytes) && WellFormed(image)
  {
    hide BytesToHex, IsHex, StripPrefix;
    BytesToHexLength(bytes);
    StripPrefixed(BytesToHex(bytes));
    DoubleOdd(|bytes|);
  }

  /** Decoding the hex string of some bytes decodes the bytes. */
  lemma DecodeHex(bytes: seq<nat>)
    requires IsBytes(bytes) && |bytes| >= 5 && |bytes| % 2 == 1
    ensures WellFormed("0x" + BytesToHex(bytes))
    ensures DecodeImage("0x" + BytesToHex(bytes)) == DecodeBytes(bytes)
  {
    hide BytesToHex, Parsed, Chunks, Pairs, StripPrefix, WellFormed;
    HexWellFormed(bytes);
    HeaderHexAt(bytes);
    TailHex(bytes);
    ChunksOfBytes(bytes[5..]);
    assert DecodeImage("0x" + BytesToHex(bytes)).rects == Pairs(bytes[5..]);
  }

  // ----------------------------------------------------------------- painting

  type Canvas = map<(nat, nat), nat>

  /** A run of opaque pixels starting at (x, y). */
  function RunCanvas(x: nat, y: nat, length: nat, colorIndex: nat): Canvas {
    if colorIndex == 0 then map[] else map i: nat | x <= i < x + length :: (i, y) := colorIndex
  }

  /** The position after a run: at the right bound the next row begins. */
  function Advance(b: Bounds, x: nat, y: nat, length: nat): (nat, nat) {
    if x + length == b.right then (b.left, y + 1) else (x + length, y)
  }

  /** The pixels painted by the runs from (x, y) on; later runs paint over earlier ones. */
  function Paint(rects: seq<(nat, nat)>, b: Bounds, x: nat, y: nat): Canvas {
    if rects == [] then map[]
    else
      var (x', y') := Advance(b, x, y, rects[0].0);
      RunCanvas(x, y, rects[0].0, rects[0].1) + Paint(rects[1..], b, x', y')
  }

  function Painted(image: DecodedImage): Canvas {
    Paint(image.rects, image.bounds, image.bounds.left, image.bounds.top)
  }
}
