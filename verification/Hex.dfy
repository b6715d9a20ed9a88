/** Hexadecimal printing and parsing of numbers and bytes. */
module Hex {
  import opened Basics

  const DIGITS: string := "0123456789abcdef"

  function DigitValue(c: char): Option<nat> {
    if '0' <= c <= '9' then Some(c as nat - '0' as nat)
    else if 'a' <= c <= 'f' then Some(c as nat - 'a' as nat + 10)
    else if 'A' <= c <= 'F' then Some(c as nat - 'A' as nat + 10)
    else None
  }

  predicate IsHex(s: string) {
    forall i :: 0 <= i < |s| ==> DigitValue(s[i]).Some?
  }

  /** The number in base 16, without leading zeros. */
  function NumToHex(n: nat): string {
    if n < 16 then [DIGITS[n]] else NumToHex(n / 16) + [DIGITS[n % 16]]
  }

  function PadStart(s: string, length: nat, c: char): string
    decreases length - |s|
  {
    if |s| >= length then s else PadStart([c] + s, length, c)
  }

  function ToPaddedHex(n: nat, pad: nat): string {
    PadStart(NumToHex(n), pad, '0')
  }

  /** The value of a string of hex digits; the empty string is not a number. */
  function ParseHex(s: string): Option<nat>
    requires IsHex(s)
  {
    if s == [] then None
    else if |s| == 1 then DigitValue(s[0])
    else Some(16 * ParseHex(s[..|s| - 1]).value + DigitValue(s[|s| - 1]).value)
  }

  /** Two digits to the byte. */
  function ByteToHex(b: nat): string
    requires b < 256
  {
    [DIGITS[b / 16], DIGITS[b % 16]]
  }

  predicate IsBytes(bytes: seq<nat>) {
    forall i :: 0 <= i < |bytes| ==> bytes[i] < 256
  }

  function BytesToHex(bytes: seq<nat>): string
    requires IsBytes(bytes)
  {
    if bytes == [] then [] else ByteToHex(bytes[0]) + BytesToHex(bytes[1..])
  }

  lemma PaddedByte(b: nat)
    requires b < 256
    ensures ToPaddedHex(b, 2) == ByteToHex(b)
  {
    if b < 16 {
      assert NumToHex(b) == [DIGITS[b]];
      assert PadStart(['0'] + [DIGITS[b]], 2, '0') == ['0', DIGITS[b]];
    } else {
      assert NumToHex(b / 16) == [DIGITS[b / 16]];
    }
  }

  /** Either case is read. */
  lemma CaseIgnored(i: nat)
    requires i < 6
    ensures DigitValue("ABCDEF"[i]) == DigitValue("abcdef"[i]) == Some(10 + i)
  {
  }

  lemma DigitRoundTrip(d: nat)
    requires d < 16
    ensures DigitValue(DIGITS[d]) == Some(d)
  {
  }

  /** What a byte prints is what parses back. */
  lemma ByteRoundTrip(b: nat)
    requires b < 256
    ensures IsHex(ByteToHex(b)) && ParseHex(ByteToHex(b)) == Some(b)
  {
    DigitRoundTrip(b / 16);
    DigitRoundTrip(b % 16);
    var s := ByteToHex(b);
    assert s[..1] == [DIGITS[b / 16]];
  }

  lemma {:induction false} BytesToHexLength(bytes: seq<nat>)
    requires IsBytes(bytes)
    ensures |BytesToHex(bytes)| == 2 * |bytes| && IsHex(BytesToHex(bytes))
  {
    if bytes != [] {
      ByteRoundTrip(bytes[0]);
      BytesToHexLength(bytes[1..]);
    }
  }

  /** Every byte sits in its own two digits. */
  lemma {:induction false} BytesToHexAt(bytes: seq<nat>, i: nat)
    requires IsBytes(bytes) && i < |bytes|
    ensures |BytesToHex(bytes)| == 2 * |bytes| && IsHex(BytesToHex(bytes))
    ensures BytesToHex(bytes)[2 * i..2 * i + 2] == ByteToHex(bytes[i])
  {
    BytesToHexLength(bytes);
    BytesToHexLength(bytes[1..]);
    if i > 0 {
      BytesToHexAt(bytes[1..], i - 1);
      assert BytesToHex(bytes)[2 * i..2 * i + 2] == BytesToHex(bytes[1..])[2 * (i - 1)..2 * (i - 1) + 2];
    }
  }

  lemma {:induction false} BytesToHexConcat(a: seq<nat>, b: seq<nat>)
    requires IsBytes(a) && IsBytes(b)
    ensures IsBytes(a + b) && BytesToHex(a + b) == BytesToHex(a) + BytesToHex(b)
  {
    if a == [] {
      assert a + b == b;
    } else {
      assert (a + b)[1..] == a[1..] + b;
      BytesToHexConcat(a[1..], b);
    }
  }

  // ------------------------------------------------------------------ colours

  function RgbToHex(r: nat, g: nat, b: nat): string {
    ToPaddedHex(r, 2) + ToPaddedHex(g, 2) + ToPaddedHex(b, 2)
  }

  /** Digits as they are printed. */
  predicate IsLowerHex(s: string) {
    forall i :: 0 <= i < |s| ==> '0' <= s[i] <= '9' || 'a' <= s[i] <= 'f'
  }

  lemma ByteIsLower(b: nat)
    requires b < 256
    ensures |ByteToHex(b)| == 2 && IsLowerHex(ByteToHex(b))
  {
  }

  /** The first pair of digits is red, the second green and the third blue. */
  lemma RgbMeaning(r: nat, g: nat, b: nat)
    requires r < 256 && g < 256 && b < 256
    ensures var s := RgbToHex(r, g, b);
      && |s| == 6 && IsLowerHex(s) && IsHex(s)
      && ParseHex(s[0..2]) == Some(r) && ParseHex(s[2..4]) == Some(g) && ParseHex(s[4..6]) == Some(b)
  {
    hide ByteToHex, ToPaddedHex;
    var s := RgbToHex(r, g, b);
    PaddedByte(r); PaddedByte(g); PaddedByte(b);
    ByteIsLower(r); ByteIsLower(g); ByteIsLower(b);
    ByteRoundTrip(r); ByteRoundTrip(g); ByteRoundTrip(b);
    assert s[0..2] == ByteToHex(r) && s[2..4] == ByteToHex(g) && s[4..6] == ByteToHex(b);
    LowerIsHex(s);
  }

  lemma LowerIsHex(s: string)
    requires IsLowerHex(s)
    ensures IsHex(s)
  {
  }

  /** Two printed digits are those of their value. */
  lemma LowerByte(s: string, b: nat)
    requires |s| == 2 && IsLowerHex(s) && IsHex(s) && b < 256 && ParseHex(s) == Some(b)
    ensures s == ByteToHex(b)
  {
    hide DigitValue, ParseHex, ByteToHex;
    TwoDigits(s);
    LowerDigit(s[0]);
    LowerDigit(s[1]);
    var high, low := DigitValue(s[0]).value, DigitValue(s[1]).value;
    DigitsOf(b, high, low);
    assert s == [DIGITS[high], DIGITS[low]];
  }

  lemma DigitsOf(b: nat, high: nat, low: nat)
    requires b < 256 && high < 16 && low < 16 && b == 16 * high + low
    ensures ByteToHex(b) == [DIGITS[high], DIGITS[low]]
  {
  }

  lemma TwoDigits(s: string)
    requires |s| == 2 && IsHex(s)
    ensures DigitValue(s[0]).Some? && DigitValue(s[1]).Some?
    ensures ParseHex(s) == Some(16 * DigitValue(s[0]).value + DigitValue(s[1]).value)
  {
    assert |s[..1]| == 1 && s[..1][0] == s[0];
  }

  lemma LowerDigit(c: char)
    requires '0' <= c <= '9' || 'a' <= c <= 'f'
    ensures DigitValue(c).Some? && DigitValue(c).value < 16 && DIGITS[DigitValue(c).value] == c
  {
  }

  /** Colours with byte components are told apart by their hex string, which is
      never the empty string that stands for transparent. */
  lemma RgbInjective(r: nat, g: nat, b: nat, r': nat, g': nat, b': nat)
    requires r < 256 && g < 256 && b < 256 && r' < 256 && g' < 256 && b' < 256
    ensures |RgbToHex(r, g, b)| == 6
    ensures RgbToHex(r, g, b) == RgbToHex(r', g', b') <==> r == r' && g == g' && b == b'
  {
    PaddedByte(r); PaddedByte(g); PaddedByte(b);
    PaddedByte(r'); PaddedByte(g'); PaddedByte(b');
    if RgbToHex(r, g, b) == RgbToHex(r', g', b') {
      var s, t := RgbToHex(r, g, b), RgbToHex(r', g', b');
      assert s[0..2] == ByteToHex(r) && t[0..2] == ByteToHex(r');
      assert s[2..4] == ByteToHex(g) && t[2..4] == ByteToHex(g');
      assert s[4..6] == ByteToHex(b) && t[4..6] == ByteToHex(b');
      ByteRoundTrip(r); ByteRoundTrip(g); ByteRoundTrip(b);
      ByteRoundTrip(r'); ByteRoundTrip(g'); ByteRoundTrip(b');
    }
  }
}
