/**
 * Hexadecimal text for byte strings: `hex.EncodeToString` and `hex.DecodeString`.
 *
 * Encoding writes two lowercase digits a byte. Decoding accepts either case and succeeds exactly on
 * even-length hexadecimal text; it is what tells a reference from other text, and a reference that
 * carries its key from one that does not.
 */
module Hex {
  import opened ByteStrings
  import opened Numbers
  import Text

  datatype Decoded = NotHex | Bytes(s: string)

  predicate IsHexDigit(c: char) {
    IsDigit(c, 16)
  }

  predicate AllHex(s: string) {
    forall i :: 0 <= i < |s| ==> IsHexDigit(s[i])
  }

  /** Lowercase, two digits a byte; characters above 255 do not occur in byte strings. */
  function Encode(s: string): string {
    if s == "" then "" else [DigitChar(s[0] as int % 256 / 16), DigitChar(s[0] as int % 16)] + Encode(s[1..])
  }

  function Decode(s: string): Decoded {
    if s == "" then Bytes("")
    else if |s| < 2 || !IsHexDigit(s[0]) || !IsHexDigit(s[1]) then NotHex
    else
      match Decode(s[2..])
      case NotHex => NotHex
      case Bytes(t) => Bytes([(16 * DigitValue(s[0]) + DigitValue(s[1])) as char] + t)
  }

  lemma TwoDigits(c: char)
    requires c as int < 256
    ensures IsHexDigit(DigitChar(c as int % 256 / 16)) && IsHexDigit(DigitChar(c as int % 16))
    ensures 16 * DigitValue(DigitChar(c as int % 256 / 16)) + DigitValue(DigitChar(c as int % 16)) == c as int
  {
  }

  lemma {:induction false} DecodeEncode(s: string)
    requires IsBytes(s)
    ensures Decode(Encode(s)) == Bytes(s) && |Encode(s)| == 2 * |s| && AllHex(Encode(s))
  {
    if s != "" {
      var t := Encode(s[1..]);
      DecodeEncode(s[1..]);
      var hi, lo := DigitChar(s[0] as int % 256 / 16), DigitChar(s[0] as int % 16);
      TwoDigits(s[0]);
      assert Encode(s) == [hi, lo] + t && ([hi, lo] + t)[2..] == t;
      AllHexSplits(hi, lo, t);
      assert s == [s[0]] + s[1..];
    }
  }

  /** Decoding succeeds exactly on even-length hexadecimal text, and halves the length. */
  lemma {:induction false} DecodeMeaning(s: string)
    ensures Decode(s).Bytes? <==> |s| % 2 == 0 && AllHex(s)
    ensures Decode(s).Bytes? ==> 2 * |Decode(s).s| == |s|
  {
    if |s| >= 2 {
      var a, b, t := s[0], s[1], s[2..];
      DecodeMeaning(t);
      assert s == [a, b] + t;
      AllHexSplits(a, b, t);
      assert |s| % 2 == |t| % 2;
    }
  }

  /** Hexadecimal digits are the ten figures and the letters a to f, in either case. */
  lemma HexDigits(c: char)
    ensures IsHexDigit(c) <==> '0' <= c <= '9' || 'a' <= c <= 'f' || 'A' <= c <= 'F'
  {
  }

  /** Encoded text is lowercase. */
  lemma {:induction false} EncodesLowercase(s: string)
    ensures forall c :: c in Encode(s) ==> '0' <= c <= '9' || 'a' <= c <= 'f'
  {
    if s != "" {
      EncodesLowercase(s[1..]);
      var hi, lo := DigitChar(s[0] as int % 256 / 16), DigitChar(s[0] as int % 16);
      assert forall c :: c in Encode(s) <==> c == hi || c == lo || c in Encode(s[1..]);
    }
  }

  /** Hexadecimal text has nothing at its ends that trimming an ETag would take. */
  lemma HexIsBare(e: string)
    requires AllHex(e)
    ensures Text.Bare(e)
  {
  }

  lemma AllHexSplits(a: char, b: char, t: string)
    ensures AllHex([a, b] + t) <==> IsHexDigit(a) && IsHexDigit(b) && AllHex(t)
  {
    var s := [a, b] + t;
    assert s[0] == a && s[1] == b;
    assert forall i :: 0 <= i < |t| ==> s[i + 2] == t[i];
  }
}
