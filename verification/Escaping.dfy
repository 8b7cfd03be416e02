/**
 * Percent-encoding as SigV4 expects it (section 2.1 of RFC 3986, uppercase hex), and decoding.
 * A byte is a character below 256; larger characters do not occur in byte strings and are passed
 * through so that the functions are total.
 */
module Escaping {
  import opened ByteStrings
  import opened Numbers

  datatype Decoded = Malformed | Text(s: string)

  /** The unreserved characters of section 2.3 of RFC 3986, and '/' where the caller keeps it. */
  predicate Literal(c: char, keepSlash: bool) {
    'A' <= c <= 'Z' || 'a' <= c <= 'z' || '0' <= c <= '9' || c in {'-', '.', '_', '~'} || (keepSlash && c == '/')
    || c as int >= 256
  }

  function HexUpper(n: int): char
    requires 0 <= n < 16
  {
    if n < 10 then ('0' as int + n) as char else ('A' as int + n - 10) as char
  }

  function EscapeChar(c: char, keepSlash: bool): string {
    if Literal(c, keepSlash) then [c] else ['%', HexUpper(c as int / 16), HexUpper(c as int % 16)]
  }

  function Escape(s: string, keepSlash: bool): string {
    if s == "" then "" else EscapeChar(s[0], keepSlash) + Escape(s[1..], keepSlash)
  }

  function EncodePath(p: string): string {
    Escape(p, true)
  }

  /** The builder loop of `escape`. */
  method EscapeBytes(s: string, keepSlash: bool) returns (b: string)
    ensures b == Escape(s, keepSlash)
  {
    hide EscapeChar;
    b := "";
    for i := 0 to |s|
      invariant b + Escape(s[i..], keepSlash) == Escape(s, keepSlash)
    {
      var e := EscapeChar(s[i], keepSlash);
      assert s[i..][1..] == s[i + 1..];
      assert b + (e + Escape(s[i + 1..], keepSlash)) == (b + e) + Escape(s[i + 1..], keepSlash);
      b := b + e;
    }
  }

  function Prepend(c: char, d: Decoded): Decoded {
    match d
    case Malformed => Malformed
    case Text(s) => Text([c] + s)
  }

  /** Percent-decoding by the standard, knowing nothing of `Escape`. */
  function Unescape(s: string): Decoded {
    if s == "" then Text("")
    else if s[0] != '%' then Prepend(s[0], Unescape(s[1..]))
    else if |s| < 3 || DigitValue(s[1]) < 0 || DigitValue(s[2]) < 0 then Malformed
    else Prepend((16 * DigitValue(s[1]) + DigitValue(s[2])) as char, Unescape(s[3..]))
  }

  lemma {:induction false} UnescapeUndoes(s: string, keepSlash: bool)
    ensures Unescape(Escape(s, keepSlash)) == Text(s)
  {
    hide EscapeChar, Unescape;
    if s == "" {
      NothingToUnescape();
    } else {
      UnescapeUndoes(s[1..], keepSlash);
      UnescapeFirst(s[0], Escape(s[1..], keepSlash), keepSlash);
      assert s == [s[0]] + s[1..];
    }
  }

  lemma NothingToUnescape()
    ensures Unescape("") == Text("")
  {
  }

  /** Decoding takes off one escaped byte. */
  lemma UnescapeFirst(c: char, rest: string, keepSlash: bool)
    ensures Unescape(EscapeChar(c, keepSlash) + rest) == Prepend(c, Unescape(rest))
  {
    var e := EscapeChar(c, keepSlash) + rest;
    if Literal(c, keepSlash) {
      assert e[1..] == rest;
    } else {
      assert e[3..] == rest;
      assert 16 * DigitValue(e[1]) + DigitValue(e[2]) == c as int;
    }
  }

  lemma EscapeInjective(s: string, t: string, keepSlash: bool)
    requires Escape(s, keepSlash) == Escape(t, keepSlash)
    ensures s == t
  {
    UnescapeUndoes(s, keepSlash);
    UnescapeUndoes(t, keepSlash);
  }

  /** Escaped text is free of every reserved delimiter. */
  lemma {:induction false} EscapedIsClean(s: string, keepSlash: bool, c: char)
    requires c in Escape(s, keepSlash)
    ensures c == '%' || Literal(c, keepSlash)
  {
    var e := EscapeChar(s[0], keepSlash);
    if c in e {
    } else {
      EscapedIsClean(s[1..], keepSlash, c);
    }
  }

  const UpperHex := "0123456789ABCDEF"

  /**
   * The characters section 2.3 of RFC 3986 calls unreserved stand for themselves, and so does '/'
   * where it is kept; every other byte becomes two uppercase digits.
   */
  lemma EscapedForm(c: Byte, keepSlash: bool)
    ensures 'A' <= c <= 'Z' || 'a' <= c <= 'z' || '0' <= c <= '9' || c in {'-', '.', '_', '~'} ==>
              Escape([c], keepSlash) == [c]
    ensures Escape("/", true) == "/" && Escape("/", false) == "%2F"
    ensures !('A' <= c <= 'Z' || 'a' <= c <= 'z' || '0' <= c <= '9' || c in {'-', '.', '_', '~', '/'}) ==>
              Escape([c], keepSlash) == ['%', UpperHex[c as int / 16], UpperHex[c as int % 16]]
  {
    EscapeOne(c, keepSlash);
    EscapeOne('/', true);
    EscapeOne('/', false);
    UpperDigit(c as int / 16);
    UpperDigit(c as int % 16);
    UpperDigit(2);
    UpperDigit(15);
  }

  lemma EscapeOne(c: char, keepSlash: bool)
    ensures Escape([c], keepSlash) == EscapeChar(c, keepSlash)
  {
    assert [c][1..] == "";
  }

  lemma UpperDigit(n: int)
    requires 0 <= n < 16
    ensures HexUpper(n) == UpperHex[n]
  {
  }

  /** A text is escaped byte by byte. */
  lemma {:induction false} EscapeConcat(s: string, t: string, keepSlash: bool)
    ensures Escape(s + t, keepSlash) == Escape(s, keepSlash) + Escape(t, keepSlash)
  {
    hide EscapeChar;
    if s == "" {
      assert s + t == t;
    } else {
      assert (s + t)[1..] == s[1..] + t;
      EscapeConcat(s[1..], t, keepSlash);
    }
  }
}
