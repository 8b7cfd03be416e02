/**
 * The text helpers the parsers use: trimming, cutting and searching.
 *
 * Text is a byte string. White space beyond ASCII is recognised by its UTF-8 encoding, so a lone
 * byte of such an encoding is not trimmed. Lower-casing is for ASCII letters, which is all that the
 * signatures and header names it is applied to contain.
 */
module Text {
  datatype Cut = NotFound | Found(before: string, after: string)

  /** `strings.Cut` for a one-character separator. */
  function CutAt(s: string, sep: char): Cut {
    if s == "" then NotFound
    else if s[0] == sep then Found("", s[1..])
    else match CutAt(s[1..], sep)
         case NotFound => NotFound
         case Found(b, a) => Found([s[0]] + b, a)
  }

  lemma {:induction false} CutAtFirst(before: string, after: string, sep: char)
    requires sep !in before
    ensures CutAt(before + [sep] + after, sep) == Found(before, after)
  {
    var s := before + [sep] + after;
    if before == "" {
      assert s[1..] == after;
    } else {
      assert s[1..] == before[1..] + [sep] + after;
      CutAtFirst(before[1..], after, sep);
    }
  }

  lemma {:induction false} CutAtMeaning(s: string, sep: char)
    ensures CutAt(s, sep).NotFound? <==> sep !in s
    ensures CutAt(s, sep).Found? ==> s == CutAt(s, sep).before + [sep] + CutAt(s, sep).after && sep !in CutAt(s, sep).before
  {
    if s != "" && s[0] != sep {
      CutAtMeaning(s[1..], sep);
      assert s == [s[0]] + s[1..];
      var c := CutAt(s[1..], sep);
      assert c.Found? ==> [s[0]] + (c.before + [sep] + c.after) == ([s[0]] + c.before) + [sep] + c.after;
    }
  }

  predicate AsciiSpace(c: char) {
    c in {' ', '\t', '\n', '\U{0B}', '\U{0C}', '\r'}
  }

  /** The UTF-8 encodings of the other white space that `strings.TrimSpace` removes. */
  predicate WideSpace2(a: char, b: char) {
    a == '\U{C2}' && (b == '\U{85}' || b == '\U{A0}')
  }

  predicate WideSpace3(a: char, b: char, c: char) {
    || (a == '\U{E1}' && b == '\U{9A}' && c == '\U{80}')
    || (a == '\U{E2}' && b == '\U{80}' && ('\U{80}' <= c <= '\U{8A}' || c == '\U{A8}' || c == '\U{A9}' || c == '\U{AF}'))
    || (a == '\U{E2}' && b == '\U{81}' && c == '\U{9F}')
    || (a == '\U{E3}' && b == '\U{80}' && c == '\U{80}')
  }

  /** How many bytes of white space stand at the start: none, or one character's. */
  function LeadingSpace(s: string): (n: nat)
    ensures n <= |s|
  {
    if s == "" then 0
    else if AsciiSpace(s[0]) then 1
    else if |s| >= 2 && WideSpace2(s[0], s[1]) then 2
    else if |s| >= 3 && WideSpace3(s[0], s[1], s[2]) then 3
    else 0
  }

  function TrailingSpace(s: string): (n: nat)
    ensures n <= |s|
  {
    var k := |s|;
    if k == 0 then 0
    else if AsciiSpace(s[k - 1]) then 1
    else if k >= 2 && WideSpace2(s[k - 2], s[k - 1]) then 2
    else if k >= 3 && WideSpace3(s[k - 3], s[k - 2], s[k - 1]) then 3
    else 0
  }

  function TrimLeft(s: string): string {
    if LeadingSpace(s) > 0 then TrimLeft(s[LeadingSpace(s)..]) else s
  }

  function TrimRight(s: string): string {
    if TrailingSpace(s) > 0 then TrimRight(s[..|s| - TrailingSpace(s)]) else s
  }

  function TrimSpace(s: string): string {
    TrimRight(TrimLeft(s))
  }

  /** A printable ASCII character other than the space. */
  predicate Visible(c: char) {
    '!' <= c <= '~'
  }

  lemma NothingToTrim(s: string)
    requires s == "" || (Visible(s[0]) && Visible(s[|s| - 1]))
    ensures TrimSpace(s) == s
  {
    if s != "" {
      assert LeadingSpace(s) == 0 && TrailingSpace(s) == 0;
    }
  }

  /** `strings.Trim(s, "\"")`. */
  function TrimQuotes(s: string): string {
    if s != "" && s[0] == '"' then TrimQuotes(s[1..])
    else if s != "" && s[|s| - 1] == '"' then TrimQuotes(s[..|s| - 1])
    else s
  }

  /** `trimETag`: surrounding space, then quotes. */
  function TrimETag(s: string): string {
    TrimQuotes(TrimSpace(s))
  }

  predicate AllQuotes(s: string) {
    forall i :: 0 <= i < |s| ==> s[i] == '"'
  }

  predicate AllSpaces(s: string) {
    forall i :: 0 <= i < |s| ==> s[i] in {' ', '\t', '\n', '\U{0B}', '\U{0C}', '\r'}
  }

  /** Nothing at either end for a trim to take. */
  predicate Bare(s: string) {
    s != "" ==> Visible(s[0]) && Visible(s[|s| - 1]) && s[0] != '"' && s[|s| - 1] != '"'
  }

  /** White space around a text goes, white space inside it stays. */
  lemma {:induction false} TrimSpaceAround(left: string, s: string, right: string)
    requires AllSpaces(left) && AllSpaces(right)
    requires s == "" || (Visible(s[0]) && Visible(s[|s| - 1]))
    ensures TrimSpace(left + s + right) == s
  {
    hide LeadingSpace, TrailingSpace;
    if s == "" {
      TrimLeftSpaces(left + right, "");
      assert left + right + "" == left + s + right;
      NothingToTrim("");
    } else {
      TrimLeftSpaces(left, s + right);
      assert left + (s + right) == left + s + right;
      StartsVisible(s + right);
      TrimRightSpaces(s, right);
    }
  }

  lemma StartsVisible(s: string)
    requires s != "" && Visible(s[0])
    ensures TrimLeft(s) == s
  {
    assert LeadingSpace(s) == 0;
  }

  lemma {:induction false} TrimLeftSpaces(left: string, rest: string)
    requires AllSpaces(left)
    ensures TrimLeft(left + rest) == TrimLeft(rest)
  {
    if left == "" {
      assert left + rest == rest;
    } else {
      assert (left + rest)[1..] == left[1..] + rest;
      TrimLeftSpaces(left[1..], rest);
    }
  }

  lemma {:induction false} TrimRightSpaces(s: string, right: string)
    requires AllSpaces(right) && s != "" && Visible(s[|s| - 1])
    ensures TrimRight(s + right) == s
  {
    if right == "" {
      assert s + right == s;
      assert TrailingSpace(s) == 0;
    } else {
      var n := |right| - 1;
      assert (s + right)[..|s| + n] == s + right[..n];
      TrimRightSpaces(s, right[..n]);
    }
  }

  lemma {:induction false} TrimQuotesAround(left: string, s: string, right: string)
    requires AllQuotes(left) && AllQuotes(right) && Bare(s)
    ensures TrimQuotes(left + s + right) == s
    decreases |left| + |right|
  {
    var t := left + s + right;
    if left != "" {
      assert t[1..] == left[1..] + s + right;
      TrimQuotesAround(left[1..], s, right);
    } else if right != "" {
      var n := |right| - 1;
      if s == "" {
        assert t[1..] == left + s + right[1..];
        TrimQuotesAround(left, s, right[1..]);
      } else {
        assert t[0] == s[0];
        assert t[..|t| - 1] == left + s + right[..n];
        TrimQuotesAround(left, s, right[..n]);
      }
    } else {
      assert t == s;
    }
  }

  /** White space, then quotes, come off both ends of an ETag; what is left is the text between. */
  lemma TrimETagAround(left: string, q1: string, s: string, q2: string, right: string)
    requires AllSpaces(left) && AllSpaces(right) && AllQuotes(q1) && AllQuotes(q2) && Bare(s)
    ensures TrimETag(left + (q1 + s + q2) + right) == s
  {
    hide TrimQuotes, TrimSpace;
    var t := q1 + s + q2;
    if t != "" {
      assert t[0] == if q1 != "" then q1[0] else if s != "" then s[0] else q2[0];
      assert t[|t| - 1] == if q2 != "" then q2[|q2| - 1] else if s != "" then s[|s| - 1] else q1[|q1| - 1];
    }
    TrimSpaceAround(left, t, right);
    TrimQuotesAround(q1, s, q2);
  }

  /** In particular the two ways clients write an ETag: bare, and in double quotes. */
  lemma TrimETagQuoted(e: string)
    requires Bare(e)
    ensures TrimETag("\"" + e + "\"") == e && TrimETag(e) == e
  {
    TrimETagAround("", "\"", e, "\"", "");
    assert "" + ("\"" + e + "\"") + "" == "\"" + e + "\"";
    TrimETagAround("", "", e, "", "");
    assert "" + ("" + e + "") + "" == e;
  }

  function ToLowerChar(c: char): char {
    if 'A' <= c <= 'Z' then (c as int - 'A' as int + 'a' as int) as char else c
  }

  /** `strings.ToLower` on ASCII text. */
  function ToLower(s: string): (r: string)
    ensures |r| == |s|
  {
    if s == "" then "" else [ToLowerChar(s[0])] + ToLower(s[1..])
  }

  lemma {:induction false} ToLowerFixed(s: string)
    requires forall i :: 0 <= i < |s| ==> ToLowerChar(s[i]) == s[i]
    ensures ToLower(s) == s
  {
    if s != "" {
      ToLowerFixed(s[1..]);
      assert s == [s[0]] + s[1..];
    }
  }

  /** Upper-case ASCII letters come down by 32, everything else stays. */
  lemma {:induction false} ToLowerMeaning(s: string, i: nat)
    requires i < |s|
    ensures 'A' <= s[i] <= 'Z' ==> ToLower(s)[i] as int == s[i] as int + 32
    ensures !('A' <= s[i] <= 'Z') ==> ToLower(s)[i] == s[i]
  {
    if i > 0 {
      ToLowerMeaning(s[1..], i - 1);
    }
  }

  /** White space beyond ASCII is trimmed by its whole encoding: U+0085, U+00A0, U+1680, U+2000 to U+200A, and so on. */
  lemma WideSpacesTrimmed(w: string, s: string)
    requires s != "" && Visible(s[0]) && Visible(s[|s| - 1])
    requires || w in {"\U{C2}\U{85}", "\U{C2}\U{A0}", "\U{E1}\U{9A}\U{80}", "\U{E2}\U{80}\U{A8}", "\U{E2}\U{80}\U{A9}"}
             || w in {"\U{E2}\U{80}\U{AF}", "\U{E2}\U{81}\U{9F}", "\U{E3}\U{80}\U{80}"}
             || (|w| == 3 && w[..2] == "\U{E2}\U{80}" && '\U{80}' <= w[2] <= '\U{8A}')
    ensures TrimSpace(w + s + w) == s
  {
    hide TrimRight, TrimLeft;
    var n := |w|;
    if n == 3 && w[..2] == "\U{E2}\U{80}" {
      assert w[0] == w[..2][0] && w[1] == w[..2][1];
    }
    assert LeadingSpace(w + s + w) == n && (w + s + w)[n..] == s + w;
    assert TrailingSpace(s + w) == n && (s + w)[..|s|] == s;
    TrimsLeft(w + s + w);
    StartsVisible(s + w);
    TrimsRight(s + w);
    EndsVisible(s);
  }

  lemma TrimsLeft(s: string)
    requires LeadingSpace(s) > 0
    ensures TrimLeft(s) == TrimLeft(s[LeadingSpace(s)..])
  {
  }

  lemma TrimsRight(s: string)
    requires TrailingSpace(s) > 0
    ensures TrimRight(s) == TrimRight(s[..|s| - TrailingSpace(s)])
  {
  }

  lemma EndsVisible(s: string)
    requires s != "" && Visible(s[|s| - 1])
    ensures TrimRight(s) == s
  {
    assert TrailingSpace(s) == 0;
  }
}
