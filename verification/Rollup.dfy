/**
 * Delimiter roll-up: the item a key contributes to a listing is the key itself, or the common
 * prefix up to and including the first delimiter after the listing prefix.
 *
 * Items come in the order of their keys, and an item is its own item, so a listing can be resumed
 * strictly after any item, a rolled-up prefix included, with no state but the item itself.
 */
module Rollup {
  import opened ByteStrings

  /** `strings.Index` for a non-empty needle: the first occurrence, or -1. */
  function IndexOf(s: string, d: string): (i: int)
    requires d != ""
    ensures -1 <= i <= |s| - |d| || i == -1
  {
    if |s| < |d| then -1
    else if d <= s then 0
    else var r := IndexOf(s[1..], d); if r < 0 then -1 else r + 1
  }

  lemma {:induction false} IndexOfMeaning(s: string, d: string, j: nat)
    requires d != "" && j <= |s|
    ensures IndexOf(s, d) >= 0 ==> IndexOf(s, d) + |d| <= |s| && d <= s[IndexOf(s, d)..]
    ensures d <= s[j..] ==> 0 <= IndexOf(s, d) <= j
  {
    if |s| >= |d| && !(d <= s) {
      if j > 0 {
        assert s[1..][j - 1..] == s[j..];
        IndexOfMeaning(s[1..], d, j - 1);
      } else {
        IndexOfMeaning(s[1..], d, 0);
      }
      var r := IndexOf(s[1..], d);
      if r >= 0 {
        assert s[1..][r..] == s[r + 1..];
      }
    }
  }

  /** Two strings that agree up to the end of the first occurrence have it at the same place. */
  lemma SameIndex(s: string, t: string, d: string)
    requires d != "" && IndexOf(s, d) >= 0
    requires s[..IndexOf(s, d) + |d|] <= t
    ensures IndexOf(t, d) == IndexOf(s, d)
  {
    var i := IndexOf(s, d);
    IndexOfMeaning(s, d, 0);
    SameOccurrence(s, t, d, i + |d|, i);
    IndexOfMeaning(t, d, i);
    var k := IndexOf(t, d);
    SameOccurrence(s, t, d, i + |d|, k);
    IndexOfMeaning(s, d, k);
  }

  lemma SameOccurrence(s: string, t: string, d: string, n: nat, i: nat)
    requires n <= |s| && s[..n] <= t && i + |d| <= n
    ensures d <= s[i..] <==> d <= t[i..]
  {
    assert s[i..][..|d|] == s[..n][i..i + |d|] == t[i..][..|d|];
  }

  predicate RollsUp(k: string, prefix: string, delim: string) {
    prefix <= k && delim != "" && IndexOf(k[|prefix|..], delim) >= 0
  }

  function Item(k: string, prefix: string, delim: string): (it: string)
    ensures it <= k && (prefix <= k ==> prefix <= it)
  {
    if RollsUp(k, prefix, delim) then
      var i := IndexOf(k[|prefix|..], delim);
      k[..|prefix| + i + |delim|]
    else k
  }

  /** The delimiter occurs in the key at `i`, and nowhere between the listing prefix and `i`. */
  ghost predicate FirstAt(k: string, prefix: string, delim: string, i: int) {
    && |prefix| <= i <= |k| && delim <= k[i..]
    && forall j :: |prefix| <= j < i ==> !(delim <= k[j..])
  }

  /** The key holds the delimiter somewhere after the listing prefix. */
  ghost predicate Delimited(k: string, prefix: string, delim: string) {
    delim != "" && exists i :: |prefix| <= i <= |k| && delim <= k[i..]
  }

  lemma TailOfTail(k: string, n: nat, j: nat)
    requires n + j <= |k|
    ensures k[n..][j..] == k[n + j..]
  {
  }

  lemma FirstIndex(k: string, prefix: string, delim: string, i: int)
    requires prefix <= k && delim != "" && FirstAt(k, prefix, delim, i)
    ensures IndexOf(k[|prefix|..], delim) == i - |prefix|
  {
    hide IndexOf;
    var n := |prefix|;
    var r := IndexOf(k[n..], delim);
    TailOfTail(k, n, i - n);
    IndexOfMeaning(k[n..], delim, i - n);
    TailOfTail(k, n, r);
  }

  lemma NoIndex(k: string, prefix: string, delim: string)
    requires prefix <= k && delim != "" && IndexOf(k[|prefix|..], delim) < 0
    ensures !Delimited(k, prefix, delim)
  {
    hide IndexOf;
    var n := |prefix|;
    forall i | n <= i <= |k|
      ensures !(delim <= k[i..])
    {
      IndexOfMeaning(k[n..], delim, i - n);
      TailOfTail(k, n, i - n);
    }
  }

  lemma IndexIsFirst(k: string, prefix: string, delim: string)
    requires prefix <= k && delim != "" && IndexOf(k[|prefix|..], delim) >= 0
    ensures FirstAt(k, prefix, delim, |prefix| + IndexOf(k[|prefix|..], delim))
  {
    hide IndexOf;
    var n := |prefix|;
    var r := IndexOf(k[n..], delim);
    IndexOfMeaning(k[n..], delim, 0);
    TailOfTail(k, n, r);
    forall j | n <= j < n + r
      ensures !(delim <= k[j..])
    {
      IndexOfMeaning(k[n..], delim, j - n);
      TailOfTail(k, n, j - n);
    }
  }

  /** A key is cut after the first delimiter behind the listing prefix, and listed whole without one. */
  lemma ItemMeaning(k: string, prefix: string, delim: string)
    requires prefix <= k
    ensures RollsUp(k, prefix, delim) <==> Delimited(k, prefix, delim)
    ensures !Delimited(k, prefix, delim) ==> Item(k, prefix, delim) == k
    ensures Delimited(k, prefix, delim) ==>
              exists i :: FirstAt(k, prefix, delim, i) && Item(k, prefix, delim) == k[..i + |delim|]
    ensures forall i :: delim != "" && FirstAt(k, prefix, delim, i) ==> Item(k, prefix, delim) == k[..i + |delim|]
  {
    hide IndexOf;
    if delim != "" {
      if IndexOf(k[|prefix|..], delim) >= 0 {
        IndexIsFirst(k, prefix, delim);
        FirstDelimits(k, prefix, delim, |prefix| + IndexOf(k[|prefix|..], delim));
      } else {
        NoIndex(k, prefix, delim);
      }
      forall i | FirstAt(k, prefix, delim, i)
        ensures Item(k, prefix, delim) == k[..i + |delim|]
      {
        FirstIndex(k, prefix, delim, i);
        FirstDelimits(k, prefix, delim, i);
      }
    }
  }

  lemma FirstDelimits(k: string, prefix: string, delim: string, i: int)
    requires delim != "" && FirstAt(k, prefix, delim, i)
    ensures |prefix| <= i <= |k| && Delimited(k, prefix, delim)
  {
  }

  /** Every key under a common prefix derives that same prefix again, and so does the prefix. */
  lemma UnderPrefix(k: string, k2: string, prefix: string, delim: string)
    requires RollsUp(k, prefix, delim) && Item(k, prefix, delim) <= k2
    ensures RollsUp(k2, prefix, delim) && Item(k2, prefix, delim) == Item(k, prefix, delim)
  {
    var cp := Item(k, prefix, delim);
    var s, t := k[|prefix|..], k2[|prefix|..];
    var i := IndexOf(s, delim);
    assert s[..i + |delim|] == cp[|prefix|..] == t[..i + |delim|];
    SameIndex(s, t, delim);
  }

  /** Whether an item is a common prefix can be read off the item. */
  lemma ItemIsOwnItem(k: string, prefix: string, delim: string)
    ensures RollsUp(Item(k, prefix, delim), prefix, delim) <==> RollsUp(k, prefix, delim)
    ensures Item(Item(k, prefix, delim), prefix, delim) == Item(k, prefix, delim)
  {
    if RollsUp(k, prefix, delim) {
      UnderPrefix(k, Item(k, prefix, delim), prefix, delim);
    }
  }

  /** Items come out in the order of their keys: the contiguity of prefix intervals. */
  lemma ItemMonotone(k1: string, k2: string, prefix: string, delim: string)
    requires prefix <= k1 && prefix <= k2 && Less(k1, k2)
    ensures AtMost(Item(k1, prefix, delim), Item(k2, prefix, delim))
  {
    var it1, it2 := Item(k1, prefix, delim), Item(k2, prefix, delim);
    if RollsUp(k1, prefix, delim) && it1 <= k2 {
      UnderPrefix(k1, k2, prefix, delim);
    } else if it1 <= k2 {
      assert it1 == k1;
      if !AtMost(k1, it2) {
        LessTotal(k1, it2);
        PrefixAtMost(k1, k2);
        assert it2 <= k1 by { PrefixesNest(it2, k1, k2); }
        UnderPrefix(k2, k1, prefix, delim);
      }
    } else {
      PastPrefix(it1, k1, k2, it2);
      if !Less(it1, it2) {
        assert it2 <= it1 && it2 != it1;
        if RollsUp(k2, prefix, delim) {
          assert it2 <= k1;
          UnderPrefix(k2, k1, prefix, delim);
        } else {
          PrefixAtMost(k2, k1);
          Trichotomy(k1, k2);
        }
      }
    }
  }

  lemma PrefixesNest(a: string, b: string, k: string)
    requires a <= k && b <= k && Less(a, b)
    ensures a <= b
  {
    if |a| > |b| {
      assert b <= a;
      PrefixAtMost(b, a);
      LessAsymmetric(a, b);
    }
  }
}
