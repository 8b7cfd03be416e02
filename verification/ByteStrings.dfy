/**
 * Byte strings and their lexicographic order.
 *
 * Go strings are byte sequences compared bytewise; SQLite compares TEXT the same way. A byte is
 * modelled as a character below 256. Everything that only needs the order is stated for all
 * strings; `PrefixEnd` needs the byte range and is stated for `Str`.
 *
 * Sets of keys are listed in ascending order without repetition; that listing is unique, which is
 * what lets two ways of computing it be compared.
 */
module ByteStrings {
  type Byte = c: char | c as int < 256

  type Str = seq<Byte>

  predicate IsBytes(s: string) {
    forall i :: 0 <= i < |s| ==> s[i] as int < 256
  }

  /** Strict lexicographic order: Go's `<` on strings. */
  predicate Less(a: string, b: string) {
    if b == "" then false
    else if a == "" then true
    else if a[0] != b[0] then a[0] < b[0]
    else Less(a[1..], b[1..])
  }

  /** The smaller string is a proper prefix, or has the smaller character where the two first differ. */
  lemma {:induction false} LessMeaning(a: string, b: string)
    ensures Less(a, b) <==>
            || (a <= b && |a| < |b|)
            || exists i :: (0 <= i < |a| && i < |b| && a[..i] == b[..i] && a[i] < b[i])
  {
    if a != "" && b != "" && a[0] == b[0] {
      LessMeaning(a[1..], b[1..]);
      assert a == [a[0]] + a[1..] && b == [b[0]] + b[1..];
      if i :| 0 <= i < |a[1..]| && i < |b[1..]| && a[1..][..i] == b[1..][..i] && a[1..][i] < b[1..][i] {
        assert a[..i + 1] == [a[0]] + a[1..][..i] && b[..i + 1] == [b[0]] + b[1..][..i];
        assert a[i + 1] < b[i + 1];
      }
      if i :| 0 <= i < |a| && i < |b| && a[..i] == b[..i] && a[i] < b[i] {
        assert i > 0 && a[1..][..i - 1] == a[..i][1..] == b[1..][..i - 1];
        assert a[1..][i - 1] < b[1..][i - 1];
      }
    } else if a != "" && b != "" {
      assert a[..0] == b[..0];
      if i :| 0 <= i < |a| && i < |b| && a[..i] == b[..i] && a[i] < b[i] {
        assert i > 0 ==> a[..i][0] == b[..i][0];
      }
    }
  }

  predicate AtMost(a: string, b: string) {
    a == b || Less(a, b)
  }

  lemma {:induction false} LessIrreflexive(a: string)
    ensures !Less(a, a)
  {
    if a != "" {
      LessIrreflexive(a[1..]);
    }
  }

  lemma {:induction false} LessTransitive(a: string, b: string, c: string)
    requires Less(a, b) && Less(b, c)
    ensures Less(a, c)
  {
    if a != "" && a[0] == b[0] == c[0] {
      LessTransitive(a[1..], b[1..], c[1..]);
    }
  }

  lemma {:induction false} LessTotal(a: string, b: string)
    ensures a == b || Less(a, b) || Less(b, a)
  {
    if a != "" && b != "" && a[0] == b[0] {
      LessTotal(a[1..], b[1..]);
      if a[1..] == b[1..] {
        assert a == [a[0]] + a[1..] && b == [b[0]] + b[1..];
      }
    }
  }

  lemma LessAsymmetric(a: string, b: string)
    requires Less(a, b)
    ensures !Less(b, a) && a != b
  {
    LessIrreflexive(a);
    if Less(b, a) {
      LessTransitive(a, b, a);
    }
  }

  /** Order facts for one pair, both ways round. */
  lemma Trichotomy(a: string, b: string)
    ensures a == b || Less(a, b) || Less(b, a)
    ensures !(Less(a, b) && Less(b, a)) && (a == b ==> !Less(a, b) && !Less(b, a))
  {
    LessTotal(a, b);
    LessIrreflexive(a);
    if Less(a, b) {
      LessAsymmetric(a, b);
    }
  }

  lemma AtMostThenLess(a: string, b: string, c: string)
    requires AtMost(a, b) && Less(b, c)
    ensures Less(a, c)
  {
    if a != b {
      LessTransitive(a, b, c);
    }
  }

  lemma LessThenAtMost(a: string, b: string, c: string)
    requires Less(a, b) && AtMost(b, c)
    ensures Less(a, c)
  {
    if b != c {
      LessTransitive(a, b, c);
    }
  }

  /** A prefix sorts at or before everything that extends it. */
  lemma {:induction false} PrefixAtMost(p: string, k: string)
    requires p <= k
    ensures AtMost(p, k)
  {
    if p != "" {
      PrefixAtMost(p[1..], k[1..]);
      if p[1..] == k[1..] {
        assert p == [p[0]] + p[1..] && k == [k[0]] + k[1..];
      }
    }
  }

  /**
   * When `y` sorts after something that starts with `p` but does not start with `p` itself, every
   * prefix of `y` is either a proper prefix of `p` or sorts after `p`.
   */
  lemma {:induction false} PastPrefix(p: string, x: string, y: string, q: string)
    requires p <= x && Less(x, y) && !(p <= y)
    requires q <= y
    ensures Less(p, q) || (q <= p && q != p)
  {
    if q != "" {
      assert p != "";
      if x[0] == y[0] {
        PastPrefix(p[1..], x[1..], y[1..], q[1..]);
        if q[1..] <= p[1..] {
          assert q == [q[0]] + q[1..] && p == [p[0]] + p[1..];
        }
      }
    }
  }

  // ---------------------------------------------------------------------------------------------
  // Strictly ascending key sequences
  // ---------------------------------------------------------------------------------------------

  ghost predicate Ascending(s: seq<string>) {
    forall i, j :: 0 <= i < j < |s| ==> Less(s[i], s[j])
  }

  ghost function Elements<T>(s: seq<T>): set<T> {
    set x | x in s
  }

  /** A strictly ascending sequence is determined by its elements. */
  lemma {:induction false} AscendingUnique(s: seq<string>, t: seq<string>)
    requires Ascending(s) && Ascending(t) && Elements(s) == Elements(t)
    ensures s == t
  {
    assert t != [] ==> t[0] in Elements(t);
    if s == [] {
    } else {
      assert s[0] in Elements(s) && t != [];
      assert t[0] in Elements(t) && t[0] in s && s[0] in t;
      Trichotomy(s[0], t[0]);
      assert s[0] == t[0];
      forall x
        ensures x in s[1..] <==> x in t[1..]
      {
        TailElements(s, x);
        TailElements(t, x);
        assert x in s <==> x in Elements(t);
      }
      assert Elements(s[1..]) == Elements(t[1..]);
      AscendingUnique(s[1..], t[1..]);
      assert s == [s[0]] + s[1..] && t == [t[0]] + t[1..];
    }
  }

  lemma TailElements(s: seq<string>, x: string)
    requires s != [] && Ascending(s)
    ensures x in s[1..] <==> x in s && x != s[0]
  {
    LessIrreflexive(s[0]);
  }

  /** Where `k` belongs in an ascending sequence that may already hold it. */
  function Insert(k: string, s: seq<string>): (r: seq<string>)
  {
    if s == [] || Less(k, s[0]) then [k] + s
    else if k == s[0] then s
    else [s[0]] + Insert(k, s[1..])
  }

  lemma {:induction false} InsertAscending(k: string, s: seq<string>)
    requires Ascending(s)
    ensures Ascending(Insert(k, s))
    ensures forall x :: x in Insert(k, s) <==> x == k || x in s
  {
    if s == [] {
    } else if Less(k, s[0]) {
      forall j | 0 <= j < |s|
        ensures Less(k, s[j])
      {
        if j > 0 {
          LessTransitive(k, s[0], s[j]);
        }
      }
    } else if k != s[0] {
      InsertAscending(k, s[1..]);
      LessTotal(k, s[0]);
      var r := Insert(k, s[1..]);
      assert forall x :: x in s <==> x == s[0] || x in s[1..];
      assert forall j :: 0 <= j < |r| ==> r[j] in r;
    }
  }

  /** The elements of a finite set in ascending order: what `sort.Strings` leaves behind. */
  ghost function Ordered(keys: set<string>): (s: seq<string>)
    ensures Ascending(s)
    ensures forall x :: x in s <==> x in keys
  {
    if keys == {} then [] else
      var k :| k in keys;
      InsertAscending(k, Ordered(keys - {k}));
      Insert(k, Ordered(keys - {k}))
  }

  lemma OrderedIsTheOne(s: seq<string>, keys: set<string>)
    requires Ascending(s) && forall x :: x in s <==> x in keys
    ensures s == Ordered(keys)
  {
    assert Elements(s) == keys == Elements(Ordered(keys));
    AscendingUnique(s, Ordered(keys));
  }

  /** Dropping everything up to the i-th element leaves the rest, in the same order. */
  lemma OrderedAfter(keys: set<string>, i: nat, rest: set<string>)
    requires 0 < i <= |Ordered(keys)|
    requires forall k :: k in rest <==> k in keys && Less(Ordered(keys)[i - 1], k)
    ensures Ordered(rest) == Ordered(keys)[i..]
  {
    var s := Ordered(keys);
    forall x
      ensures x in s[i..] <==> x in rest
    {
      if x in rest {
        var j :| 0 <= j < |s| && s[j] == x;
        Trichotomy(s[i - 1], x);
        assert s[i..][j - i] == x;
      }
      if x in s[i..] {
        var j :| i <= j < |s| && s[j] == x;
        assert s[j] in s;
      }
    }
    OrderedIsTheOne(s[i..], rest);
  }

  /** Sorts the elements of a set, taken in any order. */
  method SortStrings(keys: set<string>) returns (s: seq<string>)
    ensures s == Ordered(keys)
  {
    s := [];
    var rest := keys;
    while rest != {}
      invariant rest <= keys
      invariant Ascending(s)
      invariant forall x :: x in s <==> x in keys - rest
      decreases rest
    {
      var k :| k in rest;
      InsertAscending(k, s);
      s := Insert(k, s);
      rest := rest - {k};
    }
    OrderedIsTheOne(s, keys);
  }

  // ---------------------------------------------------------------------------------------------
  // prefixEnd: a prefix test as a key range
  // ---------------------------------------------------------------------------------------------

  function Bump(c: Byte): Byte
    requires c as int < 255
  {
    (c as int + 1) as char
  }

  /** The upper bound, by its meaning: cut after the last byte below 0xFF and increment that byte. */
  function UpperBound(prefix: Str): (end: Str)
  {
    if prefix == [] then []
    else if prefix[|prefix| - 1] as int < 255 then prefix[..|prefix| - 1] + [Bump(prefix[|prefix| - 1])]
    else UpperBound(prefix[..|prefix| - 1])
  }

  /** The loop of `prefixEnd`: walks back over a byte buffer and increments in place. */
  method PrefixEnd(prefix: Str) returns (end: Str)
    ensures end == UpperBound(prefix)
    ensures forall k: Str :: InRange(prefix, end, k) <==> prefix <= k
  {
    forall k: Str
      ensures InRange(prefix, UpperBound(prefix), k) <==> prefix <= k
    {
      RangeIsPrefixTest(prefix, k);
    }
    if prefix == [] {
      return [];
    }
    var b := new Byte[|prefix|](i requires 0 <= i < |prefix| => prefix[i]);
    var i := |prefix| - 1;
    assert prefix[..|prefix|] == prefix;
    while i >= 0
      invariant -1 <= i < |prefix| && b.Length == |prefix|
      invariant forall j :: 0 <= j < |prefix| ==> b[j] == prefix[j]
      invariant UpperBound(prefix) == UpperBound(prefix[..i + 1])
    {
      assert prefix[..i + 1][..i] == prefix[..i];
      if b[i] as int < 255 {
        b[i] := Bump(b[i]);
        assert b[..i + 1] == prefix[..i] + [Bump(prefix[i])];
        return b[..i + 1];
      }
      i := i - 1;
    }
    return [];
  }

  /** The range condition of the SQL queries: `key >= prefix`, and `key < end` unless `end` is "". */
  predicate InRange(prefix: string, end: string, k: string) {
    AtMost(prefix, k) && (end != "" ==> Less(k, end))
  }

  lemma {:induction false} RangeIsPrefixTest(prefix: Str, k: Str)
    ensures InRange(prefix, UpperBound(prefix), k) <==> prefix <= k
  {
    if prefix == [] {
      PrefixAtMost(prefix, k);
    } else if AllMax(prefix) {
      AllMaxHasNoBound(prefix);
      AboveAllMax(prefix, k);
    } else {
      BoundWithFirst(prefix);
      var end := UpperBound(prefix);
      if k == [] {
      } else if k[0] == prefix[0] {
        if AllMax(prefix[1..]) {
          AllMaxHasNoBound(prefix[1..]);
          AboveAllMax(prefix[1..], k[1..]);
          assert AtMost(prefix[1..], k[1..]) <==> prefix[1..] <= k[1..];
        } else {
          RangeIsPrefixTest(prefix[1..], k[1..]);
        }
        assert prefix == [prefix[0]] + prefix[1..] && k == [k[0]] + k[1..];
        assert prefix <= k <==> prefix[1..] <= k[1..];
      } else {
        assert end[0] == prefix[0] || end == [Bump(prefix[0])];
        assert prefix[0] < k[0] ==> !Less(k, end);
      }
    }
  }

  predicate AllMax(s: Str) {
    forall i :: 0 <= i < |s| ==> s[i] as int == 255
  }

  lemma {:induction false} AllMaxHasNoBound(s: Str)
    requires AllMax(s)
    ensures UpperBound(s) == []
  {
    if s != [] {
      AllMaxHasNoBound(s[..|s| - 1]);
    }
  }

  lemma {:induction false} AboveAllMax(p: Str, k: Str)
    requires AllMax(p)
    ensures AtMost(p, k) <==> p <= k
  {
    if p <= k {
      PrefixAtMost(p, k);
    } else if p != [] && k != [] {
      AboveAllMax(p[1..], k[1..]);
      assert p == [p[0]] + p[1..] && k == [k[0]] + k[1..];
    }
  }

  /** How the bound of a prefix that is not all 0xFF starts. */
  lemma {:induction false} BoundWithFirst(p: Str)
    requires p != [] && !AllMax(p)
    ensures AllMax(p[1..]) ==> p[0] as int < 255 && UpperBound(p) == [Bump(p[0])]
    ensures !AllMax(p[1..]) ==> UpperBound(p[1..]) != [] && UpperBound(p) == [p[0]] + UpperBound(p[1..])
  {
    var n := |p|;
    if n > 1 {
      assert p[..n - 1][1..] == p[1..][..n - 2];
      if p[n - 1] as int == 255 {
        assert !AllMax(p[..n - 1]);
        BoundWithFirst(p[..n - 1]);
        assert AllMax(p[1..]) <==> AllMax(p[..n - 1][1..]);
        assert UpperBound(p[1..]) == UpperBound(p[1..][..n - 2]);
      } else {
        assert p[1..][n - 2] == p[n - 1];
        assert p[..n - 1] == [p[0]] + p[1..][..n - 2];
      }
    } else {
      assert p[..0] == [];
    }
  }
}
