/**
 * The canonical query string of a signed request: every (name, value) pair percent-encoded, sorted
 * by encoded name and then encoded value, and joined.
 */
module CanonicalQuery {
  import opened ByteStrings
  import opened Escaping

  type Pair = (string, string)

  /** A parsed query: each name with its list of values. */
  type Values = map<string, seq<string>>

  function Encode(p: Pair): Pair {
    (Escape(p.0, false), Escape(p.1, false))
  }

  function EncodeAll(ps: seq<Pair>): seq<Pair> {
    if ps == [] then [] else [Encode(ps[0])] + EncodeAll(ps[1..])
  }

  /** Sorted by encoded name, then encoded value. */
  predicate PairLess(a: Pair, b: Pair) {
    if a.0 != b.0 then Less(a.0, b.0) else Less(a.1, b.1)
  }

  ghost predicate PairsSorted(ps: seq<Pair>) {
    forall i, j :: 0 <= i < j < |ps| ==> !PairLess(ps[j], ps[i])
  }

  function InsertPair(p: Pair, ps: seq<Pair>): seq<Pair> {
    if ps == [] || !PairLess(ps[0], p) then [p] + ps else [ps[0]] + InsertPair(p, ps[1..])
  }

  function SortPairs(ps: seq<Pair>): seq<Pair> {
    if ps == [] then [] else InsertPair(ps[0], SortPairs(ps[1..]))
  }

  function Segment(p: Pair): string {
    p.0 + "=" + p.1
  }

  function Join(ps: seq<Pair>): string {
    if ps == [] then "" else if |ps| == 1 then Segment(ps[0]) else Segment(ps[0]) + "&" + Join(ps[1..])
  }

  function Canonical(ps: seq<Pair>): string {
    Join(SortPairs(EncodeAll(ps)))
  }

  // ---------------------------------------------------------------------------------------------
  // Sorting: the order the pairs arrive in does not matter
  // ---------------------------------------------------------------------------------------------

  lemma PairOrder(a: Pair, b: Pair)
    ensures a == b || PairLess(a, b) || PairLess(b, a)
    ensures !(PairLess(a, b) && PairLess(b, a)) && !PairLess(a, a)
  {
    Trichotomy(a.0, b.0);
    Trichotomy(a.1, b.1);
    LessIrreflexive(a.1);
  }

  lemma NotLessTransitive(a: Pair, b: Pair, c: Pair)
    requires !PairLess(b, a) && !PairLess(c, b)
    ensures !PairLess(c, a)
  {
    Trichotomy(a.0, b.0);
    Trichotomy(b.0, c.0);
    Trichotomy(a.0, c.0);
    Trichotomy(a.1, b.1);
    Trichotomy(b.1, c.1);
    Trichotomy(a.1, c.1);
    if Less(a.0, b.0) && Less(b.0, c.0) {
      LessTransitive(a.0, b.0, c.0);
    }
    if Less(a.1, b.1) && Less(b.1, c.1) {
      LessTransitive(a.1, b.1, c.1);
    }
  }

  lemma {:induction false} InsertPairElements(p: Pair, ps: seq<Pair>)
    ensures multiset(InsertPair(p, ps)) == multiset([p]) + multiset(ps)
    ensures forall x :: x in InsertPair(p, ps) <==> x == p || x in ps
  {
    if ps != [] && PairLess(ps[0], p) {
      InsertPairElements(p, ps[1..]);
      assert ps == [ps[0]] + ps[1..];
    }
  }

  lemma {:induction false} InsertPairSorted(p: Pair, ps: seq<Pair>)
    requires PairsSorted(ps)
    ensures PairsSorted(InsertPair(p, ps))
  {
    if ps == [] {
    } else if !PairLess(ps[0], p) {
      forall j | 0 <= j < |ps|
        ensures !PairLess(ps[j], p)
      {
        if j > 0 {
          NotLessTransitive(p, ps[0], ps[j]);
        }
      }
    } else {
      var t := InsertPair(p, ps[1..]);
      InsertPairSorted(p, ps[1..]);
      InsertPairElements(p, ps[1..]);
      PairOrder(ps[0], p);
      forall j | 0 <= j < |t|
        ensures !PairLess(t[j], ps[0])
      {
        assert t[j] in t;
      }
    }
  }

  lemma {:induction false} SortPairsMeaning(ps: seq<Pair>)
    ensures PairsSorted(SortPairs(ps)) && multiset(SortPairs(ps)) == multiset(ps)
  {
    if ps != [] {
      SortPairsMeaning(ps[1..]);
      InsertPairSorted(ps[0], SortPairs(ps[1..]));
      InsertPairElements(ps[0], SortPairs(ps[1..]));
      assert ps == [ps[0]] + ps[1..];
    }
  }

  lemma SameFirst(a: seq<Pair>, b: seq<Pair>)
    requires PairsSorted(a) && PairsSorted(b) && multiset(a) == multiset(b) && a != [] && b != []
    ensures a[0] == b[0]
  {
    assert a[0] in multiset(b) && b[0] in multiset(a);
    var i :| 0 <= i < |b| && b[i] == a[0];
    var j :| 0 <= j < |a| && a[j] == b[0];
    PairOrder(a[0], b[0]);
  }

  lemma TailBag(a: seq<Pair>)
    requires a != []
    ensures multiset(a[1..]) == multiset(a) - multiset{a[0]}
  {
    assert a == [a[0]] + a[1..];
  }

  lemma {:induction false} SortedUnique(a: seq<Pair>, b: seq<Pair>)
    requires PairsSorted(a) && PairsSorted(b) && multiset(a) == multiset(b)
    ensures a == b
  {
    assert |a| == |multiset(a)| == |multiset(b)| == |b|;
    if a != [] {
      SameFirst(a, b);
      TailBag(a);
      TailBag(b);
      SortedUnique(a[1..], b[1..]);
      assert a == [a[0]] + a[1..] && b == [b[0]] + b[1..];
    }
  }

  lemma SortIgnoresOrder(a: seq<Pair>, b: seq<Pair>)
    ensures SortPairs(a) == SortPairs(b) <==> multiset(a) == multiset(b)
  {
    SortPairsMeaning(a);
    SortPairsMeaning(b);
    if multiset(a) == multiset(b) {
      SortedUnique(SortPairs(a), SortPairs(b));
    }
  }

  // ---------------------------------------------------------------------------------------------
  // Encoding pair by pair keeps multiplicities
  // ---------------------------------------------------------------------------------------------

  lemma EncodePairInjective(a: Pair, b: Pair)
    requires Encode(a) == Encode(b)
    ensures a == b
  {
    EscapeInjective(a.0, b.0, false);
    EscapeInjective(a.1, b.1, false);
  }

  lemma {:induction false} EncodeKeepsCount(ps: seq<Pair>, p: Pair)
    ensures multiset(EncodeAll(ps))[Encode(p)] == multiset(ps)[p]
  {
    if ps != [] {
      EncodeKeepsCount(ps[1..], p);
      assert ps == [ps[0]] + ps[1..];
      if Encode(ps[0]) == Encode(p) {
        EncodePairInjective(ps[0], p);
      }
    }
  }

  lemma {:induction false} EncodedElements(ps: seq<Pair>, e: Pair)
    requires e in multiset(EncodeAll(ps))
    ensures exists p :: p in ps && Encode(p) == e
  {
    assert e in EncodeAll(ps);
    if e != Encode(ps[0]) {
      EncodedElements(ps[1..], e);
    }
  }

  lemma EncodeBag(a: seq<Pair>, b: seq<Pair>)
    ensures multiset(EncodeAll(a)) == multiset(EncodeAll(b)) <==> multiset(a) == multiset(b)
  {
    if multiset(EncodeAll(a)) == multiset(EncodeAll(b)) {
      forall p
        ensures multiset(a)[p] == multiset(b)[p]
      {
        EncodeKeepsCount(a, p);
        EncodeKeepsCount(b, p);
      }
    }
    if multiset(a) == multiset(b) {
      forall e
        ensures multiset(EncodeAll(a))[e] == multiset(EncodeAll(b))[e]
      {
        if e in multiset(EncodeAll(a)) {
          EncodedElements(a, e);
        } else if e in multiset(EncodeAll(b)) {
          EncodedElements(b, e);
        }
        if p :| Encode(p) == e {
          EncodeKeepsCount(a, p);
          EncodeKeepsCount(b, p);
        }
      }
    }
  }

  // ---------------------------------------------------------------------------------------------
  // The joined string determines the pairs
  // ---------------------------------------------------------------------------------------------

  predicate Clean(s: string) {
    '=' !in s && '&' !in s
  }

  ghost predicate CleanPairs(ps: seq<Pair>) {
    forall i :: 0 <= i < |ps| ==> Clean(ps[i].0) && Clean(ps[i].1)
  }

  /** Two strings split at the first occurrence of a separator neither head contains. */
  lemma SplitAt(a: string, b: string, x: string, y: string, sep: char)
    requires sep !in a && sep !in b && a + [sep] + x == b + [sep] + y
    ensures a == b && x == y
  {
    var s := a + [sep] + x;
    assert s[|a|] == sep && s[|b|] == sep;
    assert forall i :: 0 <= i < |a| ==> s[i] == a[i];
    assert forall i :: 0 <= i < |b| ==> s[i] == b[i];
    assert |a| == |b|;
    assert a == s[..|a|] && b == s[..|b|];
    assert x == s[|a| + 1..] && y == s[|b| + 1..];
  }

  lemma SegmentInjective(p: Pair, r: Pair)
    requires Clean(p.0) && Clean(r.0) && Segment(p) == Segment(r)
    ensures p == r
  {
    SplitAt(p.0, r.0, p.1, r.1, '=');
  }

  lemma JoinShape(ps: seq<Pair>)
    requires CleanPairs(ps) && ps != []
    ensures '=' in Join(ps) && '&' !in Segment(ps[0])
    ensures |ps| > 1 ==> Join(ps) == Segment(ps[0]) + ['&'] + Join(ps[1..])
    ensures |ps| > 1 <==> '&' in Join(ps)
  {
    assert Segment(ps[0])[|ps[0].0|] == '=';
    assert Join(ps)[|ps[0].0|] == '=';
    if |ps| > 1 {
      assert Join(ps)[|Segment(ps[0])|] == '&';
    }
  }

  lemma {:induction false} JoinInjective(a: seq<Pair>, b: seq<Pair>)
    requires CleanPairs(a) && CleanPairs(b) && Join(a) == Join(b)
    ensures a == b
    decreases |a|
  {
    if a != [] {
      JoinShape(a);
    }
    if b != [] {
      JoinShape(b);
    }
    if a == [] || b == [] {
      assert a == b;
    } else if |a| == 1 {
      SegmentInjective(a[0], b[0]);
    } else {
      SplitAt(Segment(a[0]), Segment(b[0]), Join(a[1..]), Join(b[1..]), '&');
      SegmentInjective(a[0], b[0]);
      JoinInjective(a[1..], b[1..]);
      assert a == [a[0]] + a[1..] && b == [b[0]] + b[1..];
    }
  }

  lemma EscapedClean(s: string)
    ensures Clean(Escape(s, false))
  {
    if '=' in Escape(s, false) {
      EscapedIsClean(s, false, '=');
    }
    if '&' in Escape(s, false) {
      EscapedIsClean(s, false, '&');
    }
  }

  lemma SortedIsClean(ps: seq<Pair>)
    ensures CleanPairs(SortPairs(EncodeAll(ps)))
  {
    var s := SortPairs(EncodeAll(ps));
    SortPairsMeaning(EncodeAll(ps));
    forall i | 0 <= i < |s|
      ensures Clean(s[i].0) && Clean(s[i].1)
    {
      assert s[i] in multiset(s);
      EncodedElements(ps, s[i]);
      var p :| p in ps && Encode(p) == s[i];
      EscapedClean(p.0);
      EscapedClean(p.1);
    }
  }

  /**
   * Two queries have the same canonical string exactly when they hold the same pairs the same
   * number of times, in whatever order the pairs were visited.
   */
  lemma CanonicalDetermines(a: seq<Pair>, b: seq<Pair>)
    ensures Canonical(a) == Canonical(b) <==> multiset(a) == multiset(b)
  {
    var ea, eb := EncodeAll(a), EncodeAll(b);
    SortIgnoresOrder(ea, eb);
    EncodeBag(a, b);
    if Canonical(a) == Canonical(b) {
      SortedIsClean(a);
      SortedIsClean(b);
      JoinInjective(SortPairs(ea), SortPairs(eb));
    }
  }

  /** The pairs in the string come by encoded name, byte by byte, and under one name by encoded value. */
  lemma CanonicalAscends(ps: seq<Pair>, i: nat, j: nat)
    requires i < j < |SortPairs(EncodeAll(ps))|
    ensures var sorted := SortPairs(EncodeAll(ps));
            Less(sorted[i].0, sorted[j].0) || (sorted[i].0 == sorted[j].0 && AtMost(sorted[i].1, sorted[j].1))
  {
    var sorted := SortPairs(EncodeAll(ps));
    SortPairsMeaning(EncodeAll(ps));
    Trichotomy(sorted[i].0, sorted[j].0);
    Trichotomy(sorted[i].1, sorted[j].1);
  }

  /** They are the given pairs, each with name and value escaped, '/' included. */
  lemma CanonicalPairs(ps: seq<Pair>)
    ensures |SortPairs(EncodeAll(ps))| == |ps|
    ensures forall p :: p in ps ==> (Escape(p.0, false), Escape(p.1, false)) in SortPairs(EncodeAll(ps))
    ensures forall e :: e in SortPairs(EncodeAll(ps)) ==>
                          && Unescape(e.0).Text? && Unescape(e.1).Text? && (Unescape(e.0).s, Unescape(e.1).s) in ps
                          && '/' !in e.0 && '/' !in e.1
  {
    var es := EncodeAll(ps);
    SortPairsMeaning(es);
    EncodedLength(ps);
    assert |SortPairs(es)| == |multiset(SortPairs(es))| == |multiset(es)| == |es|;
    forall p | p in ps
      ensures (Escape(p.0, false), Escape(p.1, false)) in SortPairs(es)
    {
      EncodeKeepsCount(ps, p);
      assert Encode(p) in multiset(es);
    }
    forall e | e in SortPairs(es)
      ensures Unescape(e.0).Text? && Unescape(e.1).Text? && (Unescape(e.0).s, Unescape(e.1).s) in ps
      ensures '/' !in e.0 && '/' !in e.1
    {
      assert e in multiset(SortPairs(es));
      EncodedElements(ps, e);
      var p :| p in ps && Encode(p) == e;
      UnescapeUndoes(p.0, false);
      UnescapeUndoes(p.1, false);
      NoSlash(p.0);
      NoSlash(p.1);
    }
  }

  lemma NoSlash(s: string)
    ensures '/' !in Escape(s, false)
  {
    if '/' in Escape(s, false) {
      EscapedIsClean(s, false, '/');
    }
  }

  lemma {:induction false} EncodedLength(ps: seq<Pair>)
    ensures |EncodeAll(ps)| == |ps|
  {
    if ps != [] {
      EncodedLength(ps[1..]);
    }
  }

  /** Name, '=', value; '&' between two pairs. */
  lemma {:induction false} JoinMore(ps: seq<Pair>, name: string, value: string)
    ensures Join([]) == "" && Join([(name, value)]) == name + "=" + value
    ensures ps != [] ==> Join(ps + [(name, value)]) == Join(ps) + "&" + (name + "=" + value)
  {
    if |ps| > 1 {
      JoinMore(ps[1..], name, value);
      assert (ps + [(name, value)])[1..] == ps[1..] + [(name, value)];
      var a, b := Segment(ps[0]) + "&", Join(ps[1..]);
      assert a + (b + "&" + (name + "=" + value)) == (a + b) + "&" + (name + "=" + value);
    } else if |ps| == 1 {
      assert (ps + [(name, value)])[1..] == [(name, value)];
    }
  }

  // ---------------------------------------------------------------------------------------------
  // canonicalQuery: iterates the map in any order
  // ---------------------------------------------------------------------------------------------

  function PairsOf(k: string, vs: seq<string>): seq<Pair> {
    if vs == [] then [] else [(k, vs[0])] + PairsOf(k, vs[1..])
  }

  /** All pairs of the given names. */
  ghost function Bag(q: Values, keys: set<string>): multiset<Pair>
    requires keys <= q.Keys
  {
    if keys == {} then multiset{} else
      var k :| k in keys;
      multiset(PairsOf(k, q[k])) + Bag(q, keys - {k})
  }

  /** The bag does not depend on which name is taken first. */
  lemma {:induction false} BagTakesAny(q: Values, keys: set<string>, k: string)
    requires keys <= q.Keys && k in keys
    ensures Bag(q, keys) == multiset(PairsOf(k, q[k])) + Bag(q, keys - {k})
    decreases |keys|
  {
    var c :| c in keys && Bag(q, keys) == multiset(PairsOf(c, q[c])) + Bag(q, keys - {c});
    if c != k {
      BagTakesAny(q, keys - {c}, k);
      BagTakesAny(q, keys - {k}, c);
      assert keys - {c} - {k} == keys - {k} - {c};
    }
  }

  lemma {:induction false} EncodeAllConcat(a: seq<Pair>, b: seq<Pair>)
    ensures EncodeAll(a + b) == EncodeAll(a) + EncodeAll(b)
  {
    if a == [] {
      assert a + b == b;
    } else {
      assert (a + b)[1..] == a[1..] + b;
      EncodeAllConcat(a[1..], b);
    }
  }

  /** The inner loop: one encoded pair per value of a name. */
  method AppendValues(k: string, vs: seq<string>, pairs: seq<Pair>) returns (out: seq<Pair>)
    ensures out == pairs + EncodeAll(PairsOf(k, vs))
  {
    var ek := EscapeBytes(k, false);
    out := pairs;
    for i := 0 to |vs|
      invariant out + EncodeAll(PairsOf(k, vs[i..])) == pairs + EncodeAll(PairsOf(k, vs))
    {
      var ev := EscapeBytes(vs[i], false);
      assert vs[i..][1..] == vs[i + 1..];
      out := out + [(ek, ev)];
    }
  }

  method QueryString(q: Values) returns (r: string, ghost visited: seq<Pair>)
    ensures multiset(visited) == Bag(q, q.Keys)
    ensures r == Canonical(visited)
    ensures forall other :: multiset(other) == Bag(q, q.Keys) ==> r == Canonical(other)
  {
    hide Join, SortPairs, PairsOf;
    var rest := q.Keys;
    var pairs: seq<Pair> := [];
    visited := [];
    while rest != {}
      invariant rest <= q.Keys
      invariant pairs == EncodeAll(visited)
      invariant multiset(visited) + Bag(q, rest) == Bag(q, q.Keys)
      decreases |rest|
    {
      var k :| k in rest;
      BagTakesAny(q, rest, k);
      EncodeAllConcat(visited, PairsOf(k, q[k]));
      pairs := AppendValues(k, q[k], pairs);
      visited := visited + PairsOf(k, q[k]);
      rest := rest - {k};
    }
    r := Join(SortPairs(pairs));
    forall other | multiset(other) == Bag(q, q.Keys)
      ensures r == Canonical(other)
    {
      CanonicalDetermines(visited, other);
    }
  }
}
