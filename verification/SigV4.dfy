/**
 AWS Signature Version 4 canonical encoding: the percent-encoding of sections 2.1 and 2.3 of RFC 3986
 and the canonical query string.
 */
module SigV4 {
  import opened Bytes

  // ------------------------------------------------------------------ percent-encoding

  predicate Unreserved(c: byte) {
    || 'A' as int <= c <= 'Z' as int || 'a' as int <= c <= 'z' as int || '0' as int <= c <= '9' as int
    || c == '-' as int || c == '.' as int || c == '_' as int || c == '~' as int
  }

  function HexDigit(n: int): byte
    requires 0 <= n < 16
  {
    if n < 10 then '0' as int + n else 'A' as int + n - 10
  }

  const PERCENT: byte := '%' as int
  const SLASH: byte := '/' as int
  const EQUALS: byte := '=' as int
  const AMPERSAND: byte := '&' as int

  function EncodeByte(c: byte, encodeSlash: bool): Bytes {
    if Unreserved(c) || (c == SLASH && !encodeSlash) then [c] else [PERCENT, HexDigit(c / 16), HexDigit(c % 16)]
  }

  function Encode(value: Bytes, encodeSlash: bool): Bytes {
    if value == [] then [] else Encode(value[..|value| - 1], encodeSlash) + EncodeByte(value[|value| - 1], encodeSlash)
  }

  method UriEncode(value: Bytes, encodeSlash: bool) returns (b: Bytes)
    ensures b == Encode(value, encodeSlash)
  {
    b := [];
    for i := 0 to |value|
      invariant b == Encode(value[..i], encodeSlash)
    {
      assert value[..i + 1][..i] == value[..i];
      var c := value[i];
      if Unreserved(c) {
        b := b + [c];
      } else if c == SLASH && !encodeSlash {
        b := b + [c];
      } else {
        b := b + [PERCENT];
        b := b + [HexDigit(c / 16), HexDigit(c % 16)];
        assert Encode(value[..i], encodeSlash) + [PERCENT] + [HexDigit(c / 16), HexDigit(c % 16)]
            == Encode(value[..i], encodeSlash) + [PERCENT, HexDigit(c / 16), HexDigit(c % 16)];
      }
    }
    assert value[..|value|] == value;
  }

  /** The value of an upper-case hexadecimal digit. */
  function HexValue(d: byte): Option<int> {
    if '0' as int <= d <= '9' as int then Some(d - '0' as int)
    else if 'A' as int <= d <= 'F' as int then Some(d - 'A' as int + 10)
    else None
  }

  /** Percent-decoding, from the left. */
  function Decode(text: Bytes): Option<Bytes> {
    if text == [] then Some([])
    else if text[0] != PERCENT then
      match Decode(text[1..])
      case None => None
      case Some(rest) => Some([text[0]] + rest)
    else if |text| < 3 || HexValue(text[1]).None? || HexValue(text[2]).None? then None
    else
      match Decode(text[3..])
      case None => None
      case Some(rest) => Some([16 * HexValue(text[1]).value + HexValue(text[2]).value] + rest)
  }

  lemma HexRoundTrip(c: byte)
    ensures HexValue(HexDigit(c / 16)) == Some(c / 16) && HexValue(HexDigit(c % 16)) == Some(c % 16)
  {
  }

  lemma DecodeOne(c: byte, encodeSlash: bool, rest: Bytes)
    requires Decode(rest).Some?
    ensures Decode(EncodeByte(c, encodeSlash) + rest) == Some([c] + Decode(rest).value)
  {
    var text := EncodeByte(c, encodeSlash) + rest;
    if Unreserved(c) || (c == SLASH && !encodeSlash) {
      assert text[1..] == rest;
    } else {
      HexRoundTrip(c);
      assert text[3..] == rest && 16 * (c / 16) + c % 16 == c;
    }
  }

  lemma {:induction false} DecodeEncoded(value: Bytes, encodeSlash: bool, rest: Bytes)
    requires Decode(rest).Some?
    ensures Decode(Encode(value, encodeSlash) + rest) == Some(value + Decode(rest).value)
    decreases |value|
  {
    if value == [] {
      assert [] + rest == rest && [] + Decode(rest).value == Decode(rest).value;
    } else {
      var n := |value| - 1;
      var init, code := Encode(value[..n], encodeSlash), EncodeByte(value[n], encodeSlash);
      DecodeOne(value[n], encodeSlash, rest);
      DecodeEncoded(value[..n], encodeSlash, code + rest);
      ConcatAssociative(init, code, rest);
      ConcatAssociative(value[..n], [value[n]], Decode(rest).value);
      assert value[..n] + [value[n]] == value;
    }
  }

  /** Every byte string is recovered from its encoding, so the encoding is injective. */
  lemma EncodeRoundTrip(value: Bytes, encodeSlash: bool)
    ensures Decode(Encode(value, encodeSlash)) == Some(value)
  {
    DecodeEncoded(value, encodeSlash, []);
    assert Encode(value, encodeSlash) + [] == Encode(value, encodeSlash) && value + [] == value;
  }

  /** With slashes encoded, only unreserved characters, '%' and hexadecimal digits remain. */
  lemma {:induction false} EncodedAlphabet(value: Bytes)
    ensures EQUALS !in Encode(value, true) && AMPERSAND !in Encode(value, true)
  {
    if value == [] {
    } else {
      EncodedAlphabet(value[..|value| - 1]);
    }
  }

  // ------------------------------------------------------------------ pairs in order

  datatype Pair = Pair(key: Bytes, value: Bytes)

  predicate PairLeq(p: Pair, q: Pair) {
    if p.key == q.key then Leq(p.value, q.value) else Leq(p.key, q.key)
  }

  ghost predicate SortedPairs(ps: seq<Pair>) {
    forall i, j :: 0 <= i < j < |ps| ==> PairLeq(ps[i], ps[j])
  }

  lemma PairLeqAntisymmetric(p: Pair, q: Pair)
    requires PairLeq(p, q) && PairLeq(q, p)
    ensures p == q
  {
    LeqTotal(p.key, q.key);
    LeqTotal(p.value, q.value);
  }

  lemma TailMultiset(ps: seq<Pair>)
    requires ps != []
    ensures multiset(ps) == multiset{ps[0]} + multiset(ps[1..])
  {
    assert ps == [ps[0]] + ps[1..];
  }

  /** The first element of a sorted sequence comes before every element of it. */
  lemma HeadLeast(ps: seq<Pair>, p: Pair)
    requires SortedPairs(ps) && p in multiset(ps)
    ensures ps != [] && (p == ps[0] || PairLeq(ps[0], p))
  {
  }

  lemma HeadsEqual(ps: seq<Pair>, qs: seq<Pair>)
    requires SortedPairs(ps) && SortedPairs(qs) && multiset(ps) == multiset(qs) && ps != []
    ensures qs != [] && ps[0] == qs[0]
  {
    TailMultiset(ps);
    HeadLeast(qs, ps[0]);
    TailMultiset(qs);
    HeadLeast(ps, qs[0]);
    if ps[0] != qs[0] {
      PairLeqAntisymmetric(ps[0], qs[0]);
    }
  }

  lemma TailsSame(ps: seq<Pair>, qs: seq<Pair>)
    requires ps != [] && qs != [] && ps[0] == qs[0] && multiset(ps) == multiset(qs)
    ensures multiset(ps[1..]) == multiset(qs[1..])
  {
    TailMultiset(ps);
    TailMultiset(qs);
    assert multiset(ps[1..]) == multiset(ps) - multiset{ps[0]};
    assert multiset(qs[1..]) == multiset(qs) - multiset{qs[0]};
  }

  /** Sorting leaves one possible sequence. */
  lemma {:induction false} SortedUnique(ps: seq<Pair>, qs: seq<Pair>)
    requires SortedPairs(ps) && SortedPairs(qs) && multiset(ps) == multiset(qs)
    ensures ps == qs
  {
    if ps == [] {
      assert |multiset(qs)| == |qs|;
    } else {
      HeadsEqual(ps, qs);
      TailsSame(ps, qs);
      SortedUnique(ps[1..], qs[1..]);
      assert ps == [ps[0]] + ps[1..] && qs == [qs[0]] + qs[1..];
    }
  }

  // ------------------------------------------------------------------ rendering

  function PairText(p: Pair): Bytes {
    Encode(p.key, true) + [EQUALS] + Encode(p.value, true)
  }

  function Join(parts: seq<Bytes>): Bytes {
    if parts == [] then [] else if |parts| == 1 then parts[0] else parts[0] + [AMPERSAND] + Join(parts[1..])
  }

  function Texts(ps: seq<Pair>): (texts: seq<Bytes>)
    ensures |texts| == |ps| && forall i :: 0 <= i < |ps| ==> texts[i] == PairText(ps[i])
  {
    seq(|ps|, i requires 0 <= i < |ps| => PairText(ps[i]))
  }

  /** Two splittings at the first separator agree. */
  lemma SplitUnique(a: Bytes, x: Bytes, b: Bytes, y: Bytes, sep: byte)
    requires sep !in a && sep !in b && a + [sep] + x == b + [sep] + y
    ensures a == b && x == y
  {
    var s := a + [sep] + x;
    assert s[|a|] == sep && s[|b|] == sep;
    assert forall i :: 0 <= i < |a| ==> s[i] == a[i] != sep;
    assert forall i :: 0 <= i < |b| ==> s[i] == b[i] != sep;
    assert |a| == |b|;
    assert a == s[..|a|] && b == s[..|b|] && x == s[|a| + 1..] && y == s[|b| + 1..];
  }

  lemma PairTextInjective(p: Pair, q: Pair)
    requires PairText(p) == PairText(q)
    ensures p == q
  {
    EncodedAlphabet(p.key);
    EncodedAlphabet(q.key);
    SplitUnique(Encode(p.key, true), Encode(p.value, true), Encode(q.key, true), Encode(q.value, true), EQUALS);
    EncodeRoundTrip(p.key, true);
    EncodeRoundTrip(q.key, true);
    EncodeRoundTrip(p.value, true);
    EncodeRoundTrip(q.value, true);
  }

  lemma PairTextAlphabet(p: Pair)
    ensures AMPERSAND !in PairText(p) && PairText(p) != []
  {
    EncodedAlphabet(p.key);
    EncodedAlphabet(p.value);
  }

  ghost predicate Plain(parts: seq<Bytes>) {
    forall i :: 0 <= i < |parts| ==> AMPERSAND !in parts[i] && parts[i] != []
  }

  lemma JoinShape(xs: seq<Bytes>)
    requires Plain(xs)
    ensures AMPERSAND in Join(xs) <==> |xs| > 1
    ensures Join(xs) == [] <==> xs == []
  {
  }

  lemma {:induction false} JoinInjective(xs: seq<Bytes>, ys: seq<Bytes>)
    requires Plain(xs) && Plain(ys) && Join(xs) == Join(ys)
    ensures xs == ys
  {
    JoinShape(xs);
    JoinShape(ys);
    if |xs| <= 1 {
    } else {
      SplitUnique(xs[0], Join(xs[1..]), ys[0], Join(ys[1..]), AMPERSAND);
      JoinInjective(xs[1..], ys[1..]);
      assert xs == [xs[0]] + xs[1..] && ys == [ys[0]] + ys[1..];
    }
  }

  lemma RenderInjective(ps: seq<Pair>, qs: seq<Pair>)
    requires Join(Texts(ps)) == Join(Texts(qs))
    ensures ps == qs
  {
    forall i | 0 <= i < |ps| ensures AMPERSAND !in Texts(ps)[i] && Texts(ps)[i] != [] {
      PairTextAlphabet(ps[i]);
    }
    forall i | 0 <= i < |qs| ensures AMPERSAND !in Texts(qs)[i] && Texts(qs)[i] != [] {
      PairTextAlphabet(qs[i]);
    }
    JoinInjective(Texts(ps), Texts(qs));
    assert |ps| == |qs|;
    forall i | 0 <= i < |ps| ensures ps[i] == qs[i] {
      assert Texts(ps)[i] == Texts(qs)[i];
      PairTextInjective(ps[i], qs[i]);
    }
  }

  // ------------------------------------------------------------------ the canonical query

  /** A parsed query: each key with its values in order of appearance. */
  type Query = map<Bytes, seq<Bytes>>

  /** How often a query holds a key/value pair. */
  function Count(query: Query, p: Pair): nat {
    if p.key in query then multiset(query[p.key])[p.value] else 0
  }

  ghost predicate SameQuery(q: Query, r: Query) {
    forall p: Pair :: Count(q, p) == Count(r, p)
  }

  /** `ps` lists exactly the pairs of the query, sorted. */
  ghost predicate Lists(query: Query, ps: seq<Pair>) {
    SortedPairs(ps) && forall p: Pair :: multiset(ps)[p] == Count(query, p)
  }

  /** `text` renders the pairs of the query in sorted order. */
  ghost predicate Canonical(query: Query, text: Bytes) {
    exists ps :: Lists(query, ps) && text == Join(Texts(ps))
  }

  /**
   canonicalQuery.  The keys arrive in any order; the result is the rendering of the query's pairs in
   sorted order.
   */
  method CanonicalQuery(query: Query) returns (text: Bytes)
    ensures Canonical(query, text)
  {
    var keys := CollectKeys(query);
    ghost var unsorted := keys;
    keys := SortStrings(keys);
    SortedDistinct(unsorted, keys, query.Keys);
    var parts := [];
    ghost var ps: seq<Pair> := [];
    assert Gathered(query, keys, 0, ps);
    for i := 0 to |keys|
      invariant parts == Texts(ps) && Gathered(query, keys, i, ps)
    {
      assert keys[i] in keys;
      var values := SortStrings(query[keys[i]]);
      var more: seq<Bytes>;
      ghost var added: seq<Pair>;
      more, added := RenderValues(keys[i], values);
      TextsAppend(ps, added);
      GatherKey(query, keys, i, ps, values, added);
      parts, ps := parts + more, ps + added;
    }
    GatheredAll(query, keys, ps);
    text := Join(parts);
  }

  lemma TextsAppend(ps: seq<Pair>, qs: seq<Pair>)
    ensures Texts(ps + qs) == Texts(ps) + Texts(qs)
  {
  }

  /** Ranging over a Go map: every key once, in any order. */
  method CollectKeys(query: Query) returns (keys: seq<Bytes>)
    ensures forall k :: k in query.Keys <==> k in keys
    ensures forall i, j :: 0 <= i < j < |keys| ==> keys[i] != keys[j]
  {
    keys := [];
    var left := query.Keys;
    while left != {}
      invariant left <= query.Keys
      invariant forall k :: k in query.Keys <==> k in left || k in keys
      invariant forall k :: k in keys ==> k !in left
      invariant forall i, j :: 0 <= i < j < |keys| ==> keys[i] != keys[j]
      decreases left
    {
      var key :| key in left;
      keys, left := keys + [key], left - {key};
    }
  }

  method RenderValues(key: Bytes, values: seq<Bytes>) returns (parts: seq<Bytes>, ghost ps: seq<Pair>)
    ensures |parts| == |values| && forall j :: 0 <= j < |values| ==> parts[j] == PairText(Pair(key, values[j]))
    ensures parts == Texts(ps) && |ps| == |values| && forall j :: 0 <= j < |values| ==> ps[j] == Pair(key, values[j])
  {
    parts, ps := [], [];
    for j := 0 to |values|
      invariant parts == Texts(ps) && |ps| == j && forall k :: 0 <= k < j ==> ps[k] == Pair(key, values[k])
    {
      var k := UriEncode(key, true);
      var v := UriEncode(values[j], true);
      parts := parts + [k + [EQUALS] + v];
      ps := ps + [Pair(key, values[j])];
      assert parts == Texts(ps);
    }
  }

  ghost predicate DistinctKeys(query: Query, keys: seq<Bytes>) {
    && SortedStrings(keys)
    && (forall i, j :: 0 <= i < j < |keys| ==> keys[i] != keys[j])
    && (forall k :: k in keys <==> k in query)
  }

  lemma SortedDistinct(before: seq<Bytes>, keys: seq<Bytes>, all: set<Bytes>)
    requires multiset(keys) == multiset(before)
    requires forall i, j :: 0 <= i < j < |before| ==> before[i] != before[j]
    requires forall k :: k in all <==> k in before
    ensures forall i, j :: 0 <= i < j < |keys| ==> keys[i] != keys[j]
    ensures forall k :: k in keys <==> k in all
  {
    forall k ensures multiset(before)[k] <= 1 {
      DistinctMultiplicity(before, k);
    }
    forall i, j | 0 <= i < j < |keys| ensures keys[i] != keys[j] {
      if keys[i] == keys[j] {
        Repeated(keys, i, j);
      }
    }
    forall k ensures k in keys <==> k in all {
      assert k in keys <==> k in multiset(keys);
      assert k in before <==> k in multiset(before);
    }
  }

  lemma Repeated(xs: seq<Bytes>, i: nat, j: nat)
    requires i < j < |xs| && xs[i] == xs[j]
    ensures multiset(xs)[xs[i]] >= 2
  {
    assert xs == xs[..i] + [xs[i]] + xs[i + 1..j] + [xs[j]] + xs[j + 1..];
  }

  lemma {:induction false} DistinctMultiplicity(xs: seq<Bytes>, x: Bytes)
    requires forall i, j :: 0 <= i < j < |xs| ==> xs[i] != xs[j]
    ensures multiset(xs)[x] <= 1
  {
    if xs == [] {
    } else {
      var n := |xs| - 1;
      DistinctMultiplicity(xs[..n], x);
      assert xs == xs[..n] + [xs[n]];
      if xs[n] == x {
        assert x !in xs[..n];
        assert x !in multiset(xs[..n]);
      }
    }
  }

  /** After the first n keys: their pairs, sorted, and nothing else. */
  ghost predicate Gathered(query: Query, keys: seq<Bytes>, n: nat, ps: seq<Pair>)
    requires n <= |keys|
  {
    && DistinctKeys(query, keys) && SortedPairs(ps)
    && (forall i :: 0 <= i < |ps| ==> ps[i].key in keys[..n])
    && (forall p: Pair :: multiset(ps)[p] == if p.key in keys[..n] then Count(query, p) else 0)
  }

  lemma {:induction false} SameKeyCount(key: Bytes, values: seq<Bytes>, ps: seq<Pair>, p: Pair)
    requires |ps| == |values| && forall j :: 0 <= j < |values| ==> ps[j] == Pair(key, values[j])
    ensures multiset(ps)[p] == if p.key == key then multiset(values)[p.value] else 0
  {
    if ps == [] {
    } else {
      var n := |ps| - 1;
      SameKeyCount(key, values[..n], ps[..n], p);
      assert ps == ps[..n] + [ps[n]] && values == values[..n] + [values[n]];
    }
  }

  lemma GatherKey(query: Query, keys: seq<Bytes>, n: nat, ps: seq<Pair>, values: seq<Bytes>, added: seq<Pair>)
    requires n < |keys| && Gathered(query, keys, n, ps)
    requires SortedStrings(values) && multiset(values) == multiset(query[keys[n]])
    requires |added| == |values| && forall j :: 0 <= j < |values| ==> added[j] == Pair(keys[n], values[j])
    ensures Gathered(query, keys, n + 1, ps + added)
  {
    var all := ps + added;
    assert keys[..n + 1] == keys[..n] + [keys[n]];
    assert keys[n] !in keys[..n];
    forall p: Pair ensures multiset(all)[p] == if p.key in keys[..n + 1] then Count(query, p) else 0 {
      SameKeyCount(keys[n], values, added, p);
    }
    forall i, j | 0 <= i < j < |all| ensures PairLeq(all[i], all[j]) {
      if i < |ps| <= j {
        assert ps[i].key in keys[..n];
      }
    }
  }

  lemma GatheredAll(query: Query, keys: seq<Bytes>, ps: seq<Pair>)
    requires Gathered(query, keys, |keys|, ps)
    ensures Lists(query, ps)
  {
  }

  lemma ListsUnambiguous(q: Query, ps: seq<Pair>, r: Query, qs: seq<Pair>)
    requires Lists(q, ps) && Lists(r, qs)
    ensures Join(Texts(ps)) == Join(Texts(qs)) <==> SameQuery(q, r)
  {
    if SameQuery(q, r) {
      forall p: Pair ensures multiset(ps)[p] == multiset(qs)[p] {
        assert multiset(ps)[p] == Count(q, p) == Count(r, p);
      }
      assert multiset(ps) == multiset(qs);
      SortedUnique(ps, qs);
    }
    if Join(Texts(ps)) == Join(Texts(qs)) {
      RenderInjective(ps, qs);
    }
  }

  /**
   The canonical string does not depend on the order of keys or values, and it is unambiguous: two
   queries have the same canonical string exactly when they hold the same pairs equally often.
   */
  lemma CanonicalUnambiguous(q: Query, text: Bytes, r: Query, other: Bytes)
    requires Canonical(q, text) && Canonical(r, other)
    ensures text == other <==> SameQuery(q, r)
  {
    var ps :| Lists(q, ps) && text == Join(Texts(ps));
    var qs :| Lists(r, qs) && other == Join(Texts(qs));
    ListsUnambiguous(q, ps, r, qs);
  }

  // ------------------------------------------------------------------ the order of the encoded names

  /**
   Encoding keeps the order of two strings: where they first differ, it is not the smaller byte that is unreserved
   and the greater one that becomes a percent sign, which comes before every unreserved character.
   */
  predicate OrderKept(a: Bytes, b: Bytes) {
    if a == [] || b == [] then true
    else if a[0] == b[0] then OrderKept(a[1..], b[1..])
    else if a[0] < b[0] then Unreserved(a[0]) ==> Unreserved(b[0])
    else Unreserved(b[0]) ==> Unreserved(a[0])
  }

  lemma EncodeLast(init: Bytes, c: byte)
    ensures Encode(init + [c], true) == Encode(init, true) + EncodeByte(c, true)
  {
    assert (init + [c])[..|init|] == init;
  }

  lemma LastApart(rest: Bytes)
    requires rest != []
    ensures rest == rest[..|rest| - 1] + [rest[|rest| - 1]]
  {
  }

  lemma {:induction false} EncodeHead(c: byte, rest: Bytes)
    ensures Encode([c] + rest, true) == EncodeByte(c, true) + Encode(rest, true)
  {
    if rest == [] {
      EncodeLast([], c);
      assert [] + [c] == [c] + rest;
    } else {
      var init, last := rest[..|rest| - 1], rest[|rest| - 1];
      EncodeHead(c, init);
      EncodeLast(init, last);
      EncodeLast([c] + init, last);
      LastApart(rest);
      ConcatAssociative([c], init, [last]);
      ConcatAssociative(EncodeByte(c, true), Encode(init, true), EncodeByte(last, true));
    }
  }

  lemma {:induction false} LeqBehind(p: Bytes, a: Bytes, b: Bytes)
    ensures Leq(p + a, p + b) <==> Leq(a, b)
  {
    if p == [] {
      assert p + a == a && p + b == b;
    } else {
      assert (p + a)[1..] == p[1..] + a && (p + b)[1..] == p[1..] + b;
      LeqBehind(p[1..], a, b);
    }
  }

  /** The first character that differs decides. */
  lemma LeqAt(p: Bytes, x: byte, y: byte, a: Bytes, b: Bytes)
    requires x != y
    ensures Leq(p + ([x] + a), p + ([y] + b)) <==> x < y
  {
    LeqBehind(p, [x] + a, [y] + b);
  }

  /** An unreserved byte on either side: the first characters differ. */
  lemma HeadsDiffer(x: byte, y: byte, a: Bytes, b: Bytes)
    requires x != y && (Unreserved(x) || Unreserved(y))
    ensures Leq(EncodeByte(x, true) + a, EncodeByte(y, true) + b) <==>
      if Unreserved(x) == Unreserved(y) then x < y else Unreserved(y)
  {
    var s, t := EncodeByte(x, true), EncodeByte(y, true);
    assert s + a == [s[0]] + (s[1..] + a) && t + b == [t[0]] + (t[1..] + b);
    LeqAt([], s[0], t[0], s[1..] + a, t[1..] + b);
    assert [] + (s + a) == s + a && [] + (t + b) == t + b;
  }

  /** Two reserved bytes: the hexadecimal digits decide. */
  lemma DigitsDiffer(x: byte, y: byte, a: Bytes, b: Bytes)
    requires x != y && !Unreserved(x) && !Unreserved(y)
    ensures Leq(EncodeByte(x, true) + a, EncodeByte(y, true) + b) <==> x < y
  {
    if x / 16 != y / 16 {
      assert EncodeByte(x, true) + a == [PERCENT] + ([HexDigit(x / 16)] + ([HexDigit(x % 16)] + a));
      assert EncodeByte(y, true) + b == [PERCENT] + ([HexDigit(y / 16)] + ([HexDigit(y % 16)] + b));
      LeqAt([PERCENT], HexDigit(x / 16), HexDigit(y / 16), [HexDigit(x % 16)] + a, [HexDigit(y % 16)] + b);
    } else {
      var p := [PERCENT, HexDigit(x / 16)];
      assert EncodeByte(x, true) + a == p + ([HexDigit(x % 16)] + a);
      assert EncodeByte(y, true) + b == p + ([HexDigit(y % 16)] + b);
      LeqAt(p, HexDigit(x % 16), HexDigit(y % 16), a, b);
    }
  }

  /** The codes of two different bytes, whatever follows them. */
  lemma CodesDiffer(x: byte, y: byte, a: Bytes, b: Bytes)
    requires x != y
    ensures Leq(EncodeByte(x, true) + a, EncodeByte(y, true) + b) <==>
      if Unreserved(x) == Unreserved(y) then x < y else Unreserved(y)
  {
    if Unreserved(x) || Unreserved(y) {
      HeadsDiffer(x, y, a, b);
    } else {
      DigitsDiffer(x, y, a, b);
    }
  }

  /** Two strings compare as their encodings do exactly when encoding keeps their order. */
  lemma {:induction false} EncodedOrder(a: Bytes, b: Bytes)
    ensures (Leq(a, b) <==> Leq(Encode(a, true), Encode(b, true))) <==> OrderKept(a, b)
  {
    if a == [] || b == [] {
      EncodeNothing(a);
      EncodeNothing(b);
    } else {
      assert a == [a[0]] + a[1..] && b == [b[0]] + b[1..];
      EncodeHead(a[0], a[1..]);
      EncodeHead(b[0], b[1..]);
      if a[0] == b[0] {
        EncodedOrder(a[1..], b[1..]);
        LeqBehind(EncodeByte(a[0], true), Encode(a[1..], true), Encode(b[1..], true));
      } else {
        CodesDiffer(a[0], b[0], Encode(a[1..], true), Encode(b[1..], true));
      }
    }
  }

  lemma EncodeNothing(a: Bytes)
    ensures Encode(a, true) == [] <==> a == []
  {
  }

  predicate PairKept(p: Pair, q: Pair) {
    if p.key == q.key then OrderKept(p.value, q.value) else OrderKept(p.key, q.key)
  }

  /** The order of the canonical query string step: encoded names, then encoded values. */
  predicate EncodedPairLeq(p: Pair, q: Pair) {
    if p.key == q.key then Leq(Encode(p.value, true), Encode(q.value, true)) else Leq(Encode(p.key, true), Encode(q.key, true))
  }

  lemma EncodedPairOrder(p: Pair, q: Pair)
    ensures (PairLeq(p, q) <==> EncodedPairLeq(p, q)) <==> PairKept(p, q)
  {
    EncodedOrder(p.key, q.key);
    EncodedOrder(p.value, q.value);
  }

  ghost predicate EncodedSorted(ps: seq<Pair>) {
    forall i, j :: 0 <= i < j < |ps| ==> EncodedPairLeq(ps[i], ps[j])
  }

  /** `text` renders the pairs of the query in the order of their encodings. */
  ghost predicate CanonicalByEncoding(query: Query, text: Bytes) {
    exists ps :: EncodedSorted(ps) && (forall p: Pair :: multiset(ps)[p] == Count(query, p)) && text == Join(Texts(ps))
  }

  /** Encoding keeps the order of every two pairs of the query. */
  ghost predicate AllKept(query: Query) {
    forall p, q :: Count(query, p) > 0 && Count(query, q) > 0 && PairLeq(p, q) ==> PairKept(p, q)
  }

  /** Two pairs of a list sorted by encodings, in raw order. */
  lemma SortedPairKept(ps: seq<Pair>, i: nat, j: nat)
    requires SortedPairs(ps) && EncodedSorted(ps) && i < |ps| && j < |ps| && PairLeq(ps[i], ps[j])
    ensures PairKept(ps[i], ps[j])
  {
    EncodedPairOrder(ps[i], ps[j]);
    if i > j {
      PairLeqAntisymmetric(ps[i], ps[j]);
    }
    SelfLeq(ps[i]);
  }

  lemma ListedKept(query: Query, ps: seq<Pair>)
    requires Lists(query, ps)
    ensures EncodedSorted(ps) <==> AllKept(query)
  {
    if EncodedSorted(ps) {
      forall p, q | Count(query, p) > 0 && Count(query, q) > 0 && PairLeq(p, q) ensures PairKept(p, q) {
        assert p in multiset(ps) && q in multiset(ps);
        var i :| 0 <= i < |ps| && ps[i] == p;
        var j :| 0 <= j < |ps| && ps[j] == q;
        SortedPairKept(ps, i, j);
      }
    }
    if AllKept(query) {
      forall i, j | 0 <= i < j < |ps| ensures EncodedPairLeq(ps[i], ps[j]) {
        assert ps[i] in multiset(ps) && ps[j] in multiset(ps);
        EncodedPairOrder(ps[i], ps[j]);
      }
    }
  }

  lemma SelfLeq(p: Pair)
    ensures EncodedPairLeq(p, p)
  {
    LeqTotal(Encode(p.value, true), Encode(p.value, true));
  }

  /**
   canonicalQuery sorts names and values before encoding them.  Its text is the one sorted by encodings exactly when
   encoding keeps the order of every two pairs of the query.
   */
  lemma CanonicalOrder(query: Query, text: Bytes)
    requires Canonical(query, text)
    ensures CanonicalByEncoding(query, text) <==> AllKept(query)
  {
    var ps :| Lists(query, ps) && text == Join(Texts(ps));
    ListedKept(query, ps);
    if CanonicalByEncoding(query, text) {
      var qs :| EncodedSorted(qs) && (forall p: Pair :: multiset(qs)[p] == Count(query, p)) && text == Join(Texts(qs));
      RenderInjective(ps, qs);
    }
  }

  /** The names "A" and "[" change places when they are encoded. */
  lemma BracketChangesOrder()
    ensures Leq([65], [91]) && Encode([65], true) == [65] && Encode([91], true) == [37, 53, 66] && !OrderKept([65], [91])
    ensures !AllKept(map[[65] := [[]], [91] := [[]]])
  {
    assert Encode([65], true) == Encode([], true) + EncodeByte(65, true);
    assert Encode([91], true) == Encode([], true) + EncodeByte(91, true);
    var query: Query, p, q := map[[65] := [[]], [91] := [[]]], Pair([65], []), Pair([91], []);
    assert Count(query, p) == 1 && Count(query, q) == 1 && PairLeq(p, q) && !PairKept(p, q);
  }
}
