/** Bytes, big-endian integers and the small result types shared by the modules. */
module Bytes {

  type byte = b: int | 0 <= b < 256

  type Bytes = seq<byte>

  datatype Option<+T> = None | Some(value: T)

  function Min(a: nat, b: nat): nat {
    if a < b then a else b
  }

  function Pow256(width: nat): (p: nat)
    ensures p > 0
  {
    if width == 0 then 1 else 256 * Pow256(width - 1)
  }

  /** The low `width` bytes of `n`, most significant first. */
  function ToBE(n: nat, width: nat): (bytes: Bytes)
    ensures |bytes| == width
  {
    if width == 0 then [] else ToBE(n / 256, width - 1) + [n % 256]
  }

  function FromBE(bytes: Bytes): nat {
    if bytes == [] then 0 else FromBE(bytes[..|bytes| - 1]) * 256 + bytes[|bytes| - 1]
  }

  lemma {:induction false} FromBEOfToBE(n: nat, width: nat)
    requires n < Pow256(width)
    ensures FromBE(ToBE(n, width)) == n
  {
    if width == 0 {
    } else {
      FromBEOfToBE(n / 256, width - 1);
      assert ToBE(n, width)[..width - 1] == ToBE(n / 256, width - 1);
    }
  }

  lemma {:induction false} ToBEOfFromBE(bytes: Bytes)
    ensures FromBE(bytes) < Pow256(|bytes|)
    ensures ToBE(FromBE(bytes), |bytes|) == bytes
  {
    if bytes == [] {
    } else {
      ToBEOfFromBE(bytes[..|bytes| - 1]);
    }
  }

  lemma ConcatAssociative(a: Bytes, b: Bytes, c: Bytes)
    ensures a + b + c == a + (b + c)
  {
  }

  /** The concatenation of the parts. */
  function Flatten(chunks: seq<Bytes>): Bytes {
    if chunks == [] then [] else chunks[0] + Flatten(chunks[1..])
  }

  lemma {:induction false} FlattenAppend(chunks: seq<Bytes>, chunk: Bytes)
    ensures Flatten(chunks + [chunk]) == Flatten(chunks) + chunk
  {
    if chunks == [] {
      assert Flatten([chunk]) == chunk + Flatten([]);
    } else {
      FlattenAppend(chunks[1..], chunk);
      assert (chunks + [chunk])[1..] == chunks[1..] + [chunk];
      ConcatAssociative(chunks[0], Flatten(chunks[1..]), chunk);
    }
  }

  /** The order of strings in Go and of ASCII strings in Python: byte by byte, a prefix first. */
  predicate Leq(a: Bytes, b: Bytes) {
    a == [] || (b != [] && (a[0] < b[0] || (a[0] == b[0] && Leq(a[1..], b[1..]))))
  }

  lemma {:induction false} LeqTotal(a: Bytes, b: Bytes)
    ensures Leq(a, b) || Leq(b, a)
    ensures Leq(a, b) && Leq(b, a) ==> a == b
  {
    if a == [] || b == [] {
    } else {
      LeqTotal(a[1..], b[1..]);
      assert a == [a[0]] + a[1..] && b == [b[0]] + b[1..];
    }
  }

  lemma {:induction false} LeqTransitive(a: Bytes, b: Bytes, c: Bytes)
    requires Leq(a, b) && Leq(b, c)
    ensures Leq(a, c)
  {
    if a != [] && a[0] == b[0] == c[0] {
      LeqTransitive(a[1..], b[1..], c[1..]);
    }
  }

  ghost predicate SortedStrings(xs: seq<Bytes>) {
    forall i, j :: 0 <= i < j < |xs| ==> Leq(xs[i], xs[j])
  }

  /** sort.Strings, and sorted() of a list of ASCII strings. */
  method SortStrings(xs: seq<Bytes>) returns (ys: seq<Bytes>)
    ensures SortedStrings(ys) && multiset(ys) == multiset(xs)
  {
    ys := [];
    for i := 0 to |xs|
      invariant SortedStrings(ys) && multiset(ys) == multiset(xs[..i])
    {
      assert xs[..i + 1] == xs[..i] + [xs[i]];
      ys := Insert(ys, xs[i]);
    }
    assert xs[..|xs|] == xs;
  }

  ghost predicate NoneBelow(x: Bytes, ys: seq<Bytes>, k: nat) {
    forall j :: k <= j < |ys| ==> Leq(x, ys[j])
  }

  /** A string between those it follows and those it precedes. */
  lemma SortedBetween(ys: seq<Bytes>, k: nat, x: Bytes)
    requires SortedStrings(ys) && k <= |ys| && NoneBelow(x, ys, k)
    requires k > 0 ==> Leq(ys[k - 1], x)
    ensures SortedStrings(ys[..k] + [x] + ys[k..])
  {
    forall j | 0 <= j < k ensures Leq(ys[j], x) {
      if j < k - 1 {
        LeqTransitive(ys[j], ys[k - 1], x);
      }
    }
    var zs := ys[..k] + [x] + ys[k..];
    forall i, j | 0 <= i < j < |zs| ensures Leq(zs[i], zs[j]) {
      assert zs[i] == (if i < k then ys[i] else if i == k then x else ys[i - 1]);
      assert zs[j] == (if j < k then ys[j] else if j == k then x else ys[j - 1]);
    }
  }

  lemma InsertedOnce(ys: seq<Bytes>, k: nat, x: Bytes)
    requires k <= |ys|
    ensures multiset(ys[..k] + [x] + ys[k..]) == multiset(ys) + multiset{x}
  {
    assert ys == ys[..k] + ys[k..];
  }

  method Insert(ys: seq<Bytes>, x: Bytes) returns (zs: seq<Bytes>)
    requires SortedStrings(ys)
    ensures SortedStrings(zs) && multiset(zs) == multiset(ys) + multiset{x}
  {
    var k := |ys|;
    while k > 0 && !Leq(ys[k - 1], x)
      invariant 0 <= k <= |ys| && NoneBelow(x, ys, k)
    {
      k := k - 1;
      LeqTotal(ys[k], x);
    }
    SortedBetween(ys, k, x);
    InsertedOnce(ys, k, x);
    zs := ys[..k] + [x] + ys[k..];
  }
}
