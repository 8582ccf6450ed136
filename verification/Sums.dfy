/** Weighted sums over sequences and over the values of a map. Counting is summing weights 0 and 1. */
module Sums {

  function SumSeq<T>(s: seq<T>, w: T -> int): int {
    if s == [] then 0 else SumSeq(s[..|s| - 1], w) + w(s[|s| - 1])
  }

  lemma SumOne<T>(x: T, w: T -> int)
    ensures SumSeq([x], w) == w(x)
  {
    assert [x][..0] == [];
  }

  lemma {:induction false} SumConcat<T>(s: seq<T>, t: seq<T>, w: T -> int)
    ensures SumSeq(s + t, w) == SumSeq(s, w) + SumSeq(t, w)
  {
    if t == [] {
      assert s + t == s;
    } else {
      assert (s + t)[..|s + t| - 1] == s + t[..|t| - 1];
      SumConcat(s, t[..|t| - 1], w);
    }
  }

  lemma SumAppend<T>(s: seq<T>, x: T, w: T -> int)
    ensures SumSeq(s + [x], w) == SumSeq(s, w) + w(x)
  {
    SumConcat(s, [x], w);
    SumOne(x, w);
  }

  lemma SumHead<T>(s: seq<T>, w: T -> int)
    requires s != []
    ensures SumSeq(s, w) == w(s[0]) + SumSeq(s[1..], w)
  {
    assert s == [s[0]] + s[1..];
    SumConcat([s[0]], s[1..], w);
    SumOne(s[0], w);
  }

  lemma SumUpdate<T>(s: seq<T>, i: nat, x: T, w: T -> int)
    requires i < |s|
    ensures SumSeq(s[i := x], w) == SumSeq(s, w) - w(s[i]) + w(x)
  {
    assert s == s[..i] + ([s[i]] + s[i + 1..]);
    assert s[i := x] == s[..i] + ([x] + s[i + 1..]);
    SumConcat(s[..i], [s[i]] + s[i + 1..], w);
    SumConcat(s[..i], [x] + s[i + 1..], w);
    SumConcat([s[i]], s[i + 1..], w);
    SumConcat([x], s[i + 1..], w);
    SumOne(s[i], w);
    SumOne(x, w);
  }

  lemma {:induction false} SumEqual<T>(s: seq<T>, v: T -> int, w: T -> int)
    requires forall x | x in s :: v(x) == w(x)
    ensures SumSeq(s, v) == SumSeq(s, w)
  {
    if s != [] {
      assert s == s[..|s| - 1] + [s[|s| - 1]];
      SumEqual(s[..|s| - 1], v, w);
    }
  }

  lemma {:induction false} SumScaled<T>(s: seq<T>, v: T -> int, w: T -> int, c: int)
    requires forall x | x in s :: v(x) == c * w(x)
    ensures SumSeq(s, v) == c * SumSeq(s, w)
  {
    if s != [] {
      assert s == s[..|s| - 1] + [s[|s| - 1]];
      SumScaled(s[..|s| - 1], v, w, c);
    }
  }

  lemma {:induction false} SumNonNegative<T>(s: seq<T>, w: T -> int)
    requires forall x | x in s :: 0 <= w(x)
    ensures 0 <= SumSeq(s, w)
  {
    if s != [] {
      assert s == s[..|s| - 1] + [s[|s| - 1]];
      SumNonNegative(s[..|s| - 1], w);
    }
  }

  lemma SumAtLeast<T>(s: seq<T>, i: nat, w: T -> int)
    requires i < |s|
    requires forall x | x in s :: 0 <= w(x)
    ensures w(s[i]) <= SumSeq(s, w)
  {
    assert s == s[..i] + ([s[i]] + s[i + 1..]);
    SumConcat(s[..i], [s[i]] + s[i + 1..], w);
    SumConcat([s[i]], s[i + 1..], w);
    SumOne(s[i], w);
    SumNonNegative(s[..i], w);
    SumNonNegative(s[i + 1..], w);
  }

  lemma {:induction false} SumPositive<T>(s: seq<T>, w: T -> int) returns (i: nat)
    requires 0 < SumSeq(s, w)
    ensures i < |s| && 0 < w(s[i])
  {
    i := |s| - 1;
    if w(s[i]) <= 0 {
      i := SumPositive(s[..i], w);
    }
  }

  ghost function SumMap<K(!new), T>(m: map<K, T>, w: T -> int): int
    decreases |m|
  {
    if m == map[] then 0 else
      var k :| k in m;
      w(m[k]) + SumMap(m - {k}, w)
  }

  lemma {:induction false} SumMapRemove<K(!new), T>(m: map<K, T>, k: K, w: T -> int)
    requires k in m
    ensures SumMap(m, w) == w(m[k]) + SumMap(m - {k}, w)
    decreases |m|
  {
    var j :| j in m && SumMap(m, w) == w(m[j]) + SumMap(m - {j}, w);
    if j != k {
      SumMapRemove(m - {j}, k, w);
      SumMapRemove(m - {k}, j, w);
      assert m - {j} - {k} == m - {k} - {j};
    }
  }

  lemma SumMapAdd<K(!new), T>(m: map<K, T>, k: K, x: T, w: T -> int)
    requires k !in m
    ensures SumMap(m[k := x], w) == SumMap(m, w) + w(x)
  {
    SumMapRemove(m[k := x], k, w);
    assert m[k := x] - {k} == m;
  }

  lemma {:induction false} SumMapNonNegative<K(!new), T>(m: map<K, T>, w: T -> int)
    requires forall k | k in m :: 0 <= w(m[k])
    ensures 0 <= SumMap(m, w)
    decreases |m|
  {
    if m != map[] {
      var k :| k in m;
      SumMapRemove(m, k, w);
      SumMapNonNegative(m - {k}, w);
    }
  }
}
