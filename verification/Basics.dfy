/** Shared vocabulary: options, bytes and weighted sums over sequences. */
module Basics {

  datatype Option<+T> = None | Some(value: T)

  type Byte = b: int | 0 <= b < 256

  const TWO_64: int := 0x1_0000_0000_0000_0000

  type U64 = n: int | 0 <= n < TWO_64

  function Max(a: int, b: int): int {
    if a < b then b else a
  }

  function RemoveAt<T>(s: seq<T>, i: nat): seq<T>
    requires i < |s|
  {
    s[..i] + s[i + 1..]
  }

  /** Sum of the weights of the elements of `s`. */
  function Total<T>(s: seq<T>, w: T -> int): int {
    if s == [] then 0 else Total(s[..|s| - 1], w) + w(s[|s| - 1])
  }

  lemma {:induction false} TotalConcat<T>(s: seq<T>, t: seq<T>, w: T -> int)
    ensures Total(s + t, w) == Total(s, w) + Total(t, w)
  {
    if t == [] {
      assert s + t == s;
    } else {
      var m := |t| - 1;
      assert (s + t)[..|s + t| - 1] == s + t[..m];
      TotalConcat(s, t[..m], w);
    }
  }

  lemma TotalOne<T>(x: T, w: T -> int)
    ensures Total([x], w) == w(x)
  {
    assert [x][..0] == [];
  }

  lemma TotalRemove<T>(s: seq<T>, i: nat, w: T -> int)
    requires i < |s|
    ensures Total(RemoveAt(s, i), w) == Total(s, w) - w(s[i])
  {
    SplitAt(s, i);
    TotalAround(s[..i], s[i], s[i + 1..], w);
  }

  lemma SplitAt<T>(s: seq<T>, i: nat)
    requires i < |s|
    ensures s[..i] + [s[i]] + s[i + 1..] == s
  {
  }

  lemma TotalAround<T>(a: seq<T>, x: T, b: seq<T>, w: T -> int)
    ensures Total(a + [x] + b, w) == Total(a + b, w) + w(x)
  {
    TotalConcat(a + [x], b, w);
    TotalConcat(a, [x], w);
    TotalConcat(a, b, w);
    TotalOne(x, w);
  }

  lemma TotalSet<T>(s: seq<T>, i: nat, x: T, w: T -> int)
    requires i < |s|
    ensures Total(s[i := x], w) == Total(s, w) - w(s[i]) + w(x)
  {
    TotalRemove(s, i, w);
    TotalRemove(s[i := x], i, w);
    assert RemoveAt(s[i := x], i) == RemoveAt(s, i);
  }

  lemma TotalAppend<T>(s: seq<T>, x: T, w: T -> int)
    ensures Total(s + [x], w) == Total(s, w) + w(x)
  {
    TotalConcat(s, [x], w);
    TotalOne(x, w);
  }

  lemma TotalPrepend<T>(x: T, s: seq<T>, w: T -> int)
    ensures Total([x] + s, w) == w(x) + Total(s, w)
  {
    TotalConcat([x], s, w);
    TotalOne(x, w);
  }

  lemma {:induction false} TotalNonNegative<T>(s: seq<T>, w: T -> int)
    requires forall x :: x in s ==> w(x) >= 0
    ensures Total(s, w) >= 0
  {
    if s != [] {
      TotalNonNegative(s[..|s| - 1], w);
    }
  }
}
