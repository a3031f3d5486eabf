/** Small shared types: an optional value and a byte. */
module Basics {

  /** A value that may be missing (Python's `None`). */
  datatype Option<+T> = None | Some(value: T)

  /** One octet of a fetched HTTP response body. */
  newtype byte = x: int | 0 <= x < 256

  type Bytes = seq<byte>

  /** The lists of `xss` one after the other. */
  function Concat<T>(xss: seq<seq<T>>): seq<T>
  {
    if xss == [] then [] else Concat(xss[..|xss| - 1]) + xss[|xss| - 1]
  }

  lemma {:induction false} ConcatAppend<T>(a: seq<seq<T>>, b: seq<seq<T>>)
    ensures Concat(a + b) == Concat(a) + Concat(b)
  {
    if b == [] {
      assert a + b == a;
    } else {
      var n := |b| - 1;
      ConcatAppend(a, b[..n]);
      assert (a + b)[..|a + b| - 1] == a + b[..n];
    }
  }

  /** When every list has at most `bound` elements, the concatenation has at most `bound` per list. */
  lemma {:induction false} ConcatBound<T>(xss: seq<seq<T>>, bound: nat)
    requires forall i :: 0 <= i < |xss| ==> |xss[i]| <= bound
    ensures |Concat(xss)| <= bound * |xss|
  {
    if xss != [] {
      ConcatBound(xss[..|xss| - 1], bound);
    }
  }

  /** An element of the concatenation is an element of one of the lists. */
  lemma {:induction false} ConcatMember<T>(xss: seq<seq<T>>, x: T) returns (i: nat, k: nat)
    requires x in Concat(xss)
    ensures i < |xss| && k < |xss[i]| && xss[i][k] == x
  {
    var n := |xss| - 1;
    var front := Concat(xss[..n]);
    if x in front {
      i, k := ConcatMember(xss[..n], x);
    } else {
      assert x in xss[n];
      i := n;
      k :| 0 <= k < |xss[n]| && xss[n][k] == x;
    }
  }

  /** The concatenation of a longer prefix adds the next list. */
  lemma ConcatStep<T>(xss: seq<seq<T>>, i: nat)
    requires i < |xss|
    ensures Concat(xss[..i + 1]) == Concat(xss[..i]) + xss[i]
  {
    assert xss[..i + 1][..i] == xss[..i];
  }

  /** Leaving out an empty list does not change the concatenation. */
  lemma ConcatSkipEmpty<T>(xss: seq<seq<T>>, i: nat)
    requires i < |xss| && xss[i] == []
    ensures Concat(xss) == Concat(xss[..i] + xss[i + 1..])
  {
    var a, b := xss[..i], xss[i + 1..];
    assert xss == xss[..i + 1] + b;
    ConcatStep(xss, i);
    assert Concat(xss[..i + 1]) == Concat(a);
    ConcatAppend(xss[..i + 1], b);
    ConcatAppend(a, b);
  }
}
