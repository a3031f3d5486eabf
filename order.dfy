/**
 * Python's stable sort with `reverse=True`, as `list.sort(key=…, reverse=True)`
 * and `sorted(…, key=…, reverse=True)` perform it: the result is ordered by
 * non-increasing key, is a permutation of the input, and elements with equal
 * keys keep their original relative order.
 */
module Order {

  predicate NonIncreasing<T>(s: seq<T>, key: T -> int)
  {
    forall i, j :: 0 <= i < j < |s| ==> key(s[j]) <= key(s[i])
  }

  /** The elements of `s` whose key is `k`, in their order in `s`. */
  function WithKey<T>(s: seq<T>, key: T -> int, k: int): seq<T>
  {
    if s == [] then []
    else (if key(s[0]) == k then [s[0]] else []) + WithKey(s[1..], key, k)
  }

  /** Put `x` in front of the first element whose key is not larger than its own. */
  function Insert<T>(x: T, s: seq<T>, key: T -> int): (r: seq<T>)
    requires NonIncreasing(s, key)
    ensures NonIncreasing(r, key)
    ensures |r| == |s| + 1 && (r[0] == x || (s != [] && r[0] == s[0]))
  {
    if s == [] || key(s[0]) <= key(x) then [x] + s
    else [s[0]] + Insert(x, s[1..], key)
  }

  /** Inserting adds exactly the one element. */
  lemma {:induction false} InsertPermutes<T>(x: T, s: seq<T>, key: T -> int)
    requires NonIncreasing(s, key)
    ensures multiset(Insert(x, s, key)) == multiset(s) + multiset{x}
  {
    if s != [] && key(x) < key(s[0]) {
      InsertPermutes(x, s[1..], key);
      assert s == [s[0]] + s[1..];
    }
  }

  /** The descending stable sort: each element goes in front of the later ones with equal key. */
  function SortDesc<T>(s: seq<T>, key: T -> int): (r: seq<T>)
    ensures NonIncreasing(r, key)
    ensures multiset(r) == multiset(s)
  {
    if s == [] then []
    else
      var t := SortDesc(s[1..], key);
      InsertPermutes(s[0], t, key);
      assert s == [s[0]] + s[1..];
      Insert(s[0], t, key)
  }

  lemma WithKeyCons<T>(y: T, t: seq<T>, key: T -> int, k: int)
    ensures WithKey([y] + t, key, k) == (if key(y) == k then [y] else []) + WithKey(t, key, k)
  {
    assert ([y] + t)[1..] == t;
  }

  lemma {:induction false} InsertWithKey<T>(x: T, s: seq<T>, key: T -> int, k: int)
    requires NonIncreasing(s, key)
    ensures WithKey(Insert(x, s, key), key, k)
         == (if key(x) == k then [x] else []) + WithKey(s, key, k)
  {
    if s == [] || key(s[0]) <= key(x) {
      WithKeyCons(x, s, key, k);
    } else {
      var t := Insert(x, s[1..], key);
      var hx := if key(x) == k then [x] else [];
      var hs := if key(s[0]) == k then [s[0]] else [];
      var rest := WithKey(s[1..], key, k);
      assert Insert(x, s, key) == [s[0]] + t;
      assert WithKey([s[0]] + t, key, k) == hs + WithKey(t, key, k) by {
        WithKeyCons(s[0], t, key, k);
      }
      assert WithKey(t, key, k) == hx + rest by {
        InsertWithKey(x, s[1..], key, k);
      }
      assert WithKey(s, key, k) == hs + rest by {
        WithKeyCons(s[0], s[1..], key, k);
        assert [s[0]] + s[1..] == s;
      }
      assert hs + hx == hx + hs;
    }
  }

  /** Stability: for every key value, the elements carrying it appear in the same order as before. */
  lemma {:induction false} SortDescStable<T>(s: seq<T>, key: T -> int, k: int)
    ensures WithKey(SortDesc(s, key), key, k) == WithKey(s, key, k)
  {
    if s != [] {
      SortDescStable(s[1..], key, k);
      InsertWithKey(s[0], SortDesc(s[1..], key), key, k);
    }
  }
}
