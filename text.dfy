/**
 * The string operations the dashboard relies on, with the meaning Python's
 * `str` methods give them: `strip()`, `lower()`, the substring test `in`,
 * and the code-point ordering `sorted()` uses on strings.
 */
module Text {

  /** Python's `str.isspace()` for one code point: the characters `strip()` removes. */
  predicate IsSpace(c: char)
  {
    var n := c as int;
    (0x09 <= n <= 0x0D) || (0x1C <= n <= 0x20) || n == 0x85 || n == 0xA0 || n == 0x1680
    || (0x2000 <= n <= 0x200A) || n == 0x2028 || n == 0x2029 || n == 0x202F
    || n == 0x205F || n == 0x3000
  }

  predicate AllSpace(s: string)
  {
    forall k :: 0 <= k < |s| ==> IsSpace(s[k])
  }

  /** Neither the first nor the last character is whitespace. */
  predicate Trimmed(s: string)
  {
    s == [] || (!IsSpace(s[0]) && !IsSpace(s[|s| - 1]))
  }

  /** `s.lstrip()`: drop every leading whitespace character. */
  function TrimStart(s: string): string
  {
    if s != [] && IsSpace(s[0]) then TrimStart(s[1..]) else s
  }

  /** `s.rstrip()`: drop every trailing whitespace character. */
  function TrimEnd(s: string): string
  {
    if s != [] && IsSpace(s[|s| - 1]) then TrimEnd(s[..|s| - 1]) else s
  }

  /** What is dropped from the front is whitespace, and what is left does not start with whitespace. */
  lemma {:induction false} TrimStartSpec(s: string)
    ensures var r := TrimStart(s);
      |r| <= |s| && r == s[|s| - |r|..] && (r == [] || !IsSpace(r[0])) && AllSpace(s[..|s| - |r|])
  {
    if s != [] && IsSpace(s[0]) {
      var q := s[1..];
      TrimStartSpec(q);
      var r := TrimStart(q);
      assert s[..|s| - |r|] == [s[0]] + q[..|q| - |r|];
    }
  }

  /** What is dropped from the back is whitespace, and what is left does not end with whitespace. */
  lemma {:induction false} TrimEndSpec(s: string)
    ensures var r := TrimEnd(s);
      |r| <= |s| && r == s[..|r|] && (r == [] || !IsSpace(r[|r| - 1])) && AllSpace(s[|r|..])
  {
    if s != [] && IsSpace(s[|s| - 1]) {
      var p := s[..|s| - 1];
      TrimEndSpec(p);
      var r := TrimEnd(p);
      assert s[|r|..] == p[|r|..] + [s[|s| - 1]];
      assert forall k :: 0 <= k < |s| - |r| ==> IsSpace(s[|r|..][k]) by {
        forall k | 0 <= k < |s| - |r|
          ensures IsSpace(s[|r|..][k])
        {
          if k < |p| - |r| {
            assert s[|r|..][k] == p[|r|..][k];
          }
        }
      }
    }
  }

  /** `s.strip()`: drop leading and trailing whitespace. */
  function Strip(s: string): (r: string)
    ensures |r| <= |s|
  {
    TrimStartSpec(s);
    TrimEndSpec(TrimStart(s));
    TrimEnd(TrimStart(s))
  }

  /**
   * What `strip()` promises: `s` is whitespace, then the result, then
   * whitespace, and the result neither starts nor ends with whitespace.
   */
  lemma StripSpec(s: string)
    ensures Trimmed(Strip(s))
    ensures exists i :: 0 <= i <= |s| - |Strip(s)| && AllSpace(s[..i]) && Strip(s) <= s[i..]
                        && AllSpace(s[i + |Strip(s)|..])
  {
    var t := TrimStart(s);
    var r := TrimEnd(t);
    TrimStartSpec(s);
    TrimEndSpec(t);
    var i := |s| - |t|;
    assert s[i..][..|r|] == r;
    assert s[i + |r|..] == t[|r|..];
    if r != [] {
      assert r[0] == t[0];
    }
  }

  /** Stripping a string that has no surrounding whitespace leaves it as it is. */
  lemma StripTrimmed(s: string)
    requires Trimmed(s)
    ensures Strip(s) == s
  {
    assert TrimStart(s) == s;
  }

  /** `strip()` is idempotent. */
  lemma StripIdempotent(s: string)
    ensures Strip(Strip(s)) == Strip(s)
  {
    StripSpec(s);
    StripTrimmed(Strip(s));
  }

  /**
   * `str.lower()` on one code point, for ASCII, Latin-1 and Latin Extended-A
   * (which hold every letter of the Slovak alphabet); other code points are
   * left unchanged.
   */
  function LowerChar(c: char): (d: char)
    ensures 'A' <= c <= 'Z' ==> d as int == c as int + 32
    ensures IsSpace(d) <==> IsSpace(c)
    ensures LowerCharRaw(d) == d
  {
    LowerCharRaw(c)
  }

  function LowerCharRaw(c: char): char
  {
    var n := c as int;
    if 0x41 <= n <= 0x5A || (0xC0 <= n <= 0xDE && n != 0xD7) then (n + 32) as char
    else if (0x100 <= n <= 0x12F || 0x132 <= n <= 0x137 || 0x14A <= n <= 0x177) && n % 2 == 0 then (n + 1) as char
    else if (0x139 <= n <= 0x148 || 0x179 <= n <= 0x17E) && n % 2 == 1 then (n + 1) as char
    else if n == 0x178 then 0xFF as char
    else c
  }

  /** `s.lower()`: the same length, each code point lowered on its own. */
  function Lower(s: string): (r: string)
    ensures |r| == |s|
    ensures forall k :: 0 <= k < |s| ==> r[k] == LowerChar(s[k])
  {
    if s == [] then [] else [LowerChar(s[0])] + Lower(s[1..])
  }

  /** Lowering twice is lowering once, so an already lowered keyword is unaffected. */
  lemma LowerIdempotent(s: string)
    ensures Lower(Lower(s)) == Lower(s)
  {
  }

  /** Python's `needle in hay` on strings: some position of `hay` starts with `needle`. */
  predicate Occurs(needle: string, hay: string)
  {
    exists i :: 0 <= i <= |hay| && needle <= hay[i..]
  }

  /** An occurrence is either at the front or in the tail. */
  lemma {:induction false} OccursStep(needle: string, hay: string)
    requires hay != []
    ensures Occurs(needle, hay) <==> (needle <= hay || Occurs(needle, hay[1..]))
  {
    if Occurs(needle, hay) && !(needle <= hay) {
      var i :| 0 <= i <= |hay| && needle <= hay[i..];
      assert i != 0;
      assert hay[1..][i - 1..] == hay[i..];
    }
    if Occurs(needle, hay[1..]) {
      var i :| 0 <= i <= |hay[1..]| && needle <= hay[1..][i..];
      assert hay[1..][i..] == hay[i + 1..];
    }
    if needle <= hay {
      assert hay[0..] == hay;
    }
  }

  /** A left-to-right search deciding `needle in hay`. */
  function Find(needle: string, hay: string): (r: bool)
    ensures r <==> Occurs(needle, hay)
    decreases |hay|
  {
    if hay == [] then
      assert Occurs(needle, hay) <==> needle <= hay by {
        assert hay[0..] == hay;
      }
      needle <= hay
    else
      OccursStep(needle, hay);
      needle <= hay || Find(needle, hay[1..])
  }

  /** Python's `a < b` on strings: lexicographic by code point, a proper prefix first. */
  predicate Below(a: string, b: string)
    decreases |a|
  {
    if b == [] then false
    else if a == [] then true
    else a[0] < b[0] || (a[0] == b[0] && Below(a[1..], b[1..]))
  }

  lemma {:induction false} BelowIrreflexive(a: string)
    ensures !Below(a, a)
    decreases |a|
  {
    if a != [] {
      BelowIrreflexive(a[1..]);
    }
  }

  lemma {:induction false} BelowTransitive(a: string, b: string, c: string)
    requires Below(a, b) && Below(b, c)
    ensures Below(a, c)
    decreases |a|
  {
    if a != [] && a[0] == b[0] && b[0] == c[0] {
      BelowTransitive(a[1..], b[1..], c[1..]);
    }
  }

  /** Two different strings are ordered one way or the other. */
  lemma {:induction false} BelowTotal(a: string, b: string)
    requires a != b
    ensures Below(a, b) || Below(b, a)
    decreases |a|
  {
    if a != [] && b != [] && a[0] == b[0] {
      BelowTotal(a[1..], b[1..]);
    }
  }

  lemma {:induction false} BelowAsymmetric(a: string, b: string)
    requires Below(a, b)
    ensures !Below(b, a)
    decreases |a|
  {
    if a != [] && a[0] == b[0] {
      BelowAsymmetric(a[1..], b[1..]);
    }
  }

  predicate StrictlyIncreasing(r: seq<string>)
  {
    forall i, j :: 0 <= i < j < |r| ==> Below(r[i], r[j])
  }

  /** Everything above the head of an increasing list is above its head's predecessors too. */
  lemma BelowAll(x: string, r: seq<string>)
    requires StrictlyIncreasing(r) && r != [] && Below(x, r[0])
    ensures forall j :: 0 <= j < |r| ==> Below(x, r[j])
  {
    forall j | 0 < j < |r| {
      BelowTransitive(x, r[0], r[j]);
    }
  }

  /** Add `x` to an increasing list without duplicates, keeping it increasing. */
  function InsertDistinct(x: string, r: seq<string>): (r': seq<string>)
    requires StrictlyIncreasing(r)
    ensures StrictlyIncreasing(r')
    ensures forall y :: y in r' <==> y == x || y in r
  {
    if r == [] then [x]
    else if x == r[0] then r
    else if Below(x, r[0]) then
      BelowAll(x, r);
      [x] + r
    else
      BelowTotal(x, r[0]);
      var t := InsertDistinct(x, r[1..]);
      assert forall y :: y in t ==> Below(r[0], y);
      [r[0]] + t
  }

  /** `sorted(set(values))`: the distinct values in increasing order. */
  function SortedDistinct(values: seq<string>): (r: seq<string>)
    ensures StrictlyIncreasing(r)
    ensures forall y :: y in r <==> y in values
  {
    if values == [] then []
    else InsertDistinct(values[|values| - 1], SortedDistinct(values[..|values| - 1]))
  }

  /** A strictly increasing list never repeats a value. */
  lemma {:induction false} IncreasingIsDistinct(r: seq<string>, i: int, j: int)
    requires StrictlyIncreasing(r) && 0 <= i < j < |r|
    ensures r[i] != r[j]
  {
    BelowIrreflexive(r[i]);
  }

  /** A strictly increasing list is determined by its elements: `sorted(set(…))` has one possible result. */
  lemma {:induction false} IncreasingUnique(r1: seq<string>, r2: seq<string>)
    requires StrictlyIncreasing(r1) && StrictlyIncreasing(r2)
    requires forall y :: y in r1 <==> y in r2
    ensures r1 == r2
  {
    if r1 != [] {
      assert r1[0] in r2;
    }
    if r2 != [] {
      assert r2[0] in r1;
    }
    if r1 != [] {
      assert r1[0] == r2[0] by {
        var i :| 0 <= i < |r1| && r1[i] == r2[0];
        var j :| 0 <= j < |r2| && r2[j] == r1[0];
        if i != 0 && j != 0 {
          BelowAsymmetric(r1[0], r1[i]);
        }
      }
      forall y
        ensures y in r1[1..] <==> y in r2[1..]
      {
        if y in r1[1..] {
          var i :| 0 <= i < |r1[1..]| && r1[1..][i] == y;
          IncreasingIsDistinct(r1, 0, i + 1);
          assert y in r2 && y != r2[0];
        }
        if y in r2[1..] {
          var j :| 0 <= j < |r2[1..]| && r2[1..][j] == y;
          IncreasingIsDistinct(r2, 0, j + 1);
          assert y in r1 && y != r1[0];
        }
      }
      IncreasingUnique(r1[1..], r2[1..]);
      assert r1 == [r1[0]] + r1[1..] && r2 == [r2[0]] + r2[1..];
    }
  }
}
