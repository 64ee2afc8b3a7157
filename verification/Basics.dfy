/** Small vocabulary shared by the models: optional values, powers of two, sums over
    sequences, and sorting by an integer key. */
module Basics {

  datatype Option<+T> = None | Some(value: T)

  /** 2 to the power n. */
  function Pow2(n: nat): (r: nat)
    ensures r >= 1
  {
    if n == 0 then 1 else 2 * Pow2(n - 1)
  }

  lemma MulAssociates(x: int, y: int, z: int)
    ensures x * (y * z) == (x * y) * z
  {}

  lemma {:induction false} MulOrder(x: nat, y: nat, d: nat)
    requires x < y
    ensures x * d + d <= y * d
  {
    assert y * d == (y - 1) * d + d;
    if x + 1 < y {
      MulOrder(x, y - 1, d);
    }
  }

  lemma MulStep(x: int, y: int, d: nat)
    ensures x < y ==> (x + 1) * d <= y * d
  {
    if x < y {
      assert (y - (x + 1)) * d >= 0;
    }
  }

  /** A number lies in one interval of a given length only. */
  lemma OnePlace(x: int, y: int, v: int, d: nat)
    requires x * d <= v < (x + 1) * d && y * d <= v < (y + 1) * d
    ensures x == y
  {
    MulStep(x, y, d);
    MulStep(y, x, d);
  }

  lemma DivideFacts(n: nat, d: nat)
    requires d > 0
    ensures n / d * d <= n < (n / d + 1) * d
  {}

  lemma DivideTwice(n: nat, c: nat, d: nat)
    requires c > 0 && d > 0
    ensures c * d > 0 && n / c / d == n / (c * d)
  {
    MulStep(0, c, d);
    var b := n / c;
    var a := b / d;
    DivideFacts(n, c);
    DivideFacts(b, d);
    DivideFacts(n, c * d);
    MulStep(b, (a + 1) * d, c);
    Scales(a, d, b, c);
    MulAssociates(a, d, c);
    MulAssociates(a + 1, d, c);
    Commute(c, d);
    OnePlace(a, n / (c * d), n, c * d);
  }

  lemma Commute(x: int, y: int)
    ensures x * y == y * x
  {}

  lemma Scales(a: nat, d: nat, b: nat, c: nat)
    requires a * d <= b
    ensures a * d * c <= b * c
  {
    assert (b - a * d) * c >= 0;
  }

  lemma {:induction false} Pow2Adds(a: nat, b: nat)
    ensures Pow2(a + b) == Pow2(a) * Pow2(b)
  {
    if a != 0 {
      Pow2Adds(a - 1, b);
      MulAssociates(2, Pow2(a - 1), Pow2(b));
    }
  }

  lemma {:induction false} Pow2Monotone(a: nat, b: nat)
    requires a <= b
    ensures Pow2(a) <= Pow2(b)
  {
    if a < b {
      Pow2Monotone(a, b - 1);
    }
  }

  // ----- sums -----

  /** The sum of f over a sequence. */
  function SumBy<T>(f: T -> int, s: seq<T>): int
  {
    if s == [] then 0 else f(s[0]) + SumBy(f, s[1..])
  }

  lemma {:induction false} SumByAppend<T>(f: T -> int, a: seq<T>, b: seq<T>)
    ensures SumBy(f, a + b) == SumBy(f, a) + SumBy(f, b)
  {
    if a == [] {
      assert a + b == b;
    } else {
      assert (a + b)[1..] == a[1..] + b;
      SumByAppend(f, a[1..], b);
    }
  }

  lemma SumByTwo<T>(f: T -> int, x: T, y: T)
    ensures SumBy(f, [x]) == f(x)
    ensures SumBy(f, [x, y]) == f(x) + f(y)
  {
    assert [x, y][1..] == [y] && [x][1..] == [] && [y][1..] == [];
    assert SumBy(f, [y]) == f(y) + SumBy(f, []);
  }

  lemma SumBySplit<T>(f: T -> int, s: seq<T>, k: nat)
    requires k < |s|
    ensures SumBy(f, s[..k + 1]) == SumBy(f, s[..k]) + f(s[k])
    ensures SumBy(f, s) == SumBy(f, s[..k]) + SumBy(f, s[k..])
    ensures SumBy(f, s[k..]) == f(s[k]) + SumBy(f, s[k + 1..])
  {
    assert s[..k + 1] == s[..k] + [s[k]];
    SumByAppend(f, s[..k], [s[k]]);
    assert s == s[..k] + s[k..];
    SumByAppend(f, s[..k], s[k..]);
    assert s[k..][1..] == s[k + 1..];
  }

  function RemoveAt<T>(s: seq<T>, j: nat): seq<T>
    requires j < |s|
  {
    s[..j] + s[j + 1..]
  }

  lemma RemoveAtKeepsOthers<T>(s: seq<T>, j: nat)
    requires j < |s|
    ensures multiset(RemoveAt(s, j)) == multiset(s) - multiset{s[j]}
  {
    assert s == s[..j] + [s[j]] + s[j + 1..];
  }

  lemma RemoveAtDropsOne<T>(f: T -> int, s: seq<T>, j: nat)
    requires j < |s|
    ensures multiset(RemoveAt(s, j)) == multiset(s) - multiset{s[j]}
    ensures SumBy(f, s) == f(s[j]) + SumBy(f, RemoveAt(s, j))
  {
    RemoveAtKeepsOthers(s, j);
    SumBySplit(f, s, j);
    SumByAppend(f, s[..j], s[j + 1..]);
  }

  /** A sum does not depend on the order of its terms. */
  lemma {:induction false} SumByPermutation<T>(f: T -> int, a: seq<T>, b: seq<T>)
    requires multiset(a) == multiset(b)
    ensures SumBy(f, a) == SumBy(f, b)
  {
    if a == [] {
      assert |multiset(b)| == 0;
    } else {
      assert a[0] in multiset(b);
      var j :| 0 <= j < |b| && b[j] == a[0];
      RemoveAtDropsOne(f, a, 0);
      RemoveAtDropsOne(f, b, j);
      SumByPermutation(f, RemoveAt(a, 0), RemoveAt(b, j));
    }
  }

  lemma {:induction false} SumByNonNegative<T>(f: T -> int, s: seq<T>)
    requires forall x <- s :: f(x) >= 0
    ensures SumBy(f, s) >= 0
  {
    if s != [] {
      SumByNonNegative(f, s[1..]);
    }
  }

  lemma {:induction false} SumByDifference<T>(f: T -> int, g: T -> int, h: T -> int, s: seq<T>)
    requires forall x <- s :: f(x) == g(x) - h(x)
    ensures SumBy(f, s) == SumBy(g, s) - SumBy(h, s)
  {
    if s != [] {
      SumByDifference(f, g, h, s[1..]);
    }
  }

  // ----- sorting -----

  ghost predicate SortedBy<T>(key: T -> int, s: seq<T>)
  {
    forall i, j :: 0 <= i < j < |s| ==> key(s[i]) <= key(s[j])
  }

  /** Puts x behind the elements of a sorted sequence whose key does not exceed its own. */
  method InsertBy<T>(key: T -> int, s: seq<T>, x: T) returns (r: seq<T>)
    requires SortedBy(key, s)
    ensures multiset(r) == multiset(s) + multiset{x}
    ensures SortedBy(key, r)
  {
    var j := 0;
    while j < |s| && key(s[j]) <= key(x)
      invariant 0 <= j <= |s|
      invariant forall k :: 0 <= k < j ==> key(s[k]) <= key(x)
    {
      j := j + 1;
    }
    InsertedIsSorted(key, s, x, j);
    InsertedAddsOne(s, x, j);
    r := s[..j] + [x] + s[j..];
  }

  lemma InsertedIsSorted<T>(key: T -> int, s: seq<T>, x: T, j: nat)
    requires SortedBy(key, s) && j <= |s|
    requires forall k :: 0 <= k < j ==> key(s[k]) <= key(x)
    requires j < |s| ==> key(x) <= key(s[j])
    ensures SortedBy(key, s[..j] + [x] + s[j..])
  {}

  lemma InsertedAddsOne<T>(s: seq<T>, x: T, j: nat)
    requires j <= |s|
    ensures multiset(s[..j] + [x] + s[j..]) == multiset(s) + multiset{x}
  {
    assert s == s[..j] + s[j..];
  }

  /** Any sort of a sequence by an integer key: how elements with equal keys are ordered is
      left open, as it is for an unstable sort. */
  method SortBy<T>(key: T -> int, s: seq<T>) returns (r: seq<T>)
    ensures multiset(r) == multiset(s)
    ensures SortedBy(key, r)
  {
    r := [];
    for i := 0 to |s|
      invariant multiset(r) == multiset(s[..i])
      invariant SortedBy(key, r)
    {
      assert s[..i + 1] == s[..i] + [s[i]];
      r := InsertBy(key, r, s[i]);
    }
    assert s[..|s|] == s;
  }
}
