/** The Fisher-Yates shuffle of crates/wallet/src/utils.rs: in place over an array, tied to a
    function of the drawn indices that maps them one-to-one onto all orders. */
module Shuffle {

  function Swapped<T>(s: seq<T>, i: nat, j: nat): (r: seq<T>)
    requires i < |s| && j < |s|
    ensures |r| == |s|
  {
    s[i := s[j]][j := s[i]]
  }

  lemma SwapSplits<T>(s: seq<T>, j: nat)
    requires j < |s| - 1
    ensures var m := |s| - 1; var a, b := s[..j], s[j + 1..m];
      s == a + [s[j]] + b + [s[m]] && Swapped(s, m, j)[..m] == a + [s[m]] + b
  {}

  lemma LastInsteadOf<T>(a: seq<T>, x: T, b: seq<T>, y: T)
    ensures multiset(a + [y] + b) == multiset(a + [x] + b + [y]) - multiset{x}
  {}

  lemma SwapIsAPermutation<T>(s: seq<T>, j: nat)
    requires j < |s|
    ensures var m := |s| - 1; var t := Swapped(s, m, j);
      t[m] == s[j] && multiset(t[..m]) == multiset(s) - multiset{s[j]}
  {
    var m := |s| - 1;
    var t := Swapped(s, m, j);
    if j == m {
      assert t[..m] == s[..m];
      assert s == s[..m] + [s[m]];
    } else {
      SwapSplits(s, j);
      LastInsteadOf(s[..j], s[j], s[j + 1..m], s[m]);
    }
  }

  /** One index for each position from the last down to the second, none past its position. */
  ghost predicate ValidPicks(picks: seq<nat>, n: nat)
  {
    && |picks| == (if n == 0 then 0 else n - 1)
    && forall j :: 0 <= j < |picks| ==> picks[j] < n - j
  }

  /** The indices that a stream of random numbers is reduced to. */
  ghost function Picks(rng: nat -> nat, n: nat): (picks: seq<nat>)
    ensures ValidPicks(picks, n)
  {
    seq(if n == 0 then 0 else n - 1, j requires 0 <= j < n - 1 => rng(j) % (n - j))
  }

  /** The order that the picks produce. */
  ghost function Shuffled<T>(s: seq<T>, picks: seq<nat>): (r: seq<T>)
    requires ValidPicks(picks, |s|)
    ensures |r| == |s|
    decreases |s|
  {
    if |s| <= 1 then s else
      var m := |s| - 1;
      var t := Swapped(s, m, picks[0]);
      Shuffled(t[..m], picks[1..]) + [t[m]]
  }

  method ShuffleSlice<T>(list: array<T>, rng: nat -> nat)
    modifies list
    ensures list[..] == Shuffled(old(list[..]), Picks(rng, list.Length))
  {
    hide Shuffled, Picks, ValidPicks, Swapped;
    if list.Length == 0 {
      NothingToShuffle(list[..], rng);
      return;
    }
    var n := list.Length;
    var currentIndex := n - 1;
    ghost var goal := Shuffled(list[..], Picks(rng, n));
    ghost var rest := Picks(rng, n);
    assert list[..n] == list[..] && list[n..] == [];
    while currentIndex > 0
      invariant 0 <= currentIndex < n
      invariant ValidPicks(rest, currentIndex + 1) && rest == PicksFrom(rng, n, currentIndex)
      invariant goal == Shuffled(list[..currentIndex + 1], rest) + list[currentIndex + 1..]
    {
      var randomIndex := rng(n - 1 - currentIndex) % (currentIndex + 1);
      ghost var before := list[..];
      NextPick(rng, n, currentIndex);
      list[currentIndex], list[randomIndex] := list[randomIndex], list[currentIndex];
      SwappedIs(before, list[..], currentIndex, randomIndex);
      UnfoldStep(before, list[..], currentIndex, randomIndex, rest);
      rest := rest[1..];
      currentIndex := currentIndex - 1;
    }
    OneIsShuffled(list[..1], rest);
    assert list[..1] + list[1..] == list[..];
  }

  /** The j-th random number settles the position n - 1 - j: it picks among the n - j elements not settled yet. */
  lemma PicksAre(rng: nat -> nat, n: nat, j: nat)
    requires j + 1 < n
    ensures |Picks(rng, n)| == n - 1 && Picks(rng, n)[j] == rng(j) % (n - j)
  {}

  lemma NothingToShuffle<T>(s: seq<T>, rng: nat -> nat)
    requires s == []
    ensures Shuffled(s, Picks(rng, |s|)) == s
  {}

  lemma OneIsShuffled<T>(s: seq<T>, picks: seq<nat>)
    requires |s| == 1 && ValidPicks(picks, 1)
    ensures Shuffled(s, picks) == s
  {}

  lemma SwappedIs<T>(s: seq<T>, t: seq<T>, i: nat, j: nat)
    requires i < |s| == |t| && j < |s| && t[i] == s[j] && t[j] == s[i]
    requires forall k :: 0 <= k < |s| && k != i && k != j ==> t[k] == s[k]
    ensures t == Swapped(s, i, j)
  {}

  /** The picks that are left when the positions up to c are still to be settled. */
  ghost function PicksFrom(rng: nat -> nat, n: nat, c: nat): seq<nat>
    requires c < n
  {
    Picks(rng, n)[n - 1 - c..]
  }

  lemma NextPick(rng: nat -> nat, n: nat, c: nat)
    requires 0 < c < n
    ensures PicksFrom(rng, n, c) != [] && PicksFrom(rng, n, c)[0] == rng(n - 1 - c) % (c + 1)
    ensures PicksFrom(rng, n, c)[1..] == PicksFrom(rng, n, c - 1)
  {}

  /** One iteration settles the element at the current index. */
  lemma UnfoldStep<T>(before: seq<T>, after: seq<T>, m: nat, j: nat, picks: seq<nat>)
    requires 0 < m < |before| && j <= m && ValidPicks(picks, m + 1) && picks[0] == j
    requires after == Swapped(before, m, j)
    ensures ValidPicks(picks[1..], m)
    ensures Shuffled(before[..m + 1], picks) + before[m + 1..] == Shuffled(after[..m], picks[1..]) + after[m..]
  {
    var s := before[..m + 1];
    var t := Swapped(s, m, j);
    assert t[..m] == after[..m];
    assert t[m] == after[m];
    assert before[m + 1..] == after[m + 1..];
    assert [after[m]] + after[m + 1..] == after[m..];
  }

  // ----- what the picks produce -----

  lemma {:induction false} ShuffledIsAPermutation<T>(s: seq<T>, picks: seq<nat>)
    requires ValidPicks(picks, |s|)
    ensures multiset(Shuffled(s, picks)) == multiset(s)
    decreases |s|
  {
    if |s| > 1 {
      SwapIsAPermutation(s, picks[0]);
      ShuffledIsAPermutation(Swapped(s, |s| - 1, picks[0])[..|s| - 1], picks[1..]);
      assert s[picks[0]] in multiset(s);
    }
  }

  ghost predicate Distinct<T>(s: seq<T>)
  {
    forall i, j :: 0 <= i < j < |s| ==> s[i] != s[j]
  }

  /** The last element of the result is the picked one, the others are a shuffle of the rest. */
  lemma ShuffledSplits<T>(s: seq<T>, picks: seq<nat>)
    requires ValidPicks(picks, |s|) && |s| > 1
    ensures Shuffled(s, picks)[|s| - 1] == s[picks[0]]
    ensures Shuffled(s, picks)[..|s| - 1] == Shuffled(Swapped(s, |s| - 1, picks[0])[..|s| - 1], picks[1..])
  {}

  /** In terms of the random numbers: the first one picks the last element; the element that stood last takes
      the place of the picked one, and the rest is shuffled with the numbers that follow. */
  lemma DrawnFirst<T>(s: seq<T>, rng: nat -> nat)
    requires |s| > 1
    ensures var n, j := |s|, rng(0) % |s|;
      && Shuffled(s, Picks(rng, n))[n - 1] == s[j]
      && Shuffled(s, Picks(rng, n))[..n - 1] == Shuffled(s[j := s[n - 1]][..n - 1], Picks(i => rng(i + 1), n - 1))
  {
    hide Shuffled, Picks, Swapped, ValidPicks;
    var n, j := |s|, rng(0) % |s|;
    LaterPicks(rng, n);
    SwapLeaves(s, j);
    ShuffledSplits(s, Picks(rng, n));
  }

  lemma LaterPicks(rng: nat -> nat, n: nat)
    requires n > 1
    ensures Picks(rng, n)[0] == rng(0) % n && Picks(rng, n)[1..] == Picks(i => rng(i + 1), n - 1)
  {}

  lemma SwapLeaves<T>(s: seq<T>, j: nat)
    requires j < |s|
    ensures Swapped(s, |s| - 1, j)[..|s| - 1] == s[j := s[|s| - 1]][..|s| - 1]
  {}

  /** Every order is drawn by some stream of random numbers. */
  lemma EveryOrderHasNumbers<T>(s: seq<T>, u: seq<T>) returns (rng: nat -> nat)
    requires multiset(u) == multiset(s)
    ensures Shuffled(s, Picks(rng, |s|)) == u
  {
    var picks := EveryOrderIsDrawn(s, u);
    rng := (j: nat) => if j < |picks| then picks[j] else 0;
    forall j | 0 <= j < |picks| ensures Picks(rng, |s|)[j] == picks[j] {
      SmallModulo(picks[j], |s| - j);
    }
    assert Picks(rng, |s|) == picks;
  }

  lemma SmallModulo(x: nat, d: nat)
    requires x < d
    ensures x % d == x
  {}

  lemma SwapKeepsDistinct<T>(s: seq<T>, j: nat)
    requires j < |s| && Distinct(s)
    ensures Distinct(Swapped(s, |s| - 1, j)[..|s| - 1])
  {}

  /** Different picks give different orders of distinct elements. */
  lemma {:induction false} PicksAreDetermined<T>(s: seq<T>, p: seq<nat>, q: seq<nat>)
    requires ValidPicks(p, |s|) && ValidPicks(q, |s|) && Distinct(s)
    requires Shuffled(s, p) == Shuffled(s, q)
    ensures p == q
    decreases |s|
  {
    if |s| > 1 {
      ShuffledSplits(s, p);
      ShuffledSplits(s, q);
      SwapKeepsDistinct(s, p[0]);
      PicksAreDetermined(Swapped(s, |s| - 1, p[0])[..|s| - 1], p[1..], q[1..]);
      assert p == [p[0]] + p[1..] && q == [q[0]] + q[1..];
    }
  }

  lemma DropLast<T>(u: seq<T>)
    requires u != []
    ensures multiset(u[..|u| - 1]) == multiset(u) - multiset{u[|u| - 1]}
  {
    assert u == u[..|u| - 1] + [u[|u| - 1]];
  }

  /** A first pick and picks for the rest make picks for the whole. */
  lemma PickThenShuffle<T>(s: seq<T>, j: nat, rest: seq<nat>)
    requires |s| > 1 && j < |s| && ValidPicks(rest, |s| - 1)
    ensures ValidPicks([j] + rest, |s|)
    ensures Shuffled(s, [j] + rest) == Shuffled(Swapped(s, |s| - 1, j)[..|s| - 1], rest) + [s[j]]
  {
    var picks := [j] + rest;
    assert picks[1..] == rest;
    forall i | 0 <= i < |picks| ensures picks[i] < |s| - i {
      if i > 0 {
        assert picks[i] == rest[i - 1];
      }
    }
  }

  lemma SameSize<T>(s: seq<T>, u: seq<T>)
    requires multiset(u) == multiset(s)
    ensures |u| == |s|
    ensures |s| <= 1 ==> u == s
  {
    assert |multiset(u)| == |u| && |multiset(s)| == |s|;
    if |s| == 1 {
      assert u[0] in multiset(s);
    }
  }

  /** The pick that puts the last element of u in its place. */
  lemma LastPick<T>(s: seq<T>, u: seq<T>) returns (j: nat)
    requires multiset(u) == multiset(s) && |s| > 1
    ensures j < |s| == |u| && s[j] == u[|u| - 1]
    ensures multiset(Swapped(s, |s| - 1, j)[..|s| - 1]) == multiset(u[..|u| - 1])
  {
    SameSize(s, u);
    assert u[|u| - 1] in multiset(s);
    j :| 0 <= j < |s| && s[j] == u[|u| - 1];
    SwapIsAPermutation(s, j);
    DropLast(u);
  }

  /** Every order can be drawn. */
  lemma {:induction false} EveryOrderIsDrawn<T>(s: seq<T>, u: seq<T>) returns (picks: seq<nat>)
    requires multiset(u) == multiset(s)
    ensures ValidPicks(picks, |s|) && Shuffled(s, picks) == u
    decreases |s|
  {
    SameSize(s, u);
    if |s| <= 1 {
      picks := [];
    } else {
      hide Shuffled, Swapped, ValidPicks;
      var m := |s| - 1;
      var j := LastPick(s, u);
      var rest := EveryOrderIsDrawn(Swapped(s, m, j)[..m], u[..m]);
      picks := [j] + rest;
      PickThenShuffle(s, j, rest);
      assert u == u[..m] + [u[m]];
    }
  }
}
