/** When coin selection succeeds, in terms of what a caller can check beforehand. */
module SelectionGuarantees {
  import opened Basics
  import opened BranchAndBound
  import opened Shuffle
  import opened CoinSelection

  /** If no optional output costs more to spend than it is worth, a selection succeeds exactly when
      all outputs together reach the target, whatever the random numbers and the number of tries. */
  lemma NonNegativeDecides(costs: Costs, required: seq<WeightedUtxo>, optional: seq<WeightedUtxo>,
                           order: seq<WeightedUtxo>, pool: seq<OutputGroup>, target: nat, tries: nat)
    requires multiset(order) == multiset(optional)
    requires multiset(pool) == multiset(PositiveGroups(optional, costs))
    requires forall w <- optional :: EffectiveOf(costs)(w) >= 0
    ensures Succeeds(costs, required, order, pool, target, tries) <==>
            Effective(costs, required) + Effective(costs, optional) >= target
  {
    EffectiveIsBounded(costs, optional);
    if Effective(costs, required) + Effective(costs, optional) >= target {
      SumByPermutation(EffectiveOf(costs), order, optional);
      assert order[..|order|] == order;
      assert Reaches(costs, required, order, target, |order|);
    } else {
      NothingSucceeds(costs, required, optional, order, pool, target, tries);
    }
  }

  /** With at most fifteen optional outputs worth spending, the cap on tries is never met: a selection
      that starts below the target succeeds exactly when the drawn order reaches it or some
      combination lands in the window. */
  lemma FewOutputsDecide(costs: Costs, required: seq<WeightedUtxo>, order: seq<WeightedUtxo>,
                         pool: seq<OutputGroup>, target: nat, tries: nat)
    requires |pool| <= 15 && tries >= BNB_TOTAL_TRIES
    requires ProblemOf(pool, Effective(costs, required), target, costs.costOfChange).Valid()
    requires Effective(costs, required) < target
    ensures var p := ProblemOf(pool, Effective(costs, required), target, costs.costOfChange);
      Succeeds(costs, required, order, pool, target, tries) <==>
        SomePrefixReaches(costs, required, order, target) || exists b :: Solution(p, b)
  {
    var p := ProblemOf(pool, Effective(costs, required), target, costs.costOfChange);
    FewTries(pool);
    EnoughTriesDecide(p, tries);
  }

  // ----- the selection with its cap of 100000 tries -----

  lemma {:induction false} ChosenOfPrefix(vals: seq<int>, m: nat, sel: seq<bool>)
    requires |sel| <= m <= |vals|
    ensures Chosen(vals[..m], sel) == Chosen(vals, sel)
  {
    if sel != [] {
      ChosenOfPrefix(vals, m, sel[..|sel| - 1]);
    }
  }

  lemma LastOf(pool: seq<OutputGroup>, chosen: seq<OutputGroup>)
    requires pool != [] && multiset(chosen) <= multiset(pool)
    ensures pool[|pool| - 1] !in chosen ==> multiset(chosen) <= multiset(pool[..|pool| - 1])
    ensures multiset(chosen) - multiset{pool[|pool| - 1]} <= multiset(pool[..|pool| - 1])
  {
    assert pool == pool[..|pool| - 1] + [pool[|pool| - 1]];
  }

  /** Any choice among the groups is a selection of the search, with the same total. */
  lemma {:induction false} SelectionOf(pool: seq<OutputGroup>, chosen: seq<OutputGroup>) returns (b: seq<bool>)
    requires multiset(chosen) <= multiset(pool)
    ensures |b| == |pool| && Chosen(EffectiveValues(pool), b) == SumBy(GroupEffective(), chosen)
    decreases |pool|
  {
    if pool == [] {
      assert |multiset(chosen)| == 0;
      b := [];
    } else {
      hide SumBy, EffectiveValues;
      var n := |pool| - 1;
      LastOf(pool, chosen);
      EffectiveOfPrefix(pool, n);
      if pool[n] in chosen {
        var j :| 0 <= j < |chosen| && chosen[j] == pool[n];
        RemoveAtDropsOne(GroupEffective(), chosen, j);
        b := SelectionOf(pool[..n], RemoveAt(chosen, j));
        OneMoreChoice(EffectiveValues(pool), b, true);
        b := b + [true];
      } else {
        b := SelectionOf(pool[..n], chosen);
        OneMoreChoice(EffectiveValues(pool), b, false);
        b := b + [false];
      }
    }
  }

  lemma EffectiveOfPrefix(pool: seq<OutputGroup>, n: nat)
    requires n < |pool|
    ensures |EffectiveValues(pool)| == |pool| && EffectiveValues(pool)[n] == pool[n].effectiveValue
    ensures EffectiveValues(pool)[..n] == EffectiveValues(pool[..n])
  {}

  lemma OneMoreChoice(vals: seq<int>, b: seq<bool>, take: bool)
    requires |b| == |vals| - 1
    ensures Chosen(vals, b + [take]) == Chosen(vals[..|b|], b) + if take then vals[|b|] else 0
  {
    ChosenOfPrefix(vals, |b|, b);
    assert (b + [take])[..|b|] == b;
  }

  ghost predicate Lands(total: int, target: int, costs: Costs) { target <= total <= target + costs.costOfChange }

  /** If a choice lands in the window, so does what is spent, for no more. */
  ghost predicate Beats(r: Selection, ws: seq<WeightedUtxo>, required: seq<WeightedUtxo>, chosen: seq<OutputGroup>,
                        costs: Costs, target: nat)
  {
    var total := Effective(costs, required) + SumBy(GroupEffective(), chosen);
    Lands(total, target, costs) ==> r.Selected? && Lands(Effective(costs, ws), target, costs) && Effective(costs, ws) <= total
  }

  /** What is spent has the smallest effective value of all choices that land in the window, if any do. */
  ghost predicate Smallest(r: Selection, ws: seq<WeightedUtxo>, required: seq<WeightedUtxo>, groups: seq<OutputGroup>,
                           costs: Costs, target: nat)
  {
    forall chosen: seq<OutputGroup> :: multiset(chosen) <= multiset(groups) ==> Beats(r, ws, required, chosen, costs, target)
  }

  lemma FewOutputsAreSmallest(r: Selection, ws: seq<WeightedUtxo>, required: seq<WeightedUtxo>, optional: seq<WeightedUtxo>,
                              order: seq<WeightedUtxo>, pool: seq<OutputGroup>, costs: Costs, target: nat)
    requires |PositiveGroups(optional, costs)| <= 15 && Effective(costs, required) < target
    requires multiset(pool) == multiset(PositiveGroups(optional, costs))
    requires PrefersSearch(costs, required, pool, target, BNB_TOTAL_TRIES, ws)
    requires r.Selected? <==> Succeeds(costs, required, order, pool, target, BNB_TOTAL_TRIES)
    ensures Smallest(r, ws, required, PositiveGroups(optional, costs), costs, target)
  {
    hide Beats, PositiveGroups, ProblemOf, PrefersSearch, Succeeds, Pow2, Effective;
    PoolIsValid(required, optional, pool, costs, target);
    FewTries(pool);
    forall chosen: seq<OutputGroup> | multiset(chosen) <= multiset(PositiveGroups(optional, costs))
      ensures Beats(r, ws, required, chosen, costs, target)
    {
      ChoiceIsBeaten(r, ws, required, order, pool, costs, target, chosen);
    }
  }

  /** A choice that lands in the window is found, or something that is spent for less. */
  lemma ChoiceIsBeaten(r: Selection, ws: seq<WeightedUtxo>, required: seq<WeightedUtxo>, order: seq<WeightedUtxo>, pool: seq<OutputGroup>,
                       costs: Costs, target: nat, chosen: seq<OutputGroup>)
    requires ProblemOf(pool, Effective(costs, required), target, costs.costOfChange).Valid() && Effective(costs, required) < target
    requires Pow2(|pool| + 1) - 1 <= BNB_TOTAL_TRIES && multiset(chosen) <= multiset(pool)
    requires PrefersSearch(costs, required, pool, target, BNB_TOTAL_TRIES, ws)
    requires r.Selected? <==> Succeeds(costs, required, order, pool, target, BNB_TOTAL_TRIES)
    ensures Beats(r, ws, required, chosen, costs, target)
  {
    hide Solve, SumBy, SomePrefixReaches, Pow2, Effective;
    if Lands(Effective(costs, required) + SumBy(GroupEffective(), chosen), target, costs) {
      var p := ProblemOf(pool, Effective(costs, required), target, costs.costOfChange);
      var b := SelectionOf(pool, chosen);
      assert Solution(p, b);
      EnoughTriesDecide(p, BNB_TOTAL_TRIES);
      FoundIsASolution(p, BNB_TOTAL_TRIES);
    }
  }

  lemma PoolIsValid(required: seq<WeightedUtxo>, optional: seq<WeightedUtxo>, pool: seq<OutputGroup>, costs: Costs, target: nat)
    requires multiset(pool) == multiset(PositiveGroups(optional, costs)) && Effective(costs, required) <= target
    ensures ProblemOf(pool, Effective(costs, required), target, costs.costOfChange).Valid()
    ensures |pool| == |PositiveGroups(optional, costs)|
  {
    PositiveGroupsOf(optional, costs);
    assert |multiset(pool)| == |multiset(PositiveGroups(optional, costs))|;
    forall i | 0 <= i < |pool| ensures pool[i].effectiveValue > 0 {
      assert pool[i] in multiset(pool);
      assert pool[i] in PositiveGroups(optional, costs);
    }
  }

  lemma FewTries(pool: seq<OutputGroup>)
    requires |pool| <= 15
    ensures Pow2(|pool| + 1) - 1 <= BNB_TOTAL_TRIES
  {
    Pow2Monotone(|pool| + 1, 16);
    assert Pow2(8) == 256;
    Pow2Adds(8, 8);
  }

  /** The selection as the wallet calls it, with the cap on tries of the source, said in terms of what a
      caller offers: it conserves value; without losing outputs it succeeds exactly when everything
      together reaches the target; what is spent is what the search finds or else what is drawn; and with at most fifteen outputs worth spending, if any choice among
      them lands in the window, so does what is spent, with the smallest effective value of all. */
  method Select(required: seq<WeightedUtxo>, optional: seq<WeightedUtxo>, costs: Costs, target: nat, rng: nat -> nat)
    returns (r: Selection, ghost ws: seq<WeightedUtxo>, ghost pool: seq<OutputGroup>, ghost taken: nat)
    ensures r.Selected? ==> Accounts(r.result, ws, required, optional, costs, target)
    ensures r.Selected? && costs.dustThreshold > 0 ==> Conserved(r.result, target)
    ensures r.InsufficientFunds? ==> r.available < r.needed
    ensures (forall w <- optional :: EffectiveOf(costs)(w) >= 0) ==>
      (r.Selected? <==> Effective(costs, required) + Effective(costs, optional) >= target)
    ensures |PositiveGroups(optional, costs)| <= 15 && Effective(costs, required) < target ==>
      Smallest(r, ws, required, PositiveGroups(optional, costs), costs, target)
    ensures multiset(pool) == multiset(PositiveGroups(optional, costs))
    ensures Chooses(r, ws, required, optional, Shuffled(optional, Picks(rng, |optional|)), pool, costs, target, 100_000, taken)
    ensures MeetsCap(r, ws, required, pool, costs, target, 100_000)
  {
    hide Accounts, Conserved, Succeeds, Smallest, PositiveGroups, PrefersSearch, Shuffled, Picks, Chooses, MeetsCap, FallsShort;
    r, ws, pool, taken := CoinSelect(required, optional, costs, target, rng, BNB_TOTAL_TRIES);
    ghost var order := Shuffled(optional, Picks(rng, |optional|));
    ShuffledIsAPermutation(optional, Picks(rng, |optional|));
    if forall w <- optional :: EffectiveOf(costs)(w) >= 0 {
      NonNegativeDecides(costs, required, optional, order, pool, target, BNB_TOTAL_TRIES);
    }
    if |PositiveGroups(optional, costs)| <= 15 && Effective(costs, required) < target {
      FewOutputsAreSmallest(r, ws, required, optional, order, pool, costs, target);
    }
  }

  // ----- the random draw over all orders -----

  function Where(ws: seq<WeightedUtxo>, costs: Costs, negative: bool): seq<WeightedUtxo>
  {
    if ws == [] then [] else
      (if (EffectiveOf(costs)(ws[0]) < 0) == negative then [ws[0]] else []) + Where(ws[1..], costs, negative)
  }

  lemma {:induction false} WhereParts(ws: seq<WeightedUtxo>, costs: Costs)
    ensures multiset(Where(ws, costs, true) + Where(ws, costs, false)) == multiset(ws)
  {
    if ws != [] {
      assert ws == [ws[0]] + ws[1..];
      WhereParts(ws[1..], costs);
    }
  }

  lemma {:induction false} WhereHolds(ws: seq<WeightedUtxo>, costs: Costs, negative: bool)
    ensures forall w <- Where(ws, costs, negative) :: (EffectiveOf(costs)(w) < 0) == negative
  {
    if ws != [] {
      WhereHolds(ws[1..], costs, negative);
    }
  }

  lemma {:induction false} NegativeSum(costs: Costs, ws: seq<WeightedUtxo>)
    requires forall w <- ws :: EffectiveOf(costs)(w) < 0
    ensures Effective(costs, ws) <= 0
  {
    if ws != [] {
      NegativeSum(costs, ws[1..]);
    }
  }

  /** Spending everything that loses value first is the worst order: its prefixes are never worth
      more than nothing or than everything. */
  lemma WorstOrder(costs: Costs, negative: seq<WeightedUtxo>, rest: seq<WeightedUtxo>, k: nat)
    requires forall w <- negative :: EffectiveOf(costs)(w) < 0
    requires forall w <- rest :: EffectiveOf(costs)(w) >= 0
    requires k <= |negative + rest|
    ensures Effective(costs, (negative + rest)[..k]) <= 0
         || Effective(costs, (negative + rest)[..k]) <= Effective(costs, negative + rest)
  {
    var order := negative + rest;
    if k <= |negative| {
      assert order[..k] == negative[..k];
      NegativeSum(costs, negative[..k]);
    } else {
      assert order == order[..k] + order[k..];
      SumByAppend(EffectiveOf(costs), order[..k], order[k..]);
      SumByNonNegative(EffectiveOf(costs), order[k..]);
    }
  }

  /** The random draw succeeds in every order exactly when the required outputs suffice or all
      outputs together do. */
  lemma EveryOrderReaches(costs: Costs, required: seq<WeightedUtxo>, optional: seq<WeightedUtxo>, target: int)
    ensures (forall order :: multiset(order) == multiset(optional) ==> SomePrefixReaches(costs, required, order, target))
       <==> Effective(costs, required) >= target || Effective(costs, required) + Effective(costs, optional) >= target
  {
    if Effective(costs, required) >= target || Effective(costs, required) + Effective(costs, optional) >= target {
      forall order | multiset(order) == multiset(optional) ensures SomePrefixReaches(costs, required, order, target) {
        SumByPermutation(EffectiveOf(costs), order, optional);
        assert order[..|order|] == order;
        assert Reaches(costs, required, order, target, 0) || Reaches(costs, required, order, target, |order|);
      }
    } else {
      var negative, rest := Where(optional, costs, true), Where(optional, costs, false);
      WhereParts(optional, costs);
      WhereHolds(optional, costs, true);
      WhereHolds(optional, costs, false);
      SumByPermutation(EffectiveOf(costs), negative + rest, optional);
      forall k: nat ensures !Reaches(costs, required, negative + rest, target, k) {
        if k <= |negative + rest| {
          WorstOrder(costs, negative, rest, k);
        }
      }
      assert !SomePrefixReaches(costs, required, negative + rest, target);
    }
  }

  const FLAT_FEE: Costs := Costs((w: nat) => 5, 2, 1, 1)
  const GAINING: WeightedUtxo := WeightedUtxo(Utxo(OutPoint([0], 0), 15, [], false), 0)
  const LOSING: WeightedUtxo := WeightedUtxo(Utxo(OutPoint([1], 0), 0, [], false), 0)

  lemma LosingDraw(k: nat)
    ensures !Reaches(FLAT_FEE, [], [LOSING, GAINING], 8, k)
  {
    var order := [LOSING, GAINING];
    assert EffectiveOf(FLAT_FEE)(GAINING) == 10 && EffectiveOf(FLAT_FEE)(LOSING) == -5;
    SumByTwo(EffectiveOf(FLAT_FEE), LOSING, GAINING);
    assert order[..1] == [LOSING] && order[..2] == order;
  }

  lemma LosingSearch(tries: nat)
    ensures var p := ProblemOf([NewGroup(GAINING, FLAT_FEE)], 0, 8, 1); p.Valid() && !Solve(p, tries).Found?
  {
    var p := ProblemOf([NewGroup(GAINING, FLAT_FEE)], 0, 8, 1);
    if Solve(p, tries).Found? {
      FoundIsASolution(p, tries);
    }
  }

  /** An output that costs more to spend than it is worth can make a selection fail although the
      others would pay for it: 15 at a fee of 5 covers a target of 8, but not after a worthless
      output has been drawn first. */
  lemma LosingOutputCanFail(tries: nat)
    ensures var optional, pool := [LOSING, GAINING], [NewGroup(GAINING, FLAT_FEE)];
      && multiset(pool) == multiset(PositiveGroups(optional, FLAT_FEE))
      && PositiveEffective(FLAT_FEE, optional) >= 8
      && !Succeeds(FLAT_FEE, [], optional, pool, 8, tries)
  {
    var optional, pool := [LOSING, GAINING], [NewGroup(GAINING, FLAT_FEE)];
    assert optional[1..] == [GAINING] && [GAINING][1..] == [];
    assert PositiveGroups([GAINING], FLAT_FEE) == pool + [];
    PositiveGroupsTotal(optional, FLAT_FEE);
    SumByTwo(GroupEffective(), pool[0], pool[0]);
    forall k: nat {
      LosingDraw(k);
    }
    LosingSearch(tries);
  }
}
