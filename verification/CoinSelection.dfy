/** Coin selection of crates/wallet/src/coin_selection.rs: branch and bound first, a single random
    draw as the fallback. Amounts are unbounded integers. */
module CoinSelection {
  import opened Basics
  import opened BranchAndBound
  import opened CappedSearch
  import opened Shuffle
  import Bytes

  type Hash = seq<Bytes.byte>
  type Script = seq<Bytes.byte>

  datatype OutPoint = OutPoint(txid: Hash, vout: nat)

  datatype Utxo = Utxo(outpoint: OutPoint, value: nat, script: Script, isSpent: bool)

  datatype WeightedUtxo = WeightedUtxo(utxo: Utxo, satisfactionWeight: nat)

  /** What the bitcoin library computes from the fee rate and the drain script: the fee of an input
      by its satisfaction weight, the fee of a change output, the dust threshold of the drain script,
      and the fee rate times the configured size of a change output. */
  datatype Costs = Costs(inputFee: nat -> nat, changeFee: nat, dustThreshold: nat, costOfChange: nat)

  datatype Excess =
    | NoChange(dustThreshold: nat, remainingAmount: nat, changeFee: nat)
    | Change(amount: nat, fee: nat)

  datatype CoinSelectionResult = CoinSelectionResult(selected: seq<Utxo>, feeAmount: nat, excess: Excess)

  datatype Selection =
    | Selected(result: CoinSelectionResult)
    | InsufficientFunds(needed: nat, available: nat)

  /** A spendable output with the fee for spending it and its value net of that fee. */
  datatype OutputGroup = OutputGroup(weightedUtxo: WeightedUtxo, fee: nat, effectiveValue: int)

  const BNB_TOTAL_TRIES: nat := 100_000

  // ----- amounts of a list of outputs -----

  function FeeOf(costs: Costs): WeightedUtxo -> int { (w: WeightedUtxo) => costs.inputFee(w.satisfactionWeight) }

  function ValueOf(): WeightedUtxo -> int { (w: WeightedUtxo) => w.utxo.value }

  function EffectiveOf(costs: Costs): WeightedUtxo -> int {
    (w: WeightedUtxo) => w.utxo.value - costs.inputFee(w.satisfactionWeight)
  }

  function Fees(costs: Costs, ws: seq<WeightedUtxo>): int { SumBy(FeeOf(costs), ws) }

  function Value(ws: seq<WeightedUtxo>): int { SumBy(ValueOf(), ws) }

  function Effective(costs: Costs, ws: seq<WeightedUtxo>): int { SumBy(EffectiveOf(costs), ws) }

  function Utxos(ws: seq<WeightedUtxo>): seq<Utxo> { seq(|ws|, i requires 0 <= i < |ws| => ws[i].utxo) }

  function UtxoValue(): Utxo -> int { (u: Utxo) => u.value }

  lemma AmountsAddUp(costs: Costs, ws: seq<WeightedUtxo>)
    ensures Effective(costs, ws) == Value(ws) - Fees(costs, ws)
    ensures Value(ws) >= 0 && Fees(costs, ws) >= 0
  {
    SumByDifference(EffectiveOf(costs), ValueOf(), FeeOf(costs), ws);
    SumByNonNegative(ValueOf(), ws);
    SumByNonNegative(FeeOf(costs), ws);
  }

  lemma {:induction false} UtxoValues(ws: seq<WeightedUtxo>)
    ensures SumBy(UtxoValue(), Utxos(ws)) == Value(ws)
  {
    if ws != [] {
      assert Utxos(ws)[1..] == Utxos(ws[1..]);
      UtxoValues(ws[1..]);
    }
  }

  // ----- pure parts -----

  function NewGroup(w: WeightedUtxo, costs: Costs): OutputGroup
  {
    OutputGroup(w, costs.inputFee(w.satisfactionWeight), w.utxo.value - costs.inputFee(w.satisfactionWeight))
  }

  /** Whether the excess becomes a change output. */
  function DecideChange(remainingAmount: nat, costs: Costs): (e: Excess)
    ensures e.Change? && (costs.dustThreshold > 0 || remainingAmount >= costs.changeFee) ==>
      e.amount + e.fee == remainingAmount && e.amount >= costs.dustThreshold
    ensures costs.dustThreshold > 0 ==> (e.Change? <==> remainingAmount >= costs.changeFee + costs.dustThreshold)
    ensures e.Change? ==> e.fee == costs.changeFee && (remainingAmount < costs.changeFee ==> e.amount == 0)
    ensures costs.dustThreshold == 0 ==> e.Change?
    ensures e.NoChange? ==>
      e.remainingAmount == remainingAmount && e.dustThreshold == costs.dustThreshold && e.changeFee == costs.changeFee
  {
    var drain: nat := if remainingAmount >= costs.changeFee then remainingAmount - costs.changeFee else 0;
    if drain < costs.dustThreshold then
      NoChange(costs.dustThreshold, remainingAmount, costs.changeFee)
    else
      Change(drain, costs.changeFee)
  }

  /** What the excess accounts for beyond the target and the input fees. */
  function Remaining(e: Excess): nat
  {
    match e
    case NoChange(_, remaining, _) => remaining
    case Change(amount, fee) => amount + fee
  }

  /** A result spends a list of outputs that holds every required one and otherwise only optional
      ones, none more often than it is offered, and accounts for all of their value. */
  ghost predicate Accounts(r: CoinSelectionResult, ws: seq<WeightedUtxo>, required: seq<WeightedUtxo>,
                           optional: seq<WeightedUtxo>, costs: Costs, target: nat)
  {
    && r.selected == Utxos(ws)
    && multiset(required) <= multiset(ws) <= multiset(required) + multiset(optional)
    && r.feeAmount == Fees(costs, ws)
    && Value(ws) >= target + r.feeAmount
    && r.excess == DecideChange(Value(ws) - target - r.feeAmount, costs)
  }

  /** Value is conserved: what is selected pays the target, the input fees and the excess. */
  lemma ValueIsConserved(r: CoinSelectionResult, ws: seq<WeightedUtxo>, required: seq<WeightedUtxo>,
                         optional: seq<WeightedUtxo>, costs: Costs, target: nat)
    requires Accounts(r, ws, required, optional, costs, target) && costs.dustThreshold > 0
    ensures SumBy(UtxoValue(), r.selected) == target + r.feeAmount + Remaining(r.excess)
  {
    UtxoValues(ws);
  }

  ghost predicate Conserved(r: CoinSelectionResult, target: nat)
  {
    SumBy(UtxoValue(), r.selected) == target + r.feeAmount + Remaining(r.excess)
  }

  lemma Conserves(r: Selection, ws: seq<WeightedUtxo>, required: seq<WeightedUtxo>, optional: seq<WeightedUtxo>,
                  costs: Costs, target: nat)
    requires r.Selected? ==> Accounts(r.result, ws, required, optional, costs, target)
    ensures r.Selected? && costs.dustThreshold > 0 ==> Conserved(r.result, target)
  {
    if r.Selected? && costs.dustThreshold > 0 {
      ValueIsConserved(r.result, ws, required, optional, costs, target);
    }
  }

  // ----- single random draw -----

  /** Takes outputs in order until the target and the fees so far are met; those that must be used
      are always taken. Stops at the first output that is not needed. */
  method SelectSortedUtxos(utxos: seq<(bool, WeightedUtxo)>, costs: Costs, target: nat)
    returns (r: Selection, ghost k: nat)
    ensures k <= |utxos|
    ensures forall j :: 0 <= j < k && !utxos[j].0 ==> Effective(costs, Items(utxos)[..j]) < target
    ensures k < |utxos| ==> !utxos[k].0 && Effective(costs, Items(utxos)[..k]) >= target
    ensures r.Selected? <==> Effective(costs, Items(utxos)[..k]) >= target
    ensures r.Selected? ==>
      && r.result.selected == Utxos(Items(utxos)[..k])
      && r.result.feeAmount == Fees(costs, Items(utxos)[..k])
      && Value(Items(utxos)[..k]) >= target + r.result.feeAmount
      && r.result.excess == DecideChange(Value(Items(utxos)[..k]) - target - r.result.feeAmount, costs)
    ensures r.InsufficientFunds? ==>
      && r.available == Value(Items(utxos)[..k])
      && r.needed == target + Fees(costs, Items(utxos)[..k])
    ensures r.InsufficientFunds? ==> r.available < r.needed
  {
    hide DecideChange;
    var selectedAmount, feeAmount: nat := 0, 0;
    var selected: seq<Utxo> := [];
    ghost var items := Items(utxos);
    var i := 0;
    while i < |utxos| && (utxos[i].0 || selectedAmount < target + feeAmount)
      invariant 0 <= i <= |utxos|
      invariant selected == Utxos(items[..i])
      invariant selectedAmount == Value(items[..i]) && feeAmount == Fees(costs, items[..i])
      invariant forall j :: 0 <= j < i && !utxos[j].0 ==> Effective(costs, items[..j]) < target
    {
      AmountsAddUp(costs, items[..i]);
      OneTaken(costs, items, i);
      feeAmount := feeAmount + costs.inputFee(utxos[i].1.satisfactionWeight);
      selectedAmount := selectedAmount + utxos[i].1.utxo.value;
      selected := selected + [utxos[i].1.utxo];
      i := i + 1;
    }
    k := i;
    AmountsAddUp(costs, items[..i]);
    var needed := target + feeAmount;
    if selectedAmount < needed {
      return InsufficientFunds(needed, selectedAmount), k;
    }
    r := Selected(CoinSelectionResult(selected, feeAmount, DecideChange(selectedAmount - needed, costs)));
  }

  lemma OneTaken(costs: Costs, items: seq<WeightedUtxo>, i: nat)
    requires i < |items|
    ensures Fees(costs, items[..i + 1]) == Fees(costs, items[..i]) + costs.inputFee(items[i].satisfactionWeight)
    ensures Value(items[..i + 1]) == Value(items[..i]) + items[i].utxo.value
    ensures Utxos(items[..i + 1]) == Utxos(items[..i]) + [items[i].utxo]
  {
    SumBySplit(FeeOf(costs), items, i);
    SumBySplit(ValueOf(), items, i);
  }

  ghost function Items(utxos: seq<(bool, WeightedUtxo)>): (r: seq<WeightedUtxo>)
    ensures |r| == |utxos|
  {
    seq(|utxos|, i requires 0 <= i < |utxos| => utxos[i].1)
  }

  /** Some prefix of the optional outputs, in the given order, reaches the target with the required ones. */
  ghost predicate Reaches(costs: Costs, required: seq<WeightedUtxo>, order: seq<WeightedUtxo>, target: int, k: nat)
  {
    k <= |order| && Effective(costs, required) + Effective(costs, order[..k]) >= target
  }

  ghost predicate SomePrefixReaches(costs: Costs, required: seq<WeightedUtxo>, order: seq<WeightedUtxo>, target: int)
  {
    exists k: nat :: Reaches(costs, required, order, target, k)
  }

  function Tagged(tag: bool, ws: seq<WeightedUtxo>): seq<(bool, WeightedUtxo)>
  {
    seq(|ws|, i requires 0 <= i < |ws| => (tag, ws[i]))
  }

  /** Taking required outputs first is taking them all and then a prefix of the others. */
  lemma RequiredComeFirst(utxos: seq<(bool, WeightedUtxo)>, required: seq<WeightedUtxo>,
                          order: seq<WeightedUtxo>, costs: Costs, j: nat)
    requires utxos == Tagged(true, required) + Tagged(false, order) && j <= |order|
    ensures Items(utxos)[..|required| + j] == required + order[..j]
    ensures Effective(costs, Items(utxos)[..|required| + j])
         == Effective(costs, required) + Effective(costs, order[..j])
  {
    assert Items(utxos)[..|required| + j] == required + order[..j];
    SumByAppend(EffectiveOf(costs), required, order[..j]);
  }

  /** What drawing in a given order comes to: the required outputs and the shortest sufficient
      prefix of the others, or an error if no prefix suffices. */
  ghost predicate Draws(r: Selection, required: seq<WeightedUtxo>, order: seq<WeightedUtxo>, costs: Costs,
                        target: nat, taken: nat)
  {
    && taken <= |order|
    && (forall j :: 0 <= j < taken ==> !Reaches(costs, required, order, target, j))
    && match r
       case Selected(result) =>
         && Reaches(costs, required, order, target, taken)
         && Accounts(result, required + order[..taken], required, order, costs, target)
       case InsufficientFunds(needed, available) =>
         && available < needed
         && available == Value(required + order) && needed == target + Fees(costs, required + order)
         && taken == |order| && !Reaches(costs, required, order, target, taken)
  }

  method DrawInOrder(required: seq<WeightedUtxo>, order: seq<WeightedUtxo>, costs: Costs, target: nat)
    returns (r: Selection, ghost taken: nat)
    ensures Draws(r, required, order, costs, target, taken)
    ensures r.Selected? <==> SomePrefixReaches(costs, required, order, target)
    ensures r.InsufficientFunds? ==> r.available < r.needed
  {
    var utxos := Tagged(true, required) + Tagged(false, order);
    ghost var k;
    r, k := SelectSortedUtxos(utxos, costs, target);
    assert forall i :: 0 <= i < |required| ==> utxos[i].0;
    taken := k - |required|;
    forall j | 0 <= j < taken ensures !Reaches(costs, required, order, target, j) {
      assert !utxos[|required| + j].0;
      RequiredComeFirst(utxos, required, order, costs, j);
    }
    RequiredComeFirst(utxos, required, order, costs, taken);
    assert order[..|order|] == order;
    PrefixIsBetween(required, order, taken);
    DrawDecides(r, required, order, costs, target, taken);
  }

  lemma DrawDecides(r: Selection, required: seq<WeightedUtxo>, order: seq<WeightedUtxo>, costs: Costs,
                    target: nat, taken: nat)
    requires Draws(r, required, order, costs, target, taken)
    ensures r.Selected? <==> SomePrefixReaches(costs, required, order, target)
    ensures r.InsufficientFunds? ==> r.available < r.needed
  {}

  method SingleRandomDraw(required: seq<WeightedUtxo>, optional: seq<WeightedUtxo>, costs: Costs, target: nat,
                          rng: nat -> nat)
    returns (r: Selection, ghost taken: nat)
    ensures Draws(r, required, Shuffled(optional, Picks(rng, |optional|)), costs, target, taken)
    ensures r.Selected? <==> SomePrefixReaches(costs, required, Shuffled(optional, Picks(rng, |optional|)), target)
    ensures r.InsufficientFunds? ==> r.available < r.needed
    ensures r.Selected? ==>
      Accounts(r.result, required + Shuffled(optional, Picks(rng, |optional|))[..taken], required, optional, costs, target)
  {
    var list := new WeightedUtxo[|optional|](i requires 0 <= i < |optional| => optional[i]);
    assert list[..] == optional;
    ShuffleSlice(list, rng);
    r, taken := DrawInOrder(required, list[..], costs, target);
    ShuffledIsAPermutation(optional, Picks(rng, |optional|));
  }

  lemma PrefixIsBetween(required: seq<WeightedUtxo>, order: seq<WeightedUtxo>, k: nat)
    requires k <= |order|
    ensures multiset(required) <= multiset(required + order[..k]) <= multiset(required) + multiset(order)
  {
    assert order == order[..k] + order[k..];
  }

  // ----- branch and bound -----

  function EffectiveValues(groups: seq<OutputGroup>): seq<int>
  {
    seq(|groups|, i requires 0 <= i < |groups| => groups[i].effectiveValue)
  }

  /** The groups that a selection marks; groups past its end are not chosen. */
  function Picked(groups: seq<OutputGroup>, sel: seq<bool>): seq<OutputGroup>
    requires |sel| <= |groups|
  {
    if sel == [] then [] else
      var k := |sel| - 1;
      Picked(groups, sel[..k]) + if sel[k] then [groups[k]] else []
  }

  function GroupFee(): OutputGroup -> int { (g: OutputGroup) => g.fee }

  function GroupEffective(): OutputGroup -> int { (g: OutputGroup) => g.effectiveValue }

  function Members(groups: seq<OutputGroup>): seq<WeightedUtxo>
  {
    seq(|groups|, i requires 0 <= i < |groups| => groups[i].weightedUtxo)
  }

  /** The groups were made from these outputs under these costs. */
  ghost predicate MadeBy(groups: seq<OutputGroup>, costs: Costs)
  {
    forall i :: 0 <= i < |groups| ==> groups[i] == NewGroup(groups[i].weightedUtxo, costs)
  }

  lemma {:induction false} GroupAmounts(groups: seq<OutputGroup>, costs: Costs)
    requires MadeBy(groups, costs)
    ensures SumBy(GroupFee(), groups) == Fees(costs, Members(groups)) >= 0
    ensures SumBy(GroupEffective(), groups) == Effective(costs, Members(groups))
  {
    if groups != [] {
      assert Members(groups)[1..] == Members(groups[1..]);
      GroupAmounts(groups[1..], costs);
    }
  }

  function CalculateResult(selected: seq<OutputGroup>, required: seq<OutputGroup>, excess: Excess): CoinSelectionResult
    requires SumBy(GroupFee(), selected + required) >= 0
  {
    var all := selected + required;
    CoinSelectionResult(Utxos(Members(all)), SumBy(GroupFee(), all), excess)
  }

  ghost function ProblemOf(pool: seq<OutputGroup>, base: int, target: int, cost: int): Problem
  {
    Problem(EffectiveValues(pool), base, target, cost)
  }

  /** Walks back over omissions to the last inclusion, returning their values to the available sum. */
  method WalkBack(pool: seq<OutputGroup>, selection: seq<bool>, available: int)
    returns (selection': seq<bool>, available': int)
    requires |selection| <= |pool|
    ensures selection' == selection[..Stripped(selection)]
    ensures available' == available + Rest(EffectiveValues(pool), |selection'|) - Rest(EffectiveValues(pool), |selection|)
  {
    selection', available' := selection, available;
    while |selection'| > 0 && !selection'[|selection'| - 1]
      invariant |selection'| <= |selection| && selection' == selection[..|selection'|]
      invariant Stripped(selection') == Stripped(selection)
      invariant available' == available + Rest(EffectiveValues(pool), |selection'|) - Rest(EffectiveValues(pool), |selection|)
    {
      selection' := selection'[..|selection'| - 1];
      available' := available' + pool[|selection'|].effectiveValue;
    }
  }

  /** Moves to the omission branch of the last inclusion, if there is one. */
  method Backtrack(pool: seq<OutputGroup>, selection: seq<bool>, value: int, available: int)
    returns (selection': seq<bool>, value': int, available': int)
    requires |selection| <= |pool|
    ensures forall p: Problem, s: Node ::
      p.vals == EffectiveValues(pool) && s.sel == selection && s.value == value && s.avail == available ==>
        Retreat(p, s) == var s' := s.(sel := selection', value := value', avail := available');
                         if selection' == [] then Exhausted(s') else Going(s')
  {
    value' := value;
    selection', available' := WalkBack(pool, selection, available);
    if selection' != [] {
      assert selection'[..|selection'| - 1] == selection[..Stripped(selection) - 1];
      selection' := selection'[..|selection'| - 1] + [false];
      value' := value' - pool[|selection'| - 1].effectiveValue;
    }
  }

  /** The loop of the search over the pool in its search order. Returns what the step machine comes
      to within the allowed number of tries. */
  method BnbLoop(pool: seq<OutputGroup>, base: int, available: int, target: int, cost: int, tries: nat)
    returns (r: BnbResult)
    requires ProblemOf(pool, base, target, cost).Valid()
    requires available == Rest(EffectiveValues(pool), 0)
    ensures r == Solve(ProblemOf(pool, base, target, cost), tries)
    ensures Answers(ProblemOf(pool, base, target, cost), tries, r)
  {
    hide Consistent, Search, Answers;
    ghost var p := ProblemOf(pool, base, target, cost);
    StartIsConsistent(p);
    AnswersExactly(p, tries, Solve(p, tries));
    var currentSelection: seq<bool> := [];
    var currValue, currAvailable := base, available;
    var bestSelection: seq<bool> := [];
    var bestValue: Option<int> := None;
    ghost var goal := Search(p, Start(p), tries);
    ghost var stopped := false;

    for i := 0 to tries
      invariant !stopped && (bestSelection != [] ==> bestValue.Some?)
      invariant Consistent(p, Node(currentSelection, currValue, currAvailable, bestSelection, bestValue))
      invariant goal == Search(p, Node(currentSelection, currValue, currAvailable, bestSelection, bestValue), tries - i)
    {
      ghost var s := Node(currentSelection, currValue, currAvailable, bestSelection, bestValue);
      SearchUnfolds(p, s, tries - i);
      var backtrack := false;
      if currValue + currAvailable < target || currValue > target + cost {
        backtrack := true;
      } else if currValue >= target {
        backtrack := true;
        if bestValue.None? || currValue < bestValue.value {
          bestSelection := currentSelection;
          bestValue := Some(currValue);
        }
        if currValue == target {
          stopped := true;
          break;
        }
      }

      if backtrack {
        ghost var t := s.(bestSel := bestSelection, bestValue := bestValue);
        assert Step(p, s) == Retreat(p, t);
        currentSelection, currValue, currAvailable := Backtrack(pool, currentSelection, currValue, currAvailable);
        if currentSelection == [] {
          if bestSelection == [] {
            return NoExactMatch;
          }
          stopped := true;
          break;
        }
      } else {
        currAvailable := currAvailable - pool[|currentSelection|].effectiveValue;
        currValue := currValue + pool[|currentSelection|].effectiveValue;
        currentSelection := currentSelection + [true];
      }
    }

    if !stopped {
      SearchUnfolds(p, Node(currentSelection, currValue, currAvailable, bestSelection, bestValue), 0);
    }
    if bestSelection == [] {
      return TotalTriesExceeded;
    }
    r := Found(bestSelection, bestValue.value);
  }

  // ----- from masks to groups -----

  lemma {:induction false} RestIsTheSum(pool: seq<OutputGroup>, k: nat)
    requires k <= |pool|
    ensures Rest(EffectiveValues(pool), k) == SumBy(GroupEffective(), pool[k..])
    decreases |pool| - k
  {
    if k < |pool| {
      RestIsTheSum(pool, k + 1);
      SumBySplit(GroupEffective(), pool, k);
    }
  }

  /** The groups a mask picks total what the mask chooses, and are among the groups it decides on. */
  lemma {:induction false} PickedIsChosen(pool: seq<OutputGroup>, sel: seq<bool>)
    requires |sel| <= |pool|
    ensures SumBy(GroupEffective(), Picked(pool, sel)) == Chosen(EffectiveValues(pool), sel)
    ensures multiset(Picked(pool, sel)) <= multiset(pool[..|sel|])
  {
    if sel != [] {
      hide SumBy, EffectiveValues;
      var k := |sel| - 1;
      PickedIsChosen(pool, sel[..k]);
      PickOne(pool, Picked(pool, sel[..k]), k, sel[k]);
      EffectiveValueAt(pool, k);
      assert Picked(pool, sel) == Picked(pool, sel[..k]) + if sel[k] then [pool[k]] else [];
    }
  }

  lemma EffectiveValueAt(pool: seq<OutputGroup>, k: nat)
    requires k < |pool|
    ensures |EffectiveValues(pool)| == |pool| && EffectiveValues(pool)[k] == pool[k].effectiveValue
  {}

  lemma PickOne(pool: seq<OutputGroup>, picked: seq<OutputGroup>, k: nat, take: bool)
    requires k < |pool| && multiset(picked) <= multiset(pool[..k])
    ensures var picked' := picked + if take then [pool[k]] else [];
      && SumBy(GroupEffective(), picked') == SumBy(GroupEffective(), picked) + (if take then pool[k].effectiveValue else 0)
      && multiset(picked') <= multiset(pool[..k + 1])
  {
    assert pool[..k + 1] == pool[..k] + [pool[k]];
    if take {
      SumByAppend(GroupEffective(), picked, [pool[k]]);
      SumByTwo(GroupEffective(), pool[k], pool[k]);
    } else {
      assert picked + [] == picked;
    }
  }

  lemma {:induction false} MembersAreAmong(a: seq<OutputGroup>, b: seq<OutputGroup>)
    requires multiset(a) <= multiset(b)
    ensures multiset(Members(a)) <= multiset(Members(b))
  {
    if a != [] {
      assert a[0] in multiset(b);
      var j :| 0 <= j < |b| && b[j] == a[0];
      RemoveAtDropsOne(GroupFee(), a, 0);
      RemoveAtDropsOne(GroupFee(), b, j);
      MembersAreAmong(RemoveAt(a, 0), RemoveAt(b, j));
      MembersOfRemoved(a, 0);
      MembersOfRemoved(b, j);
    }
  }

  lemma MembersOfRemoved(b: seq<OutputGroup>, j: nat)
    requires j < |b|
    ensures multiset(Members(b)) == multiset(Members(RemoveAt(b, j))) + multiset{b[j].weightedUtxo}
  {
    assert Members(b) == Members(b)[..j] + [b[j].weightedUtxo] + Members(b)[j + 1..];
    assert Members(RemoveAt(b, j)) == Members(b)[..j] + Members(b)[j + 1..];
  }

  datatype BnbReturn = BnbOk(result: CoinSelectionResult) | BnbErr(error: BnbResult)

  ghost predicate Descending(pool: seq<OutputGroup>)
  {
    forall i, j :: 0 <= i < j < |pool| ==> pool[i].effectiveValue >= pool[j].effectiveValue
  }

  /** Branch and bound over the optional groups in order of decreasing effective value. */
  method Bnb(required: seq<OutputGroup>, optional: seq<OutputGroup>, currValue: int, currAvailable: int,
             target: nat, costs: Costs, tries: nat)
    returns (r: BnbReturn, ghost pool: seq<OutputGroup>)
    requires MadeBy(required, costs) && MadeBy(optional, costs)
    requires forall i :: 0 <= i < |optional| ==> optional[i].effectiveValue > 0
    requires currValue == SumBy(GroupEffective(), required) <= target
    requires currAvailable == SumBy(GroupEffective(), optional)
    ensures multiset(pool) == multiset(optional)
    ensures Descending(pool)
    ensures MadeBy(pool, costs) && ProblemOf(pool, currValue, target, costs.costOfChange).Valid()
    ensures var solved := Solve(ProblemOf(pool, currValue, target, costs.costOfChange), tries);
      if solved.Found? then
        && |solved.sel| <= |pool|
        && SumBy(GroupFee(), Picked(pool, solved.sel) + required) >= 0
        && solved.value >= target
        && r == BnbOk(CalculateResult(Picked(pool, solved.sel), required, DecideChange(solved.value - target, costs)))
      else r == BnbErr(solved)
    ensures r.BnbErr? ==> !r.error.Found?
  {
    hide Solve, Picked, SumBy, MadeBy, DecideChange, Descending, SortedBy, Chosen;
    var sorted := SortBy((g: OutputGroup) => -g.effectiveValue, optional);
    pool := sorted;
    SortedDescends(sorted);
    SortedKeepsGroups(optional, sorted, costs);
    var found := BnbLoop(sorted, currValue, currAvailable, target, costs.costOfChange, tries);
    if found.Found? {
      FoundIsASolution(ProblemOf(sorted, currValue, target, costs.costOfChange), tries);
      var chosen := Picked(sorted, found.sel);
      PickedIsMade(sorted, found.sel, costs);
      MadeTogether(chosen, required, costs);
      GroupAmounts(chosen + required, costs);
      r := BnbOk(CalculateResult(chosen, required, DecideChange(found.value - target, costs)));
    } else {
      r := BnbErr(found);
    }
  }

  lemma SortedDescends(sorted: seq<OutputGroup>)
    requires SortedBy((g: OutputGroup) => -g.effectiveValue, sorted)
    ensures Descending(sorted)
  {
    var key := (g: OutputGroup) => -g.effectiveValue;
    assert forall i, j :: 0 <= i < j < |sorted| ==> key(sorted[i]) <= key(sorted[j]);
  }

  lemma MadeTogether(a: seq<OutputGroup>, b: seq<OutputGroup>, costs: Costs)
    requires MadeBy(a, costs) && MadeBy(b, costs)
    ensures MadeBy(a + b, costs)
  {}

  lemma SortedKeepsGroups(optional: seq<OutputGroup>, sorted: seq<OutputGroup>, costs: Costs)
    requires multiset(sorted) == multiset(optional) && MadeBy(optional, costs)
    requires forall i :: 0 <= i < |optional| ==> optional[i].effectiveValue > 0
    ensures MadeBy(sorted, costs)
    ensures forall i :: 0 <= i < |sorted| ==> sorted[i].effectiveValue > 0
    ensures Rest(EffectiveValues(sorted), 0) == SumBy(GroupEffective(), optional)
  {
    forall i | 0 <= i < |sorted| ensures sorted[i] in optional {
      assert sorted[i] in multiset(sorted);
    }
    SumByPermutation(GroupEffective(), sorted, optional);
    RestIsTheSum(sorted, 0);
    assert sorted[0..] == sorted;
  }

  lemma {:induction false} PickedIsMade(pool: seq<OutputGroup>, sel: seq<bool>, costs: Costs)
    requires |sel| <= |pool| && MadeBy(pool, costs)
    ensures MadeBy(Picked(pool, sel), costs)
  {
    if sel != [] {
      PickedIsMade(pool, sel[..|sel| - 1], costs);
    }
  }

  // ----- the whole selection -----

  function Groups(ws: seq<WeightedUtxo>, costs: Costs): seq<OutputGroup>
  {
    seq(|ws|, i requires 0 <= i < |ws| => NewGroup(ws[i], costs))
  }

  /** The groups worth spending: those with positive effective value, in order. */
  function PositiveGroups(ws: seq<WeightedUtxo>, costs: Costs): seq<OutputGroup>
  {
    if ws == [] then [] else
      var g := NewGroup(ws[0], costs);
      (if g.effectiveValue > 0 then [g] else []) + PositiveGroups(ws[1..], costs)
  }

  function PositivePart(costs: Costs): WeightedUtxo -> int {
    (w: WeightedUtxo) => if EffectiveOf(costs)(w) > 0 then EffectiveOf(costs)(w) else 0
  }

  /** The effective value of all outputs with positive effective value. */
  ghost function PositiveEffective(costs: Costs, ws: seq<WeightedUtxo>): int { SumBy(PositivePart(costs), ws) }

  lemma {:induction false} PositiveGroupsTotal(ws: seq<WeightedUtxo>, costs: Costs)
    ensures SumBy(GroupEffective(), PositiveGroups(ws, costs)) == PositiveEffective(costs, ws)
  {
    if ws != [] {
      var g, tail := NewGroup(ws[0], costs), PositiveGroups(ws[1..], costs);
      PositiveGroupsTotal(ws[1..], costs);
      assert ([g] + tail)[1..] == tail && [] + tail == tail;
      assert EffectiveOf(costs)(ws[0]) == g.effectiveValue;
      assert PositivePart(costs)(ws[0]) == if g.effectiveValue > 0 then g.effectiveValue else 0;
      assert g.effectiveValue > 0 ==> SumBy(GroupEffective(), [g] + tail) == GroupEffective()(g) + SumBy(GroupEffective(), tail);
    }
  }

  lemma MembersOfCons(g: OutputGroup, tail: seq<OutputGroup>)
    ensures multiset(Members([g] + tail)) == multiset{g.weightedUtxo} + multiset(Members(tail))
  {
    assert Members([g] + tail) == [g.weightedUtxo] + Members(tail);
  }

  lemma {:induction false} PositiveGroupsMembers(ws: seq<WeightedUtxo>, costs: Costs)
    ensures multiset(Members(PositiveGroups(ws, costs))) <= multiset(ws)
  {
    if ws != [] {
      hide Members;
      var g, tail := NewGroup(ws[0], costs), PositiveGroups(ws[1..], costs);
      PositiveGroupsMembers(ws[1..], costs);
      HeadAndTail(ws);
      MembersOfCons(g, tail);
      assert [] + tail == tail;
    }
  }

  lemma HeadAndTail(ws: seq<WeightedUtxo>)
    requires ws != []
    ensures multiset(ws) == multiset{ws[0]} + multiset(ws[1..])
  {
    assert ws == [ws[0]] + ws[1..];
  }

  lemma {:induction false} PositiveGroupsAreMade(ws: seq<WeightedUtxo>, costs: Costs)
    ensures MadeBy(PositiveGroups(ws, costs), costs)
    ensures forall g <- PositiveGroups(ws, costs) :: g.effectiveValue > 0
  {
    if ws != [] {
      PositiveGroupsAreMade(ws[1..], costs);
    }
  }

  lemma PositiveGroupsOf(ws: seq<WeightedUtxo>, costs: Costs)
    ensures var gs := PositiveGroups(ws, costs);
      && MadeBy(gs, costs)
      && (forall i :: 0 <= i < |gs| ==> gs[i].effectiveValue > 0)
      && multiset(Members(gs)) <= multiset(ws)
      && SumBy(GroupEffective(), gs) == PositiveEffective(costs, ws)
  {
    PositiveGroupsAreMade(ws, costs);
    PositiveGroupsMembers(ws, costs);
    PositiveGroupsTotal(ws, costs);
  }

  lemma {:induction false} EffectiveIsBounded(costs: Costs, ws: seq<WeightedUtxo>)
    ensures Effective(costs, ws) <= PositiveEffective(costs, ws)
    ensures PositiveEffective(costs, ws) >= 0
    ensures (forall w <- ws :: EffectiveOf(costs)(w) >= 0) ==> PositiveEffective(costs, ws) == Effective(costs, ws)
  {
    if ws != [] {
      EffectiveIsBounded(costs, ws[1..]);
    }
  }

  /** No prefix in any order is worth more than the outputs with positive effective value. */
  lemma ReachingNeedsPositiveValue(costs: Costs, required: seq<WeightedUtxo>, optional: seq<WeightedUtxo>,
                                   order: seq<WeightedUtxo>, target: int)
    requires multiset(order) == multiset(optional) && SomePrefixReaches(costs, required, order, target)
    ensures Effective(costs, required) + PositiveEffective(costs, optional) >= target
  {
    var k: nat :| Reaches(costs, required, order, target, k);
    EffectiveIsBounded(costs, order[..k]);
    EffectiveIsBounded(costs, order[k..]);
    assert order == order[..k] + order[k..];
    SumByAppend(PositivePart(costs), order[..k], order[k..]);
    SumByPermutation(PositivePart(costs), order, optional);
  }

  /** A result of the branch and bound, or of the required outputs alone, accounts for its value. */
  lemma GroupsAccount(chosen: seq<OutputGroup>, required: seq<WeightedUtxo>, optional: seq<WeightedUtxo>,
                      costs: Costs, target: nat, total: int)
    requires MadeBy(chosen, costs) && multiset(Members(chosen)) <= multiset(optional)
    requires total == SumBy(GroupEffective(), chosen) + Effective(costs, required) >= target
    ensures SumBy(GroupFee(), chosen + Groups(required, costs)) >= 0
    ensures Accounts(CalculateResult(chosen, Groups(required, costs), DecideChange(total - target, costs)),
                     Members(chosen) + required, required, optional, costs, target)
    ensures Effective(costs, Members(chosen) + required) == total
  {
    hide Members, MadeBy, Utxos, Groups, DecideChange, SumBy;
    GroupsTotals(chosen, required, costs);
    assert multiset(Members(chosen) + required) == multiset(Members(chosen)) + multiset(required);
  }

  /** The amounts of chosen groups together with the required outputs. */
  lemma GroupsTotals(chosen: seq<OutputGroup>, required: seq<WeightedUtxo>, costs: Costs)
    requires MadeBy(chosen, costs)
    ensures var all, ws := chosen + Groups(required, costs), Members(chosen) + required;
      && Members(all) == ws
      && SumBy(GroupFee(), all) == Fees(costs, ws) >= 0
      && Effective(costs, ws) == SumBy(GroupEffective(), chosen) + Effective(costs, required) == Value(ws) - Fees(costs, ws)
  {
    var all := chosen + Groups(required, costs);
    assert Members(all) == Members(chosen) + required;
    assert MadeBy(all, costs);
    hide Members, MadeBy, Groups, SumBy;
    GroupAmounts(all, costs);
    GroupAmounts(chosen, costs);
    SumByAppend(EffectiveOf(costs), Members(chosen), required);
    AmountsAddUp(costs, Members(all));
  }

  lemma GroupsOfAll(ws: seq<WeightedUtxo>, costs: Costs)
    ensures MadeBy(Groups(ws, costs), costs)
    ensures SumBy(GroupEffective(), Groups(ws, costs)) == Effective(costs, ws)
    ensures SumBy(GroupFee(), Groups(ws, costs)) == Fees(costs, ws) >= 0
  {
    GroupAmounts(Groups(ws, costs), costs);
    assert Members(Groups(ws, costs)) == ws;
  }

  /** When a selection succeeds: some prefix of the drawn order reaches the target, or the search
      over the positive groups finds a combination in its window. */
  ghost predicate Succeeds(costs: Costs, required: seq<WeightedUtxo>, order: seq<WeightedUtxo>,
                           pool: seq<OutputGroup>, target: nat, tries: nat)
  {
    || SomePrefixReaches(costs, required, order, target)
    || var p := ProblemOf(pool, Effective(costs, required), target, costs.costOfChange);
       p.Valid() && Solve(p, tries).Found?
  }

  /** Whatever the search finds is what is spent: the random draw only decides when it finds nothing. */
  ghost predicate PrefersSearch(costs: Costs, required: seq<WeightedUtxo>, pool: seq<OutputGroup>, target: nat,
                                tries: nat, ws: seq<WeightedUtxo>)
  {
    var p := ProblemOf(pool, Effective(costs, required), target, costs.costOfChange);
    p.Valid() && Solve(p, tries).Found? ==> Effective(costs, ws) == Solve(p, tries).value
  }

  /** No selection that the walk meets within the cap has a smaller total than what is spent. */
  ghost predicate MeetsCap(r: Selection, ws: seq<WeightedUtxo>, required: seq<WeightedUtxo>, pool: seq<OutputGroup>,
                           costs: Costs, target: nat, tries: nat)
  {
    var p := ProblemOf(pool, Effective(costs, required), target, costs.costOfChange);
    p.Valid() && p.base < p.target ==>
      forall c :: Candidate(p, c) && Turn(p, c) < tries ==> r.Selected? && Effective(costs, ws) <= Total(p, c)
  }

  lemma CapIsMet(r: Selection, ws: seq<WeightedUtxo>, required: seq<WeightedUtxo>, order: seq<WeightedUtxo>,
                 pool: seq<OutputGroup>, costs: Costs, target: nat, tries: nat)
    requires PrefersSearch(costs, required, pool, target, tries, ws)
    requires r.Selected? <==> Succeeds(costs, required, order, pool, target, tries)
    ensures MeetsCap(r, ws, required, pool, costs, target, tries)
  {
    hide Solve, Candidate, Turn, SomePrefixReaches, Size;
    var p := ProblemOf(pool, Effective(costs, required), target, costs.costOfChange);
    if p.Valid() && p.base < p.target {
      SolveIsFirst(p, tries);
    }
  }

  /** What is spent, case by case. A wallet that cannot pay gets the shortfall of everything worth
      spending; required outputs above the target are spent alone; otherwise the groups that the
      search finds are spent with the required outputs, and if it finds none, the required outputs
      and the shortest sufficient prefix of the drawn order. */
  ghost predicate Chooses(r: Selection, ws: seq<WeightedUtxo>, required: seq<WeightedUtxo>, optional: seq<WeightedUtxo>,
                          order: seq<WeightedUtxo>, pool: seq<OutputGroup>, costs: Costs, target: nat, tries: nat, taken: nat)
  {
    var base := Effective(costs, required);
    var p := ProblemOf(pool, base, target, costs.costOfChange);
    if base + PositiveEffective(costs, optional) < target then
      FallsShort(r, required + Members(PositiveGroups(optional, costs)), costs, target)
    else if base > target then
      r.Selected? && ws == required
    else
      p.Valid() && Descending(pool) && SearchedOrDrawn(r, ws, required, order, pool, costs, target, Solve(p, tries), taken)
  }

  ghost predicate SearchedOrDrawn(r: Selection, ws: seq<WeightedUtxo>, required: seq<WeightedUtxo>,
                                  order: seq<WeightedUtxo>, pool: seq<OutputGroup>, costs: Costs, target: nat,
                                  solved: BnbResult, taken: nat)
  {
    if solved.Found? then
      r.Selected? && |solved.sel| <= |pool| && ws == Members(Picked(pool, solved.sel)) + required
    else
      Draws(r, required, order, costs, target, taken) && (r.Selected? ==> ws == required + order[..taken])
  }

  method CoinSelect(required: seq<WeightedUtxo>, optional: seq<WeightedUtxo>, costs: Costs, target: nat,
                    rng: nat -> nat, tries: nat)
    returns (r: Selection, ghost ws: seq<WeightedUtxo>, ghost pool: seq<OutputGroup>, ghost taken: nat)
    ensures r.Selected? ==> Accounts(r.result, ws, required, optional, costs, target)
    ensures r.Selected? && costs.dustThreshold > 0 ==> Conserved(r.result, target)
    ensures r.InsufficientFunds? ==> r.available < r.needed
    ensures multiset(pool) == multiset(PositiveGroups(optional, costs))
    ensures r.Selected? <==> Succeeds(costs, required, Shuffled(optional, Picks(rng, |optional|)), pool, target, tries)
    ensures Effective(costs, required) + PositiveEffective(costs, optional) < target ==>
      FallsShort(r, required + Members(PositiveGroups(optional, costs)), costs, target)
    ensures Chooses(r, ws, required, optional, Shuffled(optional, Picks(rng, |optional|)), pool, costs, target, tries, taken)
    ensures PrefersSearch(costs, required, pool, target, tries, ws)
    ensures MeetsCap(r, ws, required, pool, costs, target, tries)
  {
    hide MeetsCap, SearchedOrDrawn, Reaches;
    hide Solve, Accounts, Conserved, FallsShort, Members, SumBy, Groups, SomePrefixReaches, MadeBy, PositiveGroups, DecideChange, Shuffled, Picks, Descending;
    var requiredGroups := Groups(required, costs);
    var optionalGroups := PositiveGroups(optional, costs);
    var currValue := SumBy(GroupEffective(), requiredGroups);
    var currAvailable := SumBy(GroupEffective(), optionalGroups);
    GroupsOfAll(required, costs);
    PositiveGroupsOf(optional, costs);
    pool, ws, taken := optionalGroups, required, 0;

    if currAvailable + currValue < target {
      MembersOfBoth(required, optionalGroups, costs);
      r := Shortfall(requiredGroups, optionalGroups, costs, target);
      ShuffledIsAPermutation(optional, Picks(rng, |optional|));
      NothingSucceeds(costs, required, optional, Shuffled(optional, Picks(rng, |optional|)), pool, target, tries);
    } else if currValue > target {
      NoMembers(required, costs);
      GroupsAccount([], required, optional, costs, target, currValue);
      r := Selected(CalculateResult([], requiredGroups, DecideChange(currValue - target, costs)));
      Conserves(r, ws, required, optional, costs, target);
      RequiredReach(costs, required, Shuffled(optional, Picks(rng, |optional|)), target);
    } else {
      r, ws, pool, taken := SearchThenDraw(required, optional, costs, target, rng, tries);
    }
    CapIsMet(r, ws, required, Shuffled(optional, Picks(rng, |optional|)), pool, costs, target, tries);
  }

  /** The error of a wallet that cannot pay: everything worth spending against the target and its fees. */
  ghost predicate FallsShort(r: Selection, spendable: seq<WeightedUtxo>, costs: Costs, target: nat)
  {
    r.InsufficientFunds? && r.needed == target + Fees(costs, spendable) && r.available == Value(spendable)
  }

  lemma RequiredReach(costs: Costs, required: seq<WeightedUtxo>, order: seq<WeightedUtxo>, target: int)
    requires Effective(costs, required) >= target
    ensures SomePrefixReaches(costs, required, order, target)
  {
    assert Reaches(costs, required, order, target, 0);
  }

  lemma NoMembers(required: seq<WeightedUtxo>, costs: Costs)
    ensures MadeBy([], costs) && Members([]) + required == required && multiset(Members([])) == multiset{} && SumBy(GroupEffective(), []) == 0
  {}

  lemma MembersOfBoth(required: seq<WeightedUtxo>, optional: seq<OutputGroup>, costs: Costs)
    ensures Members(Groups(required, costs) + optional) == required + Members(optional)
  {}

  method Shortfall(required: seq<OutputGroup>, optional: seq<OutputGroup>, costs: Costs, target: nat)
    returns (r: Selection)
    requires MadeBy(required, costs) && MadeBy(optional, costs)
    requires SumBy(GroupEffective(), required) + SumBy(GroupEffective(), optional) < target
    ensures r.InsufficientFunds? && r.available < r.needed
    ensures FallsShort(r, Members(required + optional), costs, target)
  {
    var all := required + optional;
    GroupAmounts(all, costs);
    AmountsAddUp(costs, Members(all));
    SumByAppend(GroupEffective(), required, optional);
    r := InsufficientFunds(target + SumBy(GroupFee(), all), Value(Members(all)));
  }

  /** Below the total of all outputs worth spending, nothing succeeds. */
  lemma NothingSucceeds(costs: Costs, required: seq<WeightedUtxo>, optional: seq<WeightedUtxo>,
                        order: seq<WeightedUtxo>, pool: seq<OutputGroup>, target: nat, tries: nat)
    requires multiset(order) == multiset(optional)
    requires multiset(pool) == multiset(PositiveGroups(optional, costs))
    requires Effective(costs, required) + PositiveEffective(costs, optional) < target
    ensures !Succeeds(costs, required, order, pool, target, tries)
  {
    if SomePrefixReaches(costs, required, order, target) {
      ReachingNeedsPositiveValue(costs, required, optional, order, target);
    }
    var p := ProblemOf(pool, Effective(costs, required), target, costs.costOfChange);
    if p.Valid() && Solve(p, tries).Found? {
      FoundIsASolution(p, tries);
      var b :| Solution(p, b);
      assert b[..0] == [];
      SubtreeBounds(p.vals, [], b);
      RestIsTheSum(pool, 0);
      assert pool[0..] == pool;
      SumByPermutation(GroupEffective(), pool, PositiveGroups(optional, costs));
      PositiveGroupsTotal(optional, costs);
    }
  }

  /** The search over the groups of the given outputs. */
  method SearchGroups(required: seq<WeightedUtxo>, optional: seq<WeightedUtxo>, costs: Costs, target: nat, tries: nat)
    returns (found: Option<CoinSelectionResult>, ghost ws: seq<WeightedUtxo>, ghost pool: seq<OutputGroup>)
    requires Effective(costs, required) <= target
    ensures multiset(pool) == multiset(PositiveGroups(optional, costs))
    ensures var p := ProblemOf(pool, Effective(costs, required), target, costs.costOfChange);
      p.Valid() && (found.Some? <==> Solve(p, tries).Found?)
    ensures found.Some? ==> Accounts(found.value, ws, required, optional, costs, target)
    ensures found.Some? && costs.dustThreshold > 0 ==> Conserved(found.value, target)
    ensures Descending(pool) && PrefersSearch(costs, required, pool, target, tries, ws)
    ensures var solved := Solve(ProblemOf(pool, Effective(costs, required), target, costs.costOfChange), tries);
      found.Some? ==> |solved.sel| <= |pool| && ws == Members(Picked(pool, solved.sel)) + required
  {
    hide Solve, Accounts, Conserved, MadeBy, Members, Picked, DecideChange, SumBy;
    var requiredGroups := Groups(required, costs);
    var optionalGroups := PositiveGroups(optional, costs);
    GroupsOfAll(required, costs);
    PositiveGroupsOf(optional, costs);
    var bnb;
    bnb, pool := Bnb(requiredGroups, optionalGroups, SumBy(GroupEffective(), requiredGroups),
                     SumBy(GroupEffective(), optionalGroups), target, costs, tries);
    ws := [];
    if bnb.BnbErr? {
      return None, ws, pool;
    }
    ws := FoundAccounts(required, optional, pool, costs, target, tries);
    found := Some(bnb.result);
    Conserves(Selected(bnb.result), ws, required, optional, costs, target);
  }

  /** The search, and the random draw when it fails. */
  method SearchThenDraw(required: seq<WeightedUtxo>, optional: seq<WeightedUtxo>, costs: Costs, target: nat,
                        rng: nat -> nat, tries: nat)
    returns (r: Selection, ghost ws: seq<WeightedUtxo>, ghost pool: seq<OutputGroup>, ghost taken: nat)
    requires Effective(costs, required) <= target
    ensures r.Selected? ==> Accounts(r.result, ws, required, optional, costs, target)
    ensures r.Selected? && costs.dustThreshold > 0 ==> Conserved(r.result, target)
    ensures r.InsufficientFunds? ==> r.available < r.needed
    ensures multiset(pool) == multiset(PositiveGroups(optional, costs))
    ensures r.Selected? <==> Succeeds(costs, required, Shuffled(optional, Picks(rng, |optional|)), pool, target, tries)
    ensures Descending(pool) && PrefersSearch(costs, required, pool, target, tries, ws)
    ensures var p := ProblemOf(pool, Effective(costs, required), target, costs.costOfChange);
      p.Valid() && SearchedOrDrawn(r, ws, required, Shuffled(optional, Picks(rng, |optional|)), pool, costs, target, Solve(p, tries), taken)
  {
    hide Solve, Accounts, Conserved;
    var found;
    taken := 0;
    found, ws, pool := SearchGroups(required, optional, costs, target, tries);
    if found.Some? {
      r := Selected(found.value);
    } else {
      r, taken := SingleRandomDraw(required, optional, costs, target, rng);
      ghost var order := Shuffled(optional, Picks(rng, |optional|));
      ws := required + order[..taken];
    }
    Conserves(r, ws, required, optional, costs, target);
  }

  /** What the search finds accounts for its value. */
  lemma FoundAccounts(required: seq<WeightedUtxo>, optional: seq<WeightedUtxo>, pool: seq<OutputGroup>, costs: Costs,
                      target: nat, tries: nat)
    returns (ws: seq<WeightedUtxo>)
    requires multiset(pool) == multiset(PositiveGroups(optional, costs)) && MadeBy(pool, costs)
    requires var p := ProblemOf(pool, Effective(costs, required), target, costs.costOfChange);
      p.Valid() && Solve(p, tries).Found?
    ensures var p := ProblemOf(pool, Effective(costs, required), target, costs.costOfChange);
      var Found(sel, total) := Solve(p, tries);
      && |sel| <= |pool| && total >= target
      && SumBy(GroupFee(), Picked(pool, sel) + Groups(required, costs)) >= 0
      && Accounts(CalculateResult(Picked(pool, sel), Groups(required, costs), DecideChange(total - target, costs)),
                  ws, required, optional, costs, target)
      && ws == Members(Picked(pool, sel)) + required && Effective(costs, ws) == total
  {
    hide Solve, Picked, Members, Accounts, SumBy, PositiveGroups, Chosen, MadeBy, CalculateResult, DecideChange, Groups, Solution, Effective;
    var p := ProblemOf(pool, Effective(costs, required), target, costs.costOfChange);
    FoundIsASolution(p, tries);
    var Found(sel, total) := Solve(p, tries);
    PickedIsChosen(pool, sel);
    PickedIsMade(pool, sel, costs);
    PickedIsAmong(pool, sel, PositiveGroups(optional, costs));
    PositiveGroupsMembers(optional, costs);
    GroupsAccount(Picked(pool, sel), required, optional, costs, target, total);
    ws := Members(Picked(pool, sel)) + required;
  }

  lemma PickedIsAmong(pool: seq<OutputGroup>, sel: seq<bool>, groups: seq<OutputGroup>)
    requires |sel| <= |pool| && multiset(pool) == multiset(groups)
    ensures multiset(Members(Picked(pool, sel))) <= multiset(Members(groups))
  {
    PickedIsChosen(pool, sel);
    assert pool == pool[..|sel|] + pool[|sel|..];
    MembersAreAmong(Picked(pool, sel), groups);
  }
}
