/** The watch-only wallet of crates/wallet/src/watch_wallet.rs: its set of outputs, its balance, and
    the amounts and inputs of the transactions it builds. Key derivation and signing stay outside:
    a script the wallet can spend from is given. */
module Wallet {
  import opened Basics
  import opened BranchAndBound
  import opened Shuffle
  import opened CoinSelection

  datatype PubkeyDetails = PubkeyDetails(isExternal: bool, depth: nat)

  /** An output as it travels between the node and the wallet. */
  datatype PartialUtxo = PartialUtxo(outpoint: OutPoint, amount: nat, script: Script, isSpent: bool)

  datatype TxOutput = TxOutput(script: Script, value: nat)

  datatype Transaction = Transaction(inputs: seq<OutPoint>, outputs: seq<TxOutput>)

  type UtxoMap = map<OutPoint, WeightedUtxo>

  // ----- what is unspent, and what it is worth -----

  /** The unspent outputs with their amounts. */
  ghost function Unspent(m: UtxoMap): map<OutPoint, nat>
  {
    map op | op in m && !m[op].utxo.isSpent :: m[op].utxo.value
  }

  /** The sum of the values of a map. */
  ghost function Total<K>(m: map<K, nat>): nat
    decreases |m|
  {
    if m == map[] then 0 else
      var k :| k in m;
      assert |m - {k}| < |m| by { assert (m - {k}).Keys == m.Keys - {k}; }
      m[k] + Total(m - {k})
  }

  /** The sum does not depend on which key is taken first. */
  lemma {:induction false} TotalTakes<K>(m: map<K, nat>, k: K)
    requires k in m
    ensures Total(m) == m[k] + Total(m - {k})
    decreases |m|
  {
    var j :| j in m && Total(m) == m[j] + Total(m - {j});
    assert (m - {j}).Keys == m.Keys - {j};
    if j != k {
      TotalTakes(m - {j}, k);
      assert (m - {k}).Keys == m.Keys - {k};
      TotalTakes(m - {k}, j);
      assert m - {j} - {k} == m - {k} - {j};
    }
  }

  lemma {:induction false} TotalOfUnion<K>(m: map<K, nat>, n: map<K, nat>)
    requires m.Keys !! n.Keys
    ensures Total(m + n) == Total(m) + Total(n)
    decreases |n|
  {
    if n == map[] {
      assert m + n == m;
    } else {
      hide Total;
      var k :| k in n;
      assert (n - {k}).Keys == n.Keys - {k};
      TotalOfUnion(m, n - {k});
      TotalTakes(n, k);
      TotalTakes(m + n, k);
      UnionWithout(m, n, k);
    }
  }

  lemma UnionWithout<K>(m: map<K, nat>, n: map<K, nat>, k: K)
    requires k in n && m.Keys !! n.Keys
    ensures m + n - {k} == m + (n - {k})
  {}

  /** Taking keys out and putting others in: the previous total, less what went, plus what came. */
  lemma TotalMoves<K>(m: map<K, nat>, gone: set<K>, came: map<K, nat>)
    requires came.Keys !! m.Keys
    ensures Total((m - gone) + came) == Total(m) - Total(map k | k in m && k in gone :: m[k]) + Total(came)
  {
    var out := map k | k in m && k in gone :: m[k];
    assert (m - gone) + out == m;
    TotalOfUnion(m - gone, out);
    TotalOfUnion(m - gone, came);
  }

  // ----- inserting -----

  /** One entry: a known output only changes whether it is spent, an unknown one must pay to a known script. */
  ghost function InsertOne(m: UtxoMap, p: PartialUtxo): UtxoMap
  {
    if p.outpoint in m then
      var w := m[p.outpoint];
      m[p.outpoint := w.(utxo := w.utxo.(isSpent := p.isSpent))]
    else
      m[p.outpoint := WeightedUtxo(Utxo(p.outpoint, p.amount, p.script, p.isSpent), 0)]
  }

  ghost function InsertAll(m: UtxoMap, ps: seq<PartialUtxo>): UtxoMap
  {
    if ps == [] then m else InsertOne(InsertAll(m, ps[..|ps| - 1]), ps[|ps| - 1])
  }

  ghost predicate FirstFor(ps: seq<PartialUtxo>, op: OutPoint, i: int)
  {
    0 <= i < |ps| && ps[i].outpoint == op && forall j :: 0 <= j < i ==> ps[j].outpoint != op
  }

  ghost predicate LastFor(ps: seq<PartialUtxo>, op: OutPoint, i: int)
  {
    0 <= i < |ps| && ps[i].outpoint == op && forall j :: i < j < |ps| ==> ps[j].outpoint != op
  }

  ghost predicate NoneFor(ps: seq<PartialUtxo>, op: OutPoint) { forall i :: 0 <= i < |ps| ==> ps[i].outpoint != op }

  /** What becomes of one output: its amount and script are those of the map, or else of its first entry; the last
      entry says whether it is spent; and without an entry nothing changes. */
  ghost predicate Inserted(m: UtxoMap, ps: seq<PartialUtxo>, m': UtxoMap, op: OutPoint)
  {
    && (NoneFor(ps, op) ==> (op in m' <==> op in m) && (op in m ==> m'[op] == m[op]))
    && (forall i :: LastFor(ps, op, i) ==> op in m' && m'[op].utxo.isSpent == ps[i].isSpent)
    && (op in m ==> op in m' && m'[op] == m[op].(utxo := m[op].utxo.(isSpent := m'[op].utxo.isSpent)))
    && (op !in m ==> forall i :: FirstFor(ps, op, i) ==>
          op in m' && m'[op] == WeightedUtxo(Utxo(op, ps[i].amount, ps[i].script, m'[op].utxo.isSpent), 0))
  }

  lemma {:induction false} InsertedIs(m: UtxoMap, ps: seq<PartialUtxo>, op: OutPoint)
    ensures Inserted(m, ps, InsertAll(m, ps), op)
  {
    hide *;
    if ps == [] {
      NothingInserted(m, op);
    } else {
      var n := |ps| - 1;
      InsertedIs(m, ps[..n], op);
      InsertUnfolds(m, ps);
      InsertOneTells(InsertAll(m, ps[..n]), ps[n], op);
      InsertStep(m, ps, InsertAll(m, ps[..n]), InsertAll(m, ps), op);
    }
  }

  lemma NothingInserted(m: UtxoMap, op: OutPoint)
    ensures Inserted(m, [], InsertAll(m, []), op)
  {}

  lemma InsertUnfolds(m: UtxoMap, ps: seq<PartialUtxo>)
    requires ps != []
    ensures InsertAll(m, ps) == InsertOne(InsertAll(m, ps[..|ps| - 1]), ps[|ps| - 1])
  {}

  /** What one entry does to one output. */
  ghost predicate OneTells(m: UtxoMap, p: PartialUtxo, m': UtxoMap, op: OutPoint)
  {
    if p.outpoint != op then (op in m' <==> op in m) && (op in m ==> m'[op] == m[op])
    else && op in m' && m'[op].utxo.isSpent == p.isSpent
         && m'[op] == if op in m then m[op].(utxo := m[op].utxo.(isSpent := p.isSpent))
                      else WeightedUtxo(Utxo(op, p.amount, p.script, p.isSpent), 0)
  }

  lemma InsertOneTells(m: UtxoMap, p: PartialUtxo, op: OutPoint)
    ensures OneTells(m, p, InsertOne(m, p), op)
  {}

  lemma InsertStep(m: UtxoMap, ps: seq<PartialUtxo>, m1: UtxoMap, m2: UtxoMap, op: OutPoint)
    requires ps != [] && Inserted(m, ps[..|ps| - 1], m1, op) && OneTells(m1, ps[|ps| - 1], m2, op)
    ensures Inserted(m, ps, m2, op)
  {
    hide FirstFor, LastFor, NoneFor;
    ForPush(ps, op);
    var n := |ps| - 1;
    var front := ps[..n];
    forall i | LastFor(ps, op, i) ensures 0 <= i < |ps| && op in m2 && m2[op].utxo.isSpent == ps[i].isSpent {
      EntryBounds(ps, op, i);
      if ps[n].outpoint != op {
        EntryBounds(front, op, i);
        assert front[i] == ps[i];
      }
    }
    forall i | op !in m && FirstFor(ps, op, i)
      ensures 0 <= i < |ps| && op in m2 && m2[op] == WeightedUtxo(Utxo(op, ps[i].amount, ps[i].script, m2[op].utxo.isSpent), 0)
    {
      EntryBounds(ps, op, i);
      if FirstFor(front, op, i) {
        EntryBounds(front, op, i);
        assert front[i] == ps[i];
      }
    }
  }

  lemma EntryBounds(ps: seq<PartialUtxo>, op: OutPoint, i: int)
    ensures FirstFor(ps, op, i) || LastFor(ps, op, i) ==> 0 <= i < |ps|
  {}

  lemma ForPush(ps: seq<PartialUtxo>, op: OutPoint)
    requires ps != []
    ensures var n := |ps| - 1; var front := ps[..n];
      && (NoneFor(ps, op) <==> NoneFor(front, op) && ps[n].outpoint != op)
      && (forall i :: LastFor(ps, op, i) <==> if ps[n].outpoint == op then i == n else LastFor(front, op, i))
      && (forall i :: FirstFor(ps, op, i) <==> FirstFor(front, op, i) || (i == n && NoneFor(front, op) && ps[n].outpoint == op))
      && (NoneFor(front, op) || exists i :: FirstFor(front, op, i))
  {
    var n := |ps| - 1;
    var front := ps[..n];
    assert forall j :: 0 <= j < n ==> front[j] == ps[j];
    if !NoneFor(front, op) {
      var i := FirstEntry(front, op, n);
    }
  }

  lemma {:induction false} FirstEntry(ps: seq<PartialUtxo>, op: OutPoint, n: nat) returns (i: nat)
    requires n <= |ps| && exists j :: 0 <= j < n && ps[j].outpoint == op
    ensures FirstFor(ps, op, i)
  {
    if exists j :: 0 <= j < n - 1 && ps[j].outpoint == op {
      i := FirstEntry(ps, op, n - 1);
    } else {
      i := n - 1;
    }
  }

  /** The entries of a map, each once, in some order. */
  ghost predicate Lists(ws: seq<WeightedUtxo>, m: UtxoMap)
  {
    && (forall i :: 0 <= i < |ws| ==> ws[i].utxo.outpoint in m && ws[i] == m[ws[i].utxo.outpoint])
    && (forall i, j :: 0 <= i < j < |ws| ==> ws[i].utxo.outpoint != ws[j].utxo.outpoint)
    && (forall op <- m :: m[op] in ws)
  }

  class WatchOnly {
    var pubkeyMap: map<Script, PubkeyDetails>
    var utxoMap: UtxoMap
    var receiveDepth: nat
    var changeDepth: nat

    ghost predicate Valid()
      reads this
    {
      && (forall op <- utxoMap :: utxoMap[op].utxo.outpoint == op)
      && (forall op <- utxoMap :: utxoMap[op].utxo.script in pubkeyMap)
    }

    constructor ()
      ensures Valid() && pubkeyMap == map[] && utxoMap == map[]
    {
      pubkeyMap, utxoMap, receiveDepth, changeDepth := map[], map[], 0, 0;
    }

    /** Stores outputs in order; stops with an error at one that pays to an unknown script, keeping
        those before it. */
    method InsertUtxos(ps: seq<PartialUtxo>) returns (ok: bool)
      requires Valid()
      modifies this`utxoMap
      ensures Valid()
      ensures ok ==> utxoMap == InsertAll(old(utxoMap), ps)
      ensures (forall p <- ps :: p.script in pubkeyMap) ==> ok
      ensures !ok ==> exists i :: 0 <= i < |ps| && utxoMap == InsertAll(old(utxoMap), ps[..i]) && ps[i].outpoint !in utxoMap && ps[i].script !in pubkeyMap
    {
      assert ps[..0] == [] && ps[..|ps|] == ps;
      for i := 0 to |ps|
        invariant Valid() && utxoMap == InsertAll(old(utxoMap), ps[..i])
      {
        assert ps[..i + 1][..i] == ps[..i];
        var p := ps[i];
        if p.outpoint in utxoMap {
          var w := utxoMap[p.outpoint];
          utxoMap := utxoMap[p.outpoint := w.(utxo := w.utxo.(isSpent := p.isSpent))];
        } else {
          if p.script !in pubkeyMap {
            return false;
          }
          utxoMap := utxoMap[p.outpoint := WeightedUtxo(Utxo(p.outpoint, p.amount, p.script, p.isSpent), 0)];
        }
      }
      return true;
    }

    /** All stored outputs, each once, in no particular order. */
    method ListUtxos() returns (ws: seq<WeightedUtxo>)
      requires Valid()
      ensures Lists(ws, utxoMap)
    {
      ws := [];
      var pending := utxoMap.Keys;
      while pending != {}
        invariant pending <= utxoMap.Keys
        invariant forall i :: 0 <= i < |ws| ==> ws[i].utxo.outpoint in utxoMap.Keys - pending && ws[i] == utxoMap[ws[i].utxo.outpoint]
        invariant forall i, j :: 0 <= i < j < |ws| ==> ws[i].utxo.outpoint != ws[j].utxo.outpoint
        invariant forall op <- utxoMap :: op !in pending ==> utxoMap[op] in ws
        decreases pending
      {
        var op :| op in pending;
        ws := ws + [utxoMap[op]];
        pending := pending - {op};
      }
    }

    /** The sum of the unspent outputs. */
    method Balance() returns (balance: nat)
      requires Valid()
      ensures balance == Total(Unspent(utxoMap))
    {
      balance := 0;
      var pending := utxoMap.Keys;
      ghost var left := Unspent(utxoMap);
      while pending != {}
        invariant pending <= utxoMap.Keys
        invariant left == map op | op in Unspent(utxoMap) && op in pending :: Unspent(utxoMap)[op]
        invariant balance + Total(left) == Total(Unspent(utxoMap))
        decreases pending
      {
        var op :| op in pending;
        pending := pending - {op};
        if !utxoMap[op].utxo.isSpent {
          TotalTakes(left, op);
          balance := balance + utxoMap[op].utxo.value;
        } else {
          assert left - {op} == left;
        }
        left := left - {op};
      }
      assert left == map[];
    }

    /** Builds the inputs and outputs of a payment: a fresh change script, a coin selection over all
        stored outputs, the payment and, if the excess allows it, a change output. */
    method CreateTransaction(recipient: Script, amount: nat, changeScript: Script, costs: Costs, rng: nat -> nat)
      returns (r: Option<Transaction>, ghost all: seq<WeightedUtxo>, ghost pool: seq<OutputGroup>,
               ghost selection: Selection, ghost ws: seq<WeightedUtxo>, ghost taken: nat)
      requires Valid() && costs.dustThreshold > 0
      modifies this`pubkeyMap, this`changeDepth
      ensures Valid() && changeDepth == old(changeDepth) + 1
      ensures pubkeyMap == old(pubkeyMap)[changeScript := PubkeyDetails(true, receiveDepth)]
      ensures Lists(all, utxoMap) && multiset(pool) == multiset(PositiveGroups(all, costs))
      ensures r.Some? <==> Succeeds(costs, [], Shuffled(all, Picks(rng, |all|)), pool, amount, 100_000)
      ensures r.Some? ==> Pays(r.value, utxoMap, costs, recipient, amount, changeScript)
      ensures r.Some? <==> selection.Selected?
      ensures Chooses(selection, ws, [], all, Shuffled(all, Picks(rng, |all|)), pool, costs, amount, 100_000, taken)
      ensures r.Some? ==> Spends(r.value, ws)
    {
      hide Accounts, Succeeds, Pays, Lists, PositiveGroups, PrefersSearch, Chooses, MeetsCap, Spends;
      pubkeyMap := pubkeyMap[changeScript := PubkeyDetails(true, receiveDepth)];
      changeDepth := changeDepth + 1;
      all := [];
      var utxos := ListUtxos();
      var selected;
      selected, ws, pool, taken := CoinSelect([], utxos, costs, amount, rng, BNB_TOTAL_TRIES);
      all, selection := utxos, selected;
      if selected.InsufficientFunds? {
        return None, all, pool, selection, ws, taken;
      }
      r := Some(Build(selected.result, recipient, amount, changeScript));
      SelectedPays(selected.result, ws, utxos, utxoMap, costs, recipient, amount, changeScript);
    }
  }

  /** Every selected output as an input, the payment, and the change if there is any. */
  function Build(result: CoinSelectionResult, recipient: Script, amount: nat, changeScript: Script): Transaction
  {
    Transaction(seq(|result.selected|, i requires 0 <= i < |result.selected| => result.selected[i].outpoint),
                [TxOutput(recipient, amount)] +
                match result.excess
                case Change(change, _) => [TxOutput(changeScript, change)]
                case NoChange(_, _, _) => [])
  }

  function OutputValue(): TxOutput -> int { (o: TxOutput) => o.value }

  ghost function InputValue(m: UtxoMap): OutPoint -> int { (op: OutPoint) => if op in m then m[op].utxo.value else 0 }

  ghost function InputFee(m: UtxoMap, costs: Costs): OutPoint -> int {
    (op: OutPoint) => if op in m then costs.inputFee(m[op].satisfactionWeight) else 0
  }

  /** What the inputs leave over after their fees and the payment. */
  ghost function Spare(tx: Transaction, m: UtxoMap, costs: Costs, amount: nat): int
  {
    SumBy(InputValue(m), tx.inputs) - SumBy(InputFee(m, costs), tx.inputs) - amount
  }

  /** The transaction spends distinct stored outputs that cover the payment and their own fees. It
      pays the amount to the recipient, and what is left over after a further fee to the change
      script, unless that would be dust. */
  ghost predicate Pays(tx: Transaction, m: UtxoMap, costs: Costs, recipient: Script, amount: nat, changeScript: Script)
  {
    && (forall i :: 0 <= i < |tx.inputs| ==> tx.inputs[i] in m)
    && (forall i, j :: 0 <= i < j < |tx.inputs| ==> tx.inputs[i] != tx.inputs[j])
    && var spare := Spare(tx, m, costs, amount);
       && spare >= 0
       && tx.outputs == [TxOutput(recipient, amount)] +
         if spare < costs.changeFee + costs.dustThreshold then []
         else [TxOutput(changeScript, spare - costs.changeFee)]
  }

  /** Inputs less outputs is exactly the accounted fee: of the inputs, and of the change output or
      the excess that is too small for one. */
  lemma FeeIsAccounted(tx: Transaction, m: UtxoMap, costs: Costs, recipient: Script, amount: nat, changeScript: Script)
    requires Pays(tx, m, costs, recipient, amount, changeScript)
    ensures var spare := Spare(tx, m, costs, amount);
      SumBy(InputValue(m), tx.inputs) - SumBy(OutputValue(), tx.outputs) ==
        SumBy(InputFee(m, costs), tx.inputs) +
        if spare < costs.changeFee + costs.dustThreshold then spare else costs.changeFee
  {
    var spare := Spare(tx, m, costs, amount);
    if spare < costs.changeFee + costs.dustThreshold {
      SumByTwo(OutputValue(), tx.outputs[0], tx.outputs[0]);
      assert tx.outputs == [tx.outputs[0]];
    } else {
      SumByTwo(OutputValue(), tx.outputs[0], tx.outputs[1]);
      assert tx.outputs == [tx.outputs[0], tx.outputs[1]];
    }
  }

  lemma CountTwice<T>(s: seq<T>, i: nat, j: nat)
    requires i < j < |s| && s[i] == s[j]
    ensures multiset(s)[s[i]] >= 2
  {
    assert s == s[..j] + [s[j]] + s[j + 1..];
    assert s[i] in multiset(s[..j]) by {
      assert s[..j][i] == s[i];
    }
  }

  lemma {:induction false} CountOnce(s: seq<WeightedUtxo>, x: WeightedUtxo)
    requires forall i, j :: 0 <= i < j < |s| ==> s[i] != s[j]
    ensures multiset(s)[x] <= 1
  {
    if s != [] {
      var n := |s| - 1;
      CountOnce(s[..n], x);
      assert s == s[..n] + [s[n]];
      assert x == s[n] ==> x !in s[..n];
    }
  }

  /** A selection among outputs with different outpoints spends different outpoints. */
  lemma SelectedAreDistinct(ws: seq<WeightedUtxo>, all: seq<WeightedUtxo>, i: nat, j: nat)
    requires multiset(ws) <= multiset(all) && i < j < |ws|
    requires forall a, b :: 0 <= a < b < |all| ==> all[a].utxo.outpoint != all[b].utxo.outpoint
    ensures ws[i] in all && ws[j] in all && ws[i].utxo.outpoint != ws[j].utxo.outpoint
  {
    assert ws[i] in multiset(ws) && ws[j] in multiset(ws);
    var a :| 0 <= a < |all| && all[a] == ws[i];
    var b :| 0 <= b < |all| && all[b] == ws[j];
    if a == b {
      CountTwice(ws, i, j);
      CountOnce(all, ws[i]);
    }
  }

  lemma {:induction false} InputAmounts(m: UtxoMap, costs: Costs, ws: seq<WeightedUtxo>, inputs: seq<OutPoint>)
    requires |inputs| == |ws|
    requires forall i :: 0 <= i < |ws| ==> inputs[i] == ws[i].utxo.outpoint && inputs[i] in m && m[inputs[i]] == ws[i]
    ensures SumBy(InputValue(m), inputs) == Value(ws)
    ensures SumBy(InputFee(m, costs), inputs) == Fees(costs, ws)
  {
    if ws != [] {
      InputAmounts(m, costs, ws[1..], inputs[1..]);
      assert InputValue(m)(inputs[0]) == ValueOf()(ws[0]);
      assert InputFee(m, costs)(inputs[0]) == FeeOf(costs)(ws[0]);
    }
  }

  /** What is selected among the stored outputs is stored, each once. */
  lemma SelectedAreStored(ws: seq<WeightedUtxo>, all: seq<WeightedUtxo>, m: UtxoMap)
    requires Lists(all, m) && multiset(ws) <= multiset(all)
    ensures forall i :: 0 <= i < |ws| ==> ws[i].utxo.outpoint in m && m[ws[i].utxo.outpoint] == ws[i]
    ensures forall i, j :: 0 <= i < j < |ws| ==> ws[i].utxo.outpoint != ws[j].utxo.outpoint
  {
    forall i | 0 <= i < |ws| ensures ws[i].utxo.outpoint in m && m[ws[i].utxo.outpoint] == ws[i] {
      assert ws[i] in multiset(ws);
      assert ws[i] in all;
    }
    forall i, j | 0 <= i < j < |ws| ensures ws[i].utxo.outpoint != ws[j].utxo.outpoint {
      SelectedAreDistinct(ws, all, i, j);
    }
  }

  /** The inputs are the chosen outputs, in order. */
  ghost predicate Spends(tx: Transaction, ws: seq<WeightedUtxo>)
  {
    |tx.inputs| == |ws| && forall i :: 0 <= i < |ws| ==> tx.inputs[i] == ws[i].utxo.outpoint
  }

  lemma BuildSpends(result: CoinSelectionResult, ws: seq<WeightedUtxo>, recipient: Script, amount: nat, changeScript: Script)
    requires result.selected == Utxos(ws)
    ensures Spends(Build(result, recipient, amount, changeScript), ws)
  {}

  /** A selection that accounts for its value makes a transaction that pays. */
  lemma SelectedPays(result: CoinSelectionResult, ws: seq<WeightedUtxo>, all: seq<WeightedUtxo>, m: UtxoMap, costs: Costs,
                     recipient: Script, amount: nat, changeScript: Script)
    requires Accounts(result, ws, [], all, costs, amount) && costs.dustThreshold > 0
    requires Lists(all, m)
    ensures Pays(Build(result, recipient, amount, changeScript), m, costs, recipient, amount, changeScript)
    ensures Spends(Build(result, recipient, amount, changeScript), ws)
  {
    hide Lists, Utxos, Value, Fees, InputValue, InputFee, SumBy;
    assert multiset(ws) <= multiset(all);
    var tx := Build(result, recipient, amount, changeScript);
    SelectedAreStored(ws, all, m);
    BuildSpends(result, ws, recipient, amount, changeScript);
    InputAmounts(m, costs, ws, tx.inputs);
  }
}
