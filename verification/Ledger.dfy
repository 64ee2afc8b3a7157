/** What a transaction does to the outputs a wallet can spend, transaction by transaction, and what
    the scan of node/src/chain.rs makes of a range of transactions with one snapshot of the wallet. */
module Ledger {
  import opened Basics
  import opened Bytes
  import opened CoinSelection
  import opened Wallet

  datatype TxOut = TxOut(satoshis: nat, script: Script)

  /** A transaction under the id the node computes for it. */
  datatype Tx = Tx(id: Hash, inputs: seq<OutPoint>, outputs: seq<TxOut>)

  type Keys = set<Script>
  type Coins = map<OutPoint, nat>

  const NO_HASH: Hash := ToLE(0, 32)

  lemma {:induction false} ZerosOf(w: nat, i: nat)
    requires i < w
    ensures ToLE(0, w)[i] == 0
  {
    if i > 0 {
      ZerosOf(w - 1, i - 1);
    }
  }

  /** The hash that a coinbase input spends from: 32 zero bytes. */
  lemma NullHash(h: Hash)
    ensures h == NO_HASH <==> |h| == 32 && forall i :: 0 <= i < 32 ==> h[i] == 0
  {
    forall i | 0 <= i < 32 ensures NO_HASH[i] == 0 {
      ZerosOf(32, i);
    }
    hide ToLE;
  }

  // ----- the specification -----

  ghost function PointSet(ops: seq<OutPoint>): set<OutPoint> { set op | op in ops }

  ghost function InputSet(tx: Tx): set<OutPoint> { PointSet(tx.inputs) }

  /** What the first k outputs of a transaction give to the wallet. */
  ghost function Created(tx: Tx, keys: Keys, k: nat): Coins
    requires k <= |tx.outputs|
  {
    if k == 0 then map[] else
      var m := Created(tx, keys, k - 1);
      if tx.outputs[k - 1].script in keys then m[OutPoint(tx.id, k - 1) := tx.outputs[k - 1].satoshis] else m
  }

  ghost function Gains(tx: Tx, keys: Keys): Coins { Created(tx, keys, |tx.outputs|) }

  /** A transaction takes what it spends and adds what it pays to the wallet. */
  ghost function ApplyTx(u: Coins, tx: Tx, keys: Keys): Coins { (u - InputSet(tx)) + Gains(tx, keys) }

  ghost function Apply(u: Coins, txs: seq<Tx>, keys: Keys): Coins
  {
    if txs == [] then u else ApplyTx(Apply(u, txs[..|txs| - 1], keys), txs[|txs| - 1], keys)
  }

  lemma {:induction false} ApplyAppend(u: Coins, a: seq<Tx>, b: seq<Tx>, keys: Keys)
    ensures Apply(u, a + b, keys) == Apply(Apply(u, a, keys), b, keys)
  {
    if b == [] {
      assert a + b == a;
    } else {
      var n := |b| - 1;
      assert (a + b)[..|a + b| - 1] == a + b[..n];
      ApplyAppend(u, a, b[..n], keys);
    }
  }

  /** Everything a list of transactions spends, and everything it pays to the wallet. */
  ghost function AllInputs(txs: seq<Tx>): set<OutPoint>
  {
    if txs == [] then {} else AllInputs(txs[..|txs| - 1]) + InputSet(txs[|txs| - 1])
  }

  ghost function AllGains(txs: seq<Tx>, keys: Keys): Coins
  {
    if txs == [] then map[] else AllGains(txs[..|txs| - 1], keys) + Gains(txs[|txs| - 1], keys)
  }

  lemma {:induction false} AllAppend(a: seq<Tx>, b: seq<Tx>, keys: Keys)
    ensures AllInputs(a + b) == AllInputs(a) + AllInputs(b)
    ensures AllGains(a + b, keys) == AllGains(a, keys) + AllGains(b, keys)
  {
    hide Gains, InputSet;
    if b == [] {
      assert a + b == a;
    } else {
      var n := |b| - 1;
      AllAppend(a, b[..n], keys);
      AllPush(a, b, keys);
      MapsAssociate(AllGains(a, keys), AllGains(b[..n], keys), Gains(b[n], keys));
    }
  }

  lemma AllPush(a: seq<Tx>, b: seq<Tx>, keys: Keys)
    requires b != []
    ensures var n := |b| - 1;
      && AllInputs(a + b) == AllInputs(a + b[..n]) + InputSet(b[n])
      && AllGains(a + b, keys) == AllGains(a + b[..n], keys) + Gains(b[n], keys)
  {
    hide Gains, InputSet;
    assert (a + b)[..|a + b| - 1] == a + b[..|b| - 1];
  }

  lemma MapsAssociate(a: Coins, b: Coins, c: Coins)
    ensures a + b + c == a + (b + c)
  {}

  lemma {:induction false} CreatedIsOwn(tx: Tx, keys: Keys, k: nat)
    requires k <= |tx.outputs|
    ensures forall op <- Created(tx, keys, k) :: op.txid == tx.id && op.vout < k && tx.outputs[op.vout].script in keys
  {
    if k > 0 {
      CreatedIsOwn(tx, keys, k - 1);
    }
  }

  lemma {:induction false} CreatedAre(tx: Tx, keys: Keys, k: nat, i: nat)
    requires i < k <= |tx.outputs|
    ensures OutPoint(tx.id, i) in Created(tx, keys, k) <==> tx.outputs[i].script in keys
    ensures tx.outputs[i].script in keys ==> Created(tx, keys, k)[OutPoint(tx.id, i)] == tx.outputs[i].satoshis
  {
    if i + 1 < k {
      CreatedAre(tx, keys, k - 1, i);
    } else {
      CreatedIsOwn(tx, keys, k - 1);
    }
  }

  /** The output is one of the transaction that pays to the wallet. */
  ghost predicate PaysOut(tx: Tx, keys: Keys, op: OutPoint)
  {
    op.txid == tx.id && op.vout < |tx.outputs| && tx.outputs[op.vout].script in keys
  }

  /** A transaction gives the wallet exactly its outputs with a script of the wallet, at their amounts. */
  lemma GainsAre(tx: Tx, keys: Keys, op: OutPoint)
    ensures op in Gains(tx, keys) <==> PaysOut(tx, keys, op)
    ensures PaysOut(tx, keys, op) ==> Gains(tx, keys)[op] == tx.outputs[op.vout].satoshis
  {
    CreatedIsOwn(tx, keys, |tx.outputs|);
    if op.txid == tx.id && op.vout < |tx.outputs| {
      CreatedAre(tx, keys, |tx.outputs|, op.vout);
      assert op == OutPoint(tx.id, op.vout);
    }
  }

  /** Transaction i is the last that pays the output, and no later one spends it. */
  ghost predicate PaidLast(txs: seq<Tx>, keys: Keys, op: OutPoint, i: int)
  {
    && 0 <= i < |txs| && PaysOut(txs[i], keys, op)
    && forall j :: i < j < |txs| ==> !PaysOut(txs[j], keys, op) && op !in txs[j].inputs
  }

  /** The output was there and none of the transactions touches it. */
  ghost predicate Untouched(u: Coins, txs: seq<Tx>, keys: Keys, op: OutPoint)
  {
    op in u && forall j :: 0 <= j < |txs| ==> !PaysOut(txs[j], keys, op) && op !in txs[j].inputs
  }

  /** What the wallet has after some transactions, said of each output: it has those that it had and no
      transaction touched, and those that were paid to it and not spent since, at the amount that was paid. */
  lemma {:induction false} FateOf(u: Coins, txs: seq<Tx>, keys: Keys, op: OutPoint)
    ensures op in Apply(u, txs, keys) <==> Untouched(u, txs, keys, op) || exists i :: PaidLast(txs, keys, op, i)
    ensures Untouched(u, txs, keys, op) ==> Apply(u, txs, keys)[op] == u[op]
    ensures forall i :: PaidLast(txs, keys, op, i) ==> Apply(u, txs, keys)[op] == txs[i].outputs[op.vout].satoshis
  {
    if txs != [] {
      var n := |txs| - 1;
      FateOf(u, txs[..n], keys, op);
      GainsAre(txs[n], keys, op);
      FateStep(u, txs, keys, op);
    }
  }

  lemma FateStep(u: Coins, txs: seq<Tx>, keys: Keys, op: OutPoint)
    requires txs != []
    ensures var n := |txs| - 1;
      && (PaidLast(txs, keys, op, n) <==> PaysOut(txs[n], keys, op))
      && (forall i :: i != n ==> (PaidLast(txs, keys, op, i) <==>
            PaidLast(txs[..n], keys, op, i) && !PaysOut(txs[n], keys, op) && op !in txs[n].inputs))
      && (Untouched(u, txs, keys, op) <==>
            Untouched(u, txs[..n], keys, op) && !PaysOut(txs[n], keys, op) && op !in txs[n].inputs)
  {
    hide PaysOut;
    var n := |txs| - 1;
    forall i | i != n ensures PaidLast(txs, keys, op, i) <==>
        PaidLast(txs[..n], keys, op, i) && !PaysOut(txs[n], keys, op) && op !in txs[n].inputs
    {
      assert forall j :: i < j < n && 0 <= j ==> txs[..n][j] == txs[j];
    }
  }

  ghost predicate GainedAt(txs: seq<Tx>, keys: Keys, op: OutPoint, i: int)
  {
    0 <= i < |txs| && op in Gains(txs[i], keys)
  }

  lemma {:induction false} GainsAreOwn(txs: seq<Tx>, keys: Keys, op: OutPoint)
    requires op in AllGains(txs, keys)
    ensures exists i :: GainedAt(txs, keys, op, i)
  {
    hide Gains;
    var n := |txs| - 1;
    if op in Gains(txs[n], keys) {
      assert GainedAt(txs, keys, op, n);
    } else {
      GainsAreOwn(txs[..n], keys, op);
      var i :| GainedAt(txs[..n], keys, op, i);
      assert GainedAt(txs, keys, op, i);
    }
  }

  lemma {:induction false} InputIsSpent(txs: seq<Tx>, op: OutPoint)
    requires op in AllInputs(txs)
    ensures exists j :: 0 <= j < |txs| && op in txs[j].inputs
  {
    var n := |txs| - 1;
    if op in txs[n].inputs {
    } else {
      InputIsSpent(txs[..n], op);
      var j :| 0 <= j < n && op in txs[..n][j].inputs;
      assert op in txs[j].inputs;
    }
  }

  /** If nothing is spent in the range that creates it, the transactions of the range act together. */
  lemma {:induction false} ApplyAtOnce(u: Coins, txs: seq<Tx>, keys: Keys)
    requires AllGains(txs, keys).Keys !! AllInputs(txs)
    ensures Apply(u, txs, keys) == (u - AllInputs(txs)) + AllGains(txs, keys)
  {
    if txs == [] {
      assert u - {} + map[] == u;
    } else {
      var n := |txs| - 1;
      ApplyAtOnce(u, txs[..n], keys);
      hide Gains, InputSet, Apply;
      assert Apply(u, txs, keys) == ApplyTx(Apply(u, txs[..n], keys), txs[n], keys) by { ApplyUnfolds(u, txs, keys); }
      OneByOne(u, AllInputs(txs[..n]), AllGains(txs[..n], keys), InputSet(txs[n]), Gains(txs[n], keys));
    }
  }

  lemma ApplyUnfolds(u: Coins, txs: seq<Tx>, keys: Keys)
    requires txs != []
    ensures Apply(u, txs, keys) == ApplyTx(Apply(u, txs[..|txs| - 1], keys), txs[|txs| - 1], keys)
  {}

  lemma OneByOne(u: Coins, spent: set<OutPoint>, gained: Coins, inputs: set<OutPoint>, gains: Coins)
    requires gained.Keys !! inputs
    ensures ((u - spent) + gained - inputs) + gains == (u - (spent + inputs)) + (gained + gains)
  {}

  ghost predicate DistinctIds(txs: seq<Tx>)
  {
    forall i, j :: 0 <= i < j < |txs| ==> txs[i].id != txs[j].id
  }

  lemma DistinctAppend(a: seq<Tx>, b: seq<Tx>)
    ensures DistinctIds(a + b) <==>
      DistinctIds(a) && DistinctIds(b) && forall x, y :: x in a && y in b ==> x.id != y.id
  {
    var s := a + b;
    if DistinctIds(s) {
      forall i, j | 0 <= i < j < |a| ensures a[i].id != a[j].id {
        assert s[i] == a[i] && s[j] == a[j];
      }
      forall i, j | 0 <= i < j < |b| ensures b[i].id != b[j].id {
        assert s[|a| + i] == b[i] && s[|a| + j] == b[j];
      }
      forall x, y | x in a && y in b ensures x.id != y.id {
        var i :| 0 <= i < |a| && a[i] == x;
        var j :| 0 <= j < |b| && b[j] == y;
        assert s[i] == x && s[|a| + j] == y;
      }
    }
  }

  /** An output is spent after the transaction that creates it. */
  ghost predicate Causal(txs: seq<Tx>)
  {
    forall i, j, op :: 0 <= i < |txs| && 0 <= j < |txs| && op in txs[j].inputs && op.txid == txs[i].id ==> i < j
  }

  /** No output is spent twice. */
  ghost predicate SpentOnce(txs: seq<Tx>)
  {
    forall i, j, op :: 0 <= i < j < |txs| && op in txs[i].inputs && op.txid != NO_HASH ==> op !in txs[j].inputs
  }

  /** Outputs are spent after they are created, and once. */
  ghost predicate Orderly(txs: seq<Tx>) { Causal(txs) && SpentOnce(txs) }

  lemma OrderlyPrefix(a: seq<Tx>, b: seq<Tx>)
    requires Orderly(a + b)
    ensures Orderly(a)
  {
    forall i, j, op | 0 <= i < |a| && 0 <= j < |a| && op in a[j].inputs && op.txid == a[i].id ensures i < j {
      assert (a + b)[i] == a[i] && (a + b)[j] == a[j];
    }
    forall i, j, op | 0 <= i < j < |a| && op in a[i].inputs && op.txid != NO_HASH ensures op !in a[j].inputs {
      assert (a + b)[i] == a[i] && (a + b)[j] == a[j];
    }
  }

  /** An output that was created and spent and is still counted. */
  ghost predicate Stuck(u: Coins, txs: seq<Tx>, op: OutPoint)
  {
    && op in u && op.txid != NO_HASH
    && (exists i :: 0 <= i < |txs| && txs[i].id == op.txid)
    && (exists j :: 0 <= j < |txs| && op in txs[j].inputs)
  }

  /** An output that is stuck stays so: nothing spends it again. */
  lemma StaysStuck(u: Coins, a: seq<Tx>, b: seq<Tx>, keys: Keys, op: OutPoint)
    requires Stuck(u, a, op) && SpentOnce(a + b)
    ensures Stuck((u - AllInputs(b)) + AllGains(b, keys), a + b, op)
  {
    var i :| 0 <= i < |a| && a[i].id == op.txid;
    var j :| 0 <= j < |a| && op in a[j].inputs;
    assert (a + b)[i] == a[i] && (a + b)[j] == a[j];
    forall x | 0 <= x < |b| ensures op !in b[x].inputs {
      assert (a + b)[|a| + x] == b[x];
    }
    if op in AllInputs(b) {
      InputIsSpent(b, op);
    }
  }

  /** A range that is not calm leaves an output stuck. */
  lemma GetsStuck(u: Coins, a: seq<Tx>, b: seq<Tx>, keys: Keys) returns (op: OutPoint)
    requires !(AllGains(b, keys).Keys !! AllInputs(b)) && forall tx <- b :: tx.id != NO_HASH
    ensures Stuck((u - AllInputs(b)) + AllGains(b, keys), a + b, op)
  {
    op :| op in AllGains(b, keys) && op in AllInputs(b);
    GainIds(b, keys, op);
    var i :| 0 <= i < |b| && op.txid == b[i].id;
    InputIsSpent(b, op);
    var j :| 0 <= j < |b| && op in b[j].inputs;
    assert (a + b)[|a| + i] == b[i] && (a + b)[|a| + j] == b[j];
  }

  /** What is stuck is not what the transactions leave. */
  lemma StuckIsWrong(u: Coins, before: Coins, txs: seq<Tx>, keys: Keys, op: OutPoint)
    requires Stuck(u, txs, op) && Causal(txs) && DistinctIds(txs)
    ensures u != Apply(before, txs, keys)
  {
    var j :| 0 <= j < |txs| && op in txs[j].inputs;
    SpentIsGone(before, txs, keys, op, j);
  }

  /** What is spent and not created again is gone. */
  lemma {:induction false} SpentIsGone(u: Coins, txs: seq<Tx>, keys: Keys, op: OutPoint, j: nat)
    requires j < |txs| && op in txs[j].inputs
    requires forall i :: j <= i < |txs| ==> txs[i].id != op.txid
    ensures op !in Apply(u, txs, keys)
  {
    var n := |txs| - 1;
    CreatedIsOwn(txs[n], keys, |txs[n].outputs|);
    if j < n {
      SpentIsGone(u, txs[..n], keys, op, j);
    }
  }

  // ----- the scan -----

  /** The outputs of a transaction that pay to the wallet, as new entries. */
  ghost function CreatedList(tx: Tx, keys: Keys, k: nat): seq<PartialUtxo>
    requires k <= |tx.outputs|
  {
    if k == 0 then [] else
      var o := tx.outputs[k - 1];
      CreatedList(tx, keys, k - 1) +
      if o.script in keys then [PartialUtxo(OutPoint(tx.id, k - 1), o.satoshis, o.script, false)] else []
  }

  /** The entries of the first n stored outputs that an input spends, marked as spent. */
  ghost function MatchList(stored: seq<PartialUtxo>, op: OutPoint, n: nat): seq<PartialUtxo>
    requires n <= |stored|
  {
    if n == 0 then [] else
      MatchList(stored, op, n - 1) +
      if stored[n - 1].outpoint == op then [stored[n - 1].(isSpent := true)] else []
  }

  ghost function SpentList(tx: Tx, stored: seq<PartialUtxo>, k: nat): seq<PartialUtxo>
    requires k <= |tx.inputs|
  {
    if k == 0 then [] else
      SpentList(tx, stored, k - 1) +
      if tx.inputs[k - 1].txid == NO_HASH then [] else MatchList(stored, tx.inputs[k - 1], |stored|)
  }

  ghost function ScanTx(tx: Tx, keys: Keys, stored: seq<PartialUtxo>): seq<PartialUtxo>
  {
    CreatedList(tx, keys, |tx.outputs|) + SpentList(tx, stored, |tx.inputs|)
  }

  ghost function Scan(txs: seq<Tx>, keys: Keys, stored: seq<PartialUtxo>): seq<PartialUtxo>
  {
    if txs == [] then [] else
      Scan(txs[..|txs| - 1], keys, stored) + ScanTx(txs[|txs| - 1], keys, stored)
  }

  method ScanOutputs(tx: Tx, keys: Keys) returns (found: seq<PartialUtxo>)
    ensures found == CreatedList(tx, keys, |tx.outputs|)
  {
    found := [];
    for i := 0 to |tx.outputs|
      invariant found == CreatedList(tx, keys, i)
    {
      if tx.outputs[i].script in keys {
        found := found + [PartialUtxo(OutPoint(tx.id, i), tx.outputs[i].satoshis, tx.outputs[i].script, false)];
      }
    }
  }

  method ScanInputs(tx: Tx, stored: seq<PartialUtxo>) returns (found: seq<PartialUtxo>)
    ensures found == SpentList(tx, stored, |tx.inputs|)
  {
    hide SpentList;
    found := [];
    NoInputs(tx, stored);
    for i := 0 to |tx.inputs|
      invariant found == SpentList(tx, stored, i)
    {
      SpentUnfolds(tx, stored, i + 1);
      if tx.inputs[i].txid != NO_HASH {
        ghost var before := found;
        for j := 0 to |stored|
          invariant found == before + MatchList(stored, tx.inputs[i], j)
        {
          if stored[j].outpoint == tx.inputs[i] {
            found := found + [stored[j].(isSpent := true)];
          }
        }
      }
    }
  }

  lemma NoInputs(tx: Tx, stored: seq<PartialUtxo>)
    ensures SpentList(tx, stored, 0) == []
  {}

  method ScanTransactions(txs: seq<Tx>, keys: Keys, stored: seq<PartialUtxo>) returns (found: seq<PartialUtxo>)
    ensures found == Scan(txs, keys, stored)
  {
    found := [];
    assert txs[..0] == [] && txs[..|txs|] == txs;
    for i := 0 to |txs|
      invariant found == Scan(txs[..i], keys, stored)
    {
      assert txs[..i + 1][..i] == txs[..i];
      var created := ScanOutputs(txs[i], keys);
      var spent := ScanInputs(txs[i], stored);
      found := found + (created + spent);
    }
  }

  // ----- what inserting the found entries does -----

  lemma {:induction false} InsertAppend(m: UtxoMap, a: seq<PartialUtxo>, b: seq<PartialUtxo>)
    ensures InsertAll(m, a + b) == InsertAll(InsertAll(m, a), b)
  {
    if b == [] {
      assert a + b == a;
    } else {
      assert (a + b)[..|a + b| - 1] == a + b[..|b| - 1];
      InsertAppend(m, a, b[..|b| - 1]);
    }
  }

  lemma InsertNew(m: UtxoMap, p: PartialUtxo)
    requires p.outpoint !in m && !p.isSpent
    ensures InsertOne(m, p).Keys == m.Keys + {p.outpoint}
    ensures Unspent(InsertOne(m, p)) == Unspent(m)[p.outpoint := p.amount]
  {}

  lemma InsertMark(m: UtxoMap, p: PartialUtxo)
    requires p.outpoint in m && p.isSpent
    ensures InsertOne(m, p).Keys == m.Keys
    ensures Unspent(InsertOne(m, p)) == Unspent(m) - {p.outpoint}
  {}

  lemma InsertPush(m: UtxoMap, ps: seq<PartialUtxo>, p: PartialUtxo)
    ensures InsertAll(m, ps + [p]) == InsertOne(InsertAll(m, ps), p)
  {
    assert (ps + [p])[..|ps|] == ps;
  }

  lemma AddPush(u: Coins, c: Coins, op: OutPoint, v: nat)
    ensures (u + c)[op := v] == u + c[op := v]
  {}

  /** New entries of outputs not stored yet add exactly what the transaction gives. */
  lemma {:induction false} InsertCreated(m: UtxoMap, tx: Tx, keys: Keys, k: nat)
    requires k <= |tx.outputs| && forall op <- m :: op.txid != tx.id
    ensures var m' := InsertAll(m, CreatedList(tx, keys, k));
      && m'.Keys == m.Keys + Created(tx, keys, k).Keys
      && Unspent(m') == Unspent(m) + Created(tx, keys, k)
  {
    if k > 0 {
      hide Unspent, InsertOne, InsertAll, Created, CreatedList;
      InsertCreated(m, tx, keys, k - 1);
      NotYetCreated(m, tx, keys, k - 1);
      CreatedUnfolds(tx, keys, k);
      var o := tx.outputs[k - 1];
      if o.script in keys {
        InsertNext(m, CreatedList(tx, keys, k - 1), Created(tx, keys, k - 1),
                   PartialUtxo(OutPoint(tx.id, k - 1), o.satoshis, o.script, false));
      }
    } else {
      assert Unspent(m) + map[] == Unspent(m);
    }
  }

  lemma InsertNext(m: UtxoMap, list: seq<PartialUtxo>, created: Coins, p: PartialUtxo)
    requires InsertAll(m, list).Keys == m.Keys + created.Keys && Unspent(InsertAll(m, list)) == Unspent(m) + created
    requires p.outpoint !in m.Keys + created.Keys && !p.isSpent
    ensures InsertAll(m, list + [p]).Keys == m.Keys + created[p.outpoint := p.amount].Keys
    ensures Unspent(InsertAll(m, list + [p])) == Unspent(m) + created[p.outpoint := p.amount]
  {
    hide Unspent, InsertOne, InsertAll;
    InsertPush(m, list, p);
    InsertNew(InsertAll(m, list), p);
    AddPush(Unspent(m), created, p.outpoint, p.amount);
  }

  lemma NotYetCreated(m: UtxoMap, tx: Tx, keys: Keys, k: nat)
    requires k < |tx.outputs| && forall op <- m :: op.txid != tx.id
    ensures OutPoint(tx.id, k) !in m.Keys + Created(tx, keys, k).Keys
  {
    CreatedIsOwn(tx, keys, k);
  }

  lemma CreatedUnfolds(tx: Tx, keys: Keys, k: nat)
    requires 0 < k <= |tx.outputs|
    ensures var o := tx.outputs[k - 1];
      if o.script in keys then
        && Created(tx, keys, k) == Created(tx, keys, k - 1)[OutPoint(tx.id, k - 1) := o.satoshis]
        && CreatedList(tx, keys, k) == CreatedList(tx, keys, k - 1) + [PartialUtxo(OutPoint(tx.id, k - 1), o.satoshis, o.script, false)]
      else
        Created(tx, keys, k) == Created(tx, keys, k - 1) && CreatedList(tx, keys, k) == CreatedList(tx, keys, k - 1)
  {}

  ghost function Outpoints(ps: seq<PartialUtxo>): set<OutPoint> { set p | p in ps :: p.outpoint }

  lemma OutpointsAppend(a: seq<PartialUtxo>, b: seq<PartialUtxo>)
    ensures Outpoints(a + b) == Outpoints(a) + Outpoints(b)
  {}

  lemma OutpointsOfOne(p: PartialUtxo)
    ensures Outpoints([p]) == {p.outpoint} && Outpoints([]) == {}
  {}

  /** Entries of stored outputs that are marked as spent take exactly those outputs away. */
  lemma {:induction false} InsertSpent(m: UtxoMap, ps: seq<PartialUtxo>)
    requires forall p <- ps :: p.isSpent && p.outpoint in m
    ensures InsertAll(m, ps).Keys == m.Keys
    ensures Unspent(InsertAll(m, ps)) == Unspent(m) - Outpoints(ps)
  {
    hide Unspent, InsertOne, Outpoints;
    if ps == [] {
      OutpointsOfOne(PartialUtxo(OutPoint([], 0), 0, [], true));
      assert Unspent(m) - {} == Unspent(m);
    } else {
      var n := |ps| - 1;
      InsertSpent(m, ps[..n]);
      InsertMark(InsertAll(m, ps[..n]), ps[n]);
      assert ps == ps[..n] + [ps[n]];
      OutpointsAppend(ps[..n], [ps[n]]);
      OutpointsOfOne(ps[n]);
      assert Unspent(m) - Outpoints(ps[..n]) - {ps[n].outpoint} == Unspent(m) - Outpoints(ps);
    }
  }

  /** The entries found for an input: marked as spent, and there if the output is stored. */
  lemma {:induction false} MatchesOf(stored: seq<PartialUtxo>, op: OutPoint, n: nat)
    requires n <= |stored|
    ensures forall p <- MatchList(stored, op, n) :: p.isSpent
    ensures Outpoints(MatchList(stored, op, n)) == Outpoints(stored[..n]) * {op}
  {
    if n > 0 {
      MatchesOf(stored, op, n - 1);
      var p := stored[n - 1];
      assert stored[..n] == stored[..n - 1] + [p];
      hide Outpoints;
      OutpointsAppend(stored[..n - 1], [p]);
      OutpointsOfOne(p);
      OutpointsOfOne(p.(isSpent := true));
      if p.outpoint == op {
        OutpointsAppend(MatchList(stored, op, n - 1), [p.(isSpent := true)]);
      } else {
        assert MatchList(stored, op, n) == MatchList(stored, op, n - 1);
      }
    }
  }

  lemma PointSetPush(ops: seq<OutPoint>, k: nat)
    requires k < |ops|
    ensures PointSet(ops[..k + 1]) == PointSet(ops[..k]) + {ops[k]}
  {
    assert ops[..k + 1] == ops[..k] + [ops[k]];
  }

  ghost predicate AllSpent(ps: seq<PartialUtxo>) { forall p <- ps :: p.isSpent }

  lemma AllSpentAppend(a: seq<PartialUtxo>, b: seq<PartialUtxo>)
    requires AllSpent(a) && AllSpent(b)
    ensures AllSpent(a + b)
  {}

  lemma {:induction false} SpentAreSpent(tx: Tx, stored: seq<PartialUtxo>, k: nat)
    requires k <= |tx.inputs|
    ensures AllSpent(SpentList(tx, stored, k))
  {
    hide *;
    if k == 0 {
      NoneSpent(tx, stored);
    } else {
      SpentAreSpent(tx, stored, k - 1);
      SpentUnfolds(tx, stored, k);
      MatchesAreSpent(stored, tx.inputs[k - 1]);
      AllSpentAppend(SpentList(tx, stored, k - 1), MatchList(stored, tx.inputs[k - 1], |stored|));
    }
  }

  lemma NoneSpent(tx: Tx, stored: seq<PartialUtxo>)
    ensures AllSpent(SpentList(tx, stored, 0))
  {}

  lemma MatchesAreSpent(stored: seq<PartialUtxo>, op: OutPoint)
    ensures AllSpent(MatchList(stored, op, |stored|))
  {
    hide Outpoints, MatchList;
    MatchesOf(stored, op, |stored|);
  }

  /** The spent entries found for a transaction are those of the stored outputs among its inputs. */
  lemma {:induction false} SpentOf(tx: Tx, stored: seq<PartialUtxo>, k: nat)
    requires k <= |tx.inputs| && forall op <- Outpoints(stored) :: op.txid != NO_HASH
    ensures AllSpent(SpentList(tx, stored, k))
    ensures Outpoints(SpentList(tx, stored, k)) == Outpoints(stored) * PointSet(tx.inputs[..k])
  {
    hide *;
    SpentAreSpent(tx, stored, k);
    if k == 0 {
      NothingSpent(tx, stored);
    } else {
      SpentOf(tx, stored, k - 1);
      SpentUnfolds(tx, stored, k);
      PointSetPush(tx.inputs, k - 1);
      var op, points, seen := tx.inputs[k - 1], PointSet(tx.inputs[..k - 1]), Outpoints(stored);
      if op.txid == NO_HASH {
        NullAddsNothing(seen, points, op);
      } else {
        var found := MatchList(stored, op, |stored|);
        MatchedPoints(stored, op);
        OutpointsAppend(SpentList(tx, stored, k - 1), found);
        OneMorePoint(seen, points, op);
      }
    }
  }

  lemma NothingSpent(tx: Tx, stored: seq<PartialUtxo>)
    ensures Outpoints(SpentList(tx, stored, 0)) == Outpoints(stored) * PointSet(tx.inputs[..0])
  {}

  lemma MatchedPoints(stored: seq<PartialUtxo>, op: OutPoint)
    ensures Outpoints(MatchList(stored, op, |stored|)) == Outpoints(stored) * {op}
  {
    hide *;
    MatchesOf(stored, op, |stored|);
    assert stored[..|stored|] == stored;
  }

  lemma NullAddsNothing(stored: set<OutPoint>, points: set<OutPoint>, op: OutPoint)
    requires op !in stored
    ensures stored * (points + {op}) == stored * points
  {}

  lemma SpentUnfolds(tx: Tx, stored: seq<PartialUtxo>, k: nat)
    requires 0 < k <= |tx.inputs|
    ensures SpentList(tx, stored, k) ==
      if tx.inputs[k - 1].txid == NO_HASH then SpentList(tx, stored, k - 1)
      else SpentList(tx, stored, k - 1) + MatchList(stored, tx.inputs[k - 1], |stored|)
  {
    assert SpentList(tx, stored, k - 1) + [] == SpentList(tx, stored, k - 1);
  }

  lemma OneMorePoint(stored: set<OutPoint>, points: set<OutPoint>, op: OutPoint)
    ensures stored * (points + {op}) == stored * points + stored * {op}
  {}

  // ----- a range of transactions -----

  /** None of the transactions is one whose outputs are stored already. */
  ghost predicate FreshFor(m: UtxoMap, txs: seq<Tx>)
  {
    forall op, i :: op in m && 0 <= i < |txs| ==> op.txid != txs[i].id
  }

  /** No stored output has the id that marks the input of a coinbase. */
  ghost predicate NoNullIds(m: UtxoMap) { forall op <- m :: op.txid != NO_HASH }

  lemma RangeAlgebra(u: Coins, before: set<OutPoint>, gains: Coins, more: Coins, inputs: set<OutPoint>, known: set<OutPoint>)
    requires u.Keys <= known && gains.Keys !! known && more.Keys !! known
    ensures ((u - before) + gains + more) - (known * inputs) == (u - (before + inputs)) + (gains + more)
  {}

  lemma {:induction false} GainIds(txs: seq<Tx>, keys: Keys, op: OutPoint)
    requires op in AllGains(txs, keys)
    ensures exists i :: 0 <= i < |txs| && op.txid == txs[i].id && GainedAt(txs, keys, op, i)
  {
    GainsAreOwn(txs, keys, op);
    var i :| GainedAt(txs, keys, op, i);
    CreatedIsOwn(txs[i], keys, |txs[i].outputs|);
  }

  /** The scan of a range takes away what the range spends of what was stored before it, and adds
      everything the range pays to the wallet. */
  lemma {:induction false} ScanEffect(m: UtxoMap, stored: seq<PartialUtxo>, keys: Keys, txs: seq<Tx>)
    requires Outpoints(stored) == m.Keys && NoNullIds(m) && FreshFor(m, txs) && DistinctIds(txs)
    ensures var m' := InsertAll(m, Scan(txs, keys, stored));
      && m'.Keys == m.Keys + AllGains(txs, keys).Keys
      && Unspent(m') == (Unspent(m) - AllInputs(txs)) + AllGains(txs, keys)
  {
    if txs == [] {
      assert Unspent(m) - {} + map[] == Unspent(m);
    } else {
      var n := |txs| - 1;
      ScanEffect(m, stored, keys, txs[..n]);
      ScanStep(m, stored, keys, txs);
    }
  }

  /** One transaction, scanned against the same snapshot. */
  lemma InsertTx(m: UtxoMap, stored: seq<PartialUtxo>, keys: Keys, tx: Tx)
    requires Outpoints(stored) <= m.Keys && (forall op <- m :: op.txid != tx.id)
    requires forall op <- Outpoints(stored) :: op.txid != NO_HASH
    ensures var m' := InsertAll(m, ScanTx(tx, keys, stored));
      && m'.Keys == m.Keys + Gains(tx, keys).Keys
      && Unspent(m') == Unspent(m) + Gains(tx, keys) - (Outpoints(stored) * InputSet(tx))
  {
    hide Unspent, InsertOne, InsertAll, Outpoints, CreatedList, SpentList, Created, PointSet;
    InsertAppend(m, CreatedList(tx, keys, |tx.outputs|), SpentList(tx, stored, |tx.inputs|));
    InsertCreated(m, tx, keys, |tx.outputs|);
    var m2 := InsertAll(m, CreatedList(tx, keys, |tx.outputs|));
    SpentOf(tx, stored, |tx.inputs|);
    assert tx.inputs[..|tx.inputs|] == tx.inputs;
    forall p | p in SpentList(tx, stored, |tx.inputs|) ensures p.isSpent && p.outpoint in m2 {
      OutpointIn(SpentList(tx, stored, |tx.inputs|), p);
    }
    InsertSpent(m2, SpentList(tx, stored, |tx.inputs|));
  }

  lemma ScanStep(m: UtxoMap, stored: seq<PartialUtxo>, keys: Keys, txs: seq<Tx>)
    requires txs != [] && Outpoints(stored) == m.Keys && NoNullIds(m) && FreshFor(m, txs) && DistinctIds(txs)
    requires var head := txs[..|txs| - 1]; var m1 := InsertAll(m, Scan(head, keys, stored));
      && m1.Keys == m.Keys + AllGains(head, keys).Keys
      && Unspent(m1) == (Unspent(m) - AllInputs(head)) + AllGains(head, keys)
    ensures var m' := InsertAll(m, Scan(txs, keys, stored));
      && m'.Keys == m.Keys + AllGains(txs, keys).Keys
      && Unspent(m') == (Unspent(m) - AllInputs(txs)) + AllGains(txs, keys)
  {
    hide Unspent, InsertAll, Outpoints, ScanTx, Gains, PointSet, InputSet;
    var head, tx := txs[..|txs| - 1], txs[|txs| - 1];
    forall op | op in AllGains(head, keys) ensures op !in m && op.txid != tx.id {
      GainIds(head, keys, op);
    }
    GainsOfOne(tx, keys);
    InsertAppend(m, Scan(head, keys, stored), ScanTx(tx, keys, stored));
    InsertTx(InsertAll(m, Scan(head, keys, stored)), stored, keys, tx);
    UnspentKeys(m);
    RangeAlgebra(Unspent(m), AllInputs(head), AllGains(head, keys), Gains(tx, keys), InputSet(tx), m.Keys);
  }

  lemma GainsOfOne(tx: Tx, keys: Keys)
    ensures forall op <- Gains(tx, keys) :: op.txid == tx.id
  {
    CreatedIsOwn(tx, keys, |tx.outputs|);
  }

  lemma OutpointIn(ps: seq<PartialUtxo>, p: PartialUtxo)
    requires p in ps
    ensures p.outpoint in Outpoints(ps)
  {}

  lemma UnspentKeys(m: UtxoMap)
    ensures Unspent(m).Keys <= m.Keys
  {}

  /** Taking together what transactions spend and what they pay is applying them one by one if and only
      if none of them spends what one of them pays to the wallet. */
  lemma AtOnceIsExact(u: Coins, txs: seq<Tx>, keys: Keys)
    requires DistinctIds(txs) && Causal(txs)
    ensures (u - AllInputs(txs)) + AllGains(txs, keys) == Apply(u, txs, keys) <==> AllGains(txs, keys).Keys !! AllInputs(txs)
  {
    if AllGains(txs, keys).Keys !! AllInputs(txs) {
      ApplyAtOnce(u, txs, keys);
    } else {
      hide Apply, AllGains, AllInputs;
      var op :| op in AllGains(txs, keys) && op in AllInputs(txs);
      GainIds(txs, keys, op);
      var i :| 0 <= i < |txs| && op.txid == txs[i].id && GainedAt(txs, keys, op, i);
      InputIsSpent(txs, op);
      var j :| 0 <= j < |txs| && op in txs[j].inputs;
      SpentIsGone(u, txs, keys, op, j);
    }
  }

  /** The scan of a range agrees with its transactions one by one if and only if no output that the
      range pays to the wallet is also spent in it. */
  lemma RangeIsExact(m: UtxoMap, stored: seq<PartialUtxo>, keys: Keys, txs: seq<Tx>)
    requires Outpoints(stored) == m.Keys && NoNullIds(m) && FreshFor(m, txs) && DistinctIds(txs) && Causal(txs)
    ensures Unspent(InsertAll(m, Scan(txs, keys, stored))) == Apply(Unspent(m), txs, keys)
       <==> AllGains(txs, keys).Keys !! AllInputs(txs)
  {
    ScanEffect(m, stored, keys, txs);
    AtOnceIsExact(Unspent(m), txs, keys);
  }

  /** The balance after a range: what it was, less what was spent of it, plus what was received. */
  lemma BalanceMoves(u: Coins, txs: seq<Tx>, keys: Keys)
    requires AllGains(txs, keys).Keys !! AllInputs(txs) && AllGains(txs, keys).Keys !! u.Keys
    ensures Total(Apply(u, txs, keys))
         == Total(u) - Total(map op | op in u && op in AllInputs(txs) :: u[op]) + Total(AllGains(txs, keys))
  {
    ApplyAtOnce(u, txs, keys);
    TotalMoves(u, AllInputs(txs), AllGains(txs, keys));
  }
}
