/** Chain synchronisation of node/src/chain.rs against a peer with a fixed finite chain: header
    batches, filter request ranges, filter matching, block scanning and the wallet's outputs. */
module Chain {
  import opened Basics
  import opened Bytes
  import opened CoinSelection
  import opened Wallet
  import opened Ledger
  import BlockFilter

  const MAX_HEADER_LEN: nat := 2000
  const FILTER_SIZE: nat := 500

  /** A block with the compact filter its peer serves for it. */
  datatype Block = Block(hash: Hash, txs: seq<Tx>, filter: seq<byte>)

  /** The peer: its chain from the genesis block on, the keyed hash that filters are made with, and
      the script of every output, which the filters of the blocks that spend it are made from. */
  datatype Peer = Peer(chain: seq<Block>, sip: (Hash, seq<byte>) -> nat, scriptOf: OutPoint -> Script)

  function Txs(blocks: seq<Block>): seq<Tx>
  {
    if blocks == [] then [] else Txs(blocks[..|blocks| - 1]) + blocks[|blocks| - 1].txs
  }

  lemma {:induction false} TxsAppend(a: seq<Block>, b: seq<Block>)
    ensures Txs(a + b) == Txs(a) + Txs(b)
  {
    if b == [] {
      assert a + b == a;
    } else {
      assert (a + b)[..|a + b| - 1] == a + b[..|b| - 1];
      TxsAppend(a, b[..|b| - 1]);
    }
  }

  // ----- matching -----

  function ReaderFor(peer: Peer, b: Block): BlockFilter.GcsFilterReader
  {
    BlockFilter.GcsFilterReader((e: seq<byte>) => peer.sip(b.hash, e), BlockFilter.P, BlockFilter.M)
  }

  /** The stream of the filter holds as many codes as it says. */
  ghost predicate Complete(b: Block) { BlockFilter.FilterValues(b.filter, BlockFilter.P).Some? }

  /** The filter answers for every script of the wallet that the block pays to or spends from. */
  ghost predicate GoodFilter(peer: Peer, b: Block, keys: Keys)
  {
    && Complete(b)
    && (forall tx, o :: tx in b.txs && o in tx.outputs && o.script in keys ==>
          BlockFilter.Hits(ReaderFor(peer, b), b.filter, o.script))
    && (forall tx, op :: tx in b.txs && op in tx.inputs && op.txid != NO_HASH && peer.scriptOf(op) in keys ==>
          BlockFilter.Hits(ReaderFor(peer, b), b.filter, peer.scriptOf(op)))
  }

  const OP_RETURN: byte := 0x6a

  /** A script that a filter leaves out when it is paid to: none at all, or a data carrier. */
  predicate NotListed(script: Script) { script == [] || script[0] == OP_RETURN }

  /** The items of a basic filter, as the section "Contents" of BIP 158 lists them: the scripts of the
      outputs that are spent, but for coinbase inputs, and those of the outputs, but for data carriers;
      no item is empty. */
  ghost predicate BasicItem(peer: Peer, b: Block, script: Script)
  {
    || (exists tx, o :: tx in b.txs && o in tx.outputs && o.script == script && !NotListed(script))
    || (script != [] && exists tx, op :: tx in b.txs && op in tx.inputs && op.txid != NO_HASH && peer.scriptOf(op) == script)
  }

  /** The filter of a block is the BIP 158 filter of some scripts: with parameters 19 and 784931, the
      places of their hashes in the range, in rising order. */
  ghost predicate MadeFrom(peer: Peer, b: Block, scripts: seq<Script>, raw: seq<nat>, vals: seq<nat>)
  {
    && |scripts| < Pow256(8) && |raw| == |scripts|
    && (forall i :: 0 <= i < |scripts| ==> BlockFilter.Reduces(peer.sip(b.hash, scripts[i]), |scripts| * 784931, raw[i]))
    && multiset(vals) == multiset(raw) && BlockFilter.Rising(0, vals)
    && b.filter == BlockFilter.FilterOf(vals, 19)
  }

  /** A basic filter is good for a wallet whose scripts carry no data and are not empty. */
  lemma MadeFilterIsGood(peer: Peer, b: Block, keys: Keys, scripts: seq<Script>, raw: seq<nat>, vals: seq<nat>)
    requires MadeFrom(peer, b, scripts, raw, vals)
    requires (forall s :: s in scripts <==> BasicItem(peer, b, s)) && forall k <- keys :: !NotListed(k)
    ensures GoodFilter(peer, b, keys)
  {
    hide BlockFilter.Hits, MadeFrom, BasicItem, ReaderFor, NotListed, Complete;
    MadeFilterHits(peer, b, scripts, raw, vals);
    forall tx, o | tx in b.txs && o in tx.outputs && o.script in keys
      ensures BlockFilter.Hits(ReaderFor(peer, b), b.filter, o.script)
    {
      OutputIsListed(peer, b, tx, o);
    }
    forall tx, op | tx in b.txs && op in tx.inputs && op.txid != NO_HASH && peer.scriptOf(op) in keys
      ensures BlockFilter.Hits(ReaderFor(peer, b), b.filter, peer.scriptOf(op))
    {
      InputIsListed(peer, b, tx, op);
    }
  }

  lemma MadeFilterHits(peer: Peer, b: Block, scripts: seq<Script>, raw: seq<nat>, vals: seq<nat>)
    requires MadeFrom(peer, b, scripts, raw, vals)
    ensures Complete(b) && forall s <- scripts :: BlockFilter.Hits(ReaderFor(peer, b), b.filter, s)
  {
    var f := ReaderFor(peer, b);
    BlockFilter.SameElements(vals, raw);
    hide BlockFilter.Hits, BlockFilter.FilterValues, BlockFilter.FilterOf, BlockFilter.Reduces, BlockFilter.Rising;
    BlockFilter.FilterRoundTrip(vals, BlockFilter.P);
    forall i | 0 <= i < |scripts| ensures BlockFilter.Hits(f, b.filter, scripts[i]) {
      BlockFilter.ScriptsHit(f, scripts, raw, vals, scripts[i], raw[i]);
    }
  }

  lemma OutputIsListed(peer: Peer, b: Block, tx: Tx, o: TxOut)
    requires tx in b.txs && o in tx.outputs && !NotListed(o.script)
    ensures BasicItem(peer, b, o.script)
  {}

  lemma InputIsListed(peer: Peer, b: Block, tx: Tx, op: OutPoint)
    requires tx in b.txs && op in tx.inputs && op.txid != NO_HASH && !NotListed(peer.scriptOf(op))
    ensures BasicItem(peer, b, peer.scriptOf(op))
  {}

  ghost predicate Matched(peer: Peer, b: Block, keys: Keys)
  {
    keys == {} || exists k :: k in keys && BlockFilter.Hits(ReaderFor(peer, b), b.filter, k)
  }

  ghost function Matching(peer: Peer, blocks: seq<Block>, keys: Keys): seq<Block>
  {
    if blocks == [] then [] else
      var last := blocks[|blocks| - 1];
      Matching(peer, blocks[..|blocks| - 1], keys) + if Matched(peer, last, keys) then [last] else []
  }

  /** Outputs the wallet may hold: not of a null transaction, and paying to one of its scripts. */
  ghost predicate Ours(peer: Peer, ops: set<OutPoint>, keys: Keys)
  {
    forall op <- ops :: op.txid != NO_HASH && peer.scriptOf(op) in keys
  }

  /** Transactions have ids, and the peer knows the scripts of their outputs. */
  ghost predicate Known(peer: Peer, txs: seq<Tx>)
  {
    forall tx <- txs :: tx.id != NO_HASH && forall i :: 0 <= i < |tx.outputs| ==> peer.scriptOf(OutPoint(tx.id, i)) == tx.outputs[i].script
  }

  lemma GainsAreOurs(peer: Peer, tx: Tx, keys: Keys)
    requires Known(peer, [tx])
    ensures Ours(peer, Gains(tx, keys).Keys, keys)
  {
    CreatedIsOwn(tx, keys, |tx.outputs|);
    assert tx in [tx];
    forall op | op in Gains(tx, keys) ensures op.txid != NO_HASH && peer.scriptOf(op) in keys {
      assert op == OutPoint(tx.id, op.vout);
    }
  }

  lemma {:induction false} ApplyKeepsOurs(peer: Peer, u: Coins, txs: seq<Tx>, keys: Keys)
    requires Ours(peer, u.Keys, keys) && Known(peer, txs)
    ensures Ours(peer, Apply(u, txs, keys).Keys, keys)
  {
    if txs != [] {
      var n := |txs| - 1;
      ApplyKeepsOurs(peer, u, txs[..n], keys);
      assert txs[n] in txs;
      GainsAreOurs(peer, txs[n], keys);
    }
  }

  /** A block that does not match does nothing to the wallet. */
  lemma {:induction false} UnmatchedIsIdle(peer: Peer, b: Block, keys: Keys, u: Coins, k: nat)
    requires GoodFilter(peer, b, keys) && !Matched(peer, b, keys) && Ours(peer, u.Keys, keys) && k <= |b.txs|
    ensures Apply(u, b.txs[..k], keys) == u
    ensures AllGains(b.txs[..k], keys) == map[]
    ensures forall op <- AllInputs(b.txs[..k]) :: op.txid == NO_HASH || peer.scriptOf(op) !in keys
  {
    if k > 0 {
      UnmatchedIsIdle(peer, b, keys, u, k - 1);
      assert b.txs[..k][..k - 1] == b.txs[..k - 1];
      hide GoodFilter, Matched, Gains, InputSet;
      IdleTx(peer, b, keys, b.txs[k - 1]);
      assert ApplyTx(u, b.txs[k - 1], keys) == u;
    }
  }

  lemma IdleTx(peer: Peer, b: Block, keys: Keys, tx: Tx)
    requires GoodFilter(peer, b, keys) && !Matched(peer, b, keys) && tx in b.txs
    ensures Gains(tx, keys) == map[]
    ensures forall op <- InputSet(tx) :: op.txid == NO_HASH || peer.scriptOf(op) !in keys
  {
    CreatedIsOwn(tx, keys, |tx.outputs|);
  }

  /** Fetching only the blocks that match misses nothing. */
  lemma {:induction false} MatchingSuffices(peer: Peer, blocks: seq<Block>, keys: Keys, u: Coins)
    requires (forall b <- blocks :: GoodFilter(peer, b, keys)) && Ours(peer, u.Keys, keys) && Known(peer, Txs(blocks))
    ensures Apply(u, Txs(Matching(peer, blocks, keys)), keys) == Apply(u, Txs(blocks), keys)
  {
    hide *;
    if blocks == [] {
      NothingMatches(peer, keys);
    } else {
      var n := |blocks| - 1;
      var head, last := blocks[..n], blocks[n];
      MatchingPush(peer, blocks, keys);
      KnownParts(peer, Txs(head), last.txs);
      assert forall b <- head :: b in blocks;
      MatchingSuffices(peer, head, keys, u);
      ApplyAppend(u, Txs(head), last.txs, keys);
      ApplyAppend(u, Txs(Matching(peer, head, keys)), last.txs, keys);
      if !Matched(peer, last, keys) {
        ApplyKeepsOurs(peer, u, Txs(head), keys);
        UnmatchedIsIdle(peer, last, keys, Apply(u, Txs(head), keys), |last.txs|);
        assert last.txs[..|last.txs|] == last.txs;
      }
    }
  }

  lemma NothingMatches(peer: Peer, keys: Keys)
    ensures Matching(peer, [], keys) == []
  {}

  lemma MatchingPush(peer: Peer, blocks: seq<Block>, keys: Keys)
    requires blocks != []
    ensures var head, last := blocks[..|blocks| - 1], blocks[|blocks| - 1];
      && Txs(blocks) == Txs(head) + last.txs
      && Txs(Matching(peer, blocks, keys)) ==
        if Matched(peer, last, keys) then Txs(Matching(peer, head, keys)) + last.txs else Txs(Matching(peer, head, keys))
  {
    hide Matched;
    var m, last := Matching(peer, blocks[..|blocks| - 1], keys), blocks[|blocks| - 1];
    assert (m + [last])[..|m|] == m && m + [] == m && Txs(m) + [] == Txs(m);
  }

  lemma KnownParts(peer: Peer, a: seq<Tx>, b: seq<Tx>)
    requires Known(peer, a + b)
    ensures Known(peer, a)
  {
    forall tx | tx in a ensures tx in a + b {}
  }

  /** Some transactions pay as much to the wallet as others, and spend as much of what it may hold. */
  ghost predicate SameForUs(peer: Peer, some: seq<Tx>, all: seq<Tx>, keys: Keys)
  {
    && AllGains(some, keys) == AllGains(all, keys)
    && forall op: OutPoint :: op.txid != NO_HASH && peer.scriptOf(op) in keys ==> (op in AllInputs(some) <==> op in AllInputs(all))
  }

  lemma SameAppend(peer: Peer, some: seq<Tx>, all: seq<Tx>, more: seq<Tx>, more': seq<Tx>, keys: Keys)
    requires SameForUs(peer, some, all, keys) && SameForUs(peer, more, more', keys)
    ensures SameForUs(peer, some + more, all + more', keys)
  {
    AllAppend(some, more, keys);
    AllAppend(all, more', keys);
    hide AllGains, AllInputs;
  }

  lemma UnmatchedIsNothing(peer: Peer, b: Block, keys: Keys)
    requires GoodFilter(peer, b, keys) && !Matched(peer, b, keys)
    ensures SameForUs(peer, [], b.txs, keys)
  {
    UnmatchedIsIdle(peer, b, keys, map[], |b.txs|);
    assert b.txs[..|b.txs|] == b.txs;
  }

  /** The blocks that match do as much for the wallet as all of them. */
  lemma {:induction false} MatchingPaysAll(peer: Peer, blocks: seq<Block>, keys: Keys)
    requires forall b <- blocks :: GoodFilter(peer, b, keys)
    ensures SameForUs(peer, Txs(Matching(peer, blocks, keys)), Txs(blocks), keys)
  {
    if blocks != [] {
      hide GoodFilter, Matched, SameForUs;
      var n := |blocks| - 1;
      var head, last := blocks[..n], blocks[n];
      MatchingPaysAll(peer, head, keys);
      var m := Matching(peer, head, keys);
      if Matched(peer, last, keys) {
        assert (m + [last])[..|m|] == m;
        SameIsSame(peer, last.txs, keys);
        SameAppend(peer, Txs(m), Txs(head), last.txs, last.txs, keys);
      } else {
        assert m + [] == m && Txs(m) + [] == Txs(m);
        UnmatchedIsNothing(peer, last, keys);
        SameAppend(peer, Txs(m), Txs(head), [], last.txs, keys);
      }
    } else {
      SameIsSame(peer, [], keys);
    }
  }

  lemma SameIsSame(peer: Peer, txs: seq<Tx>, keys: Keys)
    ensures SameForUs(peer, txs, txs, keys)
  {}

  lemma {:induction false} MatchingAreSome(peer: Peer, blocks: seq<Block>, keys: Keys)
    ensures forall tx <- Txs(Matching(peer, blocks, keys)) :: tx in Txs(blocks)
    ensures DistinctIds(Txs(blocks)) ==> DistinctIds(Txs(Matching(peer, blocks, keys)))
  {
    if blocks != [] {
      hide Matched, DistinctIds;
      var n := |blocks| - 1;
      var head, last := blocks[..n], blocks[n];
      MatchingAreSome(peer, head, keys);
      var m := Matching(peer, head, keys);
      assert Txs(blocks) == Txs(head) + last.txs;
      DistinctAppend(Txs(head), last.txs);
      if Matched(peer, last, keys) {
        assert (m + [last])[..|m|] == m;
        DistinctAppend(Txs(m), last.txs);
      } else {
        assert m + [] == m;
      }
    }
  }

  // ----- one filter request -----

  /** What a range of blocks has to be for the wallet to take it in: served with good filters, made of
      known transactions that are all different and none of which is stored already. */
  ghost predicate Acceptable(peer: Peer, blocks: seq<Block>, keys: Keys, m: UtxoMap)
  {
    && (forall b <- blocks :: GoodFilter(peer, b, keys))
    && Known(peer, Txs(blocks)) && DistinctIds(Txs(blocks)) && FreshFor(m, Txs(blocks))
  }

  /** Nothing the transactions pay to the wallet is spent by one of them. */
  ghost predicate Calm(txs: seq<Tx>, keys: Keys)
  {
    AllGains(txs, keys).Keys !! AllInputs(txs)
  }

  /** What scanning the matching blocks against one snapshot does: it takes away what the range spends of
      what was stored before it, and adds everything the range pays to the wallet. That is applying all
      transactions of the range if and only if none of them spends what one of them pays. */
  lemma RangeApplies(peer: Peer, blocks: seq<Block>, keys: Keys, m: UtxoMap, stored: seq<PartialUtxo>)
    requires Acceptable(peer, blocks, keys, m) && Ours(peer, m.Keys, keys) && Outpoints(stored) == m.Keys
    ensures var m' := InsertAll(m, Scan(Txs(Matching(peer, blocks, keys)), keys, stored));
      && m'.Keys == m.Keys + AllGains(Txs(blocks), keys).Keys
      && Unspent(m') == (Unspent(m) - AllInputs(Txs(blocks))) + AllGains(Txs(blocks), keys)
      && (Calm(Txs(blocks), keys) ==> Unspent(m') == Apply(Unspent(m), Txs(blocks), keys))
      && (Causal(Txs(blocks)) ==> (Unspent(m') == Apply(Unspent(m), Txs(blocks), keys) <==> Calm(Txs(blocks), keys)))
  {
    hide Apply, Scan, InsertAll, Unspent, Outpoints, AllGains, AllInputs, Matching, GoodFilter, Causal, DistinctIds;
    var txs := Txs(Matching(peer, blocks, keys));
    MatchingAreSome(peer, blocks, keys);
    assert FreshFor(m, txs) by {
      forall op, i | op in m && 0 <= i < |txs| ensures op.txid != txs[i].id {
        assert txs[i] in txs;
      }
    }
    ScanEffect(m, stored, keys, txs);
    UnspentKeys(m);
    MatchingPaysAll(peer, blocks, keys);
    SameTaken(Unspent(m), AllInputs(txs), AllInputs(Txs(blocks)));
    if Calm(Txs(blocks), keys) {
      ApplyAtOnce(Unspent(m), Txs(blocks), keys);
    }
    if Causal(Txs(blocks)) {
      AtOnceIsExact(Unspent(m), Txs(blocks), keys);
    }
  }

  lemma SameTaken(u: Coins, a: set<OutPoint>, b: set<OutPoint>)
    requires forall op <- u :: op in a <==> op in b
    ensures u - a == u - b
  {}

  lemma {:induction false} AllGainsAreOurs(peer: Peer, txs: seq<Tx>, keys: Keys)
    requires Known(peer, txs)
    ensures Ours(peer, AllGains(txs, keys).Keys, keys)
  {
    if txs != [] {
      var n := |txs| - 1;
      AllGainsAreOurs(peer, txs[..n], keys);
      assert txs[n] in txs;
      GainsAreOurs(peer, txs[n], keys);
    }
  }

  lemma {:induction false} FoundScripts(tx: Tx, keys: Keys, k: nat)
    requires k <= |tx.outputs|
    ensures forall p <- CreatedList(tx, keys, k) :: p.script in keys
  {
    if k > 0 {
      FoundScripts(tx, keys, k - 1);
    }
  }

  lemma {:induction false} MatchScripts(stored: seq<PartialUtxo>, keys: Keys, op: OutPoint, n: nat)
    requires n <= |stored| && forall p <- stored :: p.script in keys
    ensures forall p <- MatchList(stored, op, n) :: p.script in keys
  {
    if n > 0 {
      MatchScripts(stored, keys, op, n - 1);
      assert stored[n - 1] in stored;
    }
  }

  lemma {:induction false} SpentScripts(tx: Tx, stored: seq<PartialUtxo>, keys: Keys, k: nat)
    requires k <= |tx.inputs| && forall p <- stored :: p.script in keys
    ensures forall p <- SpentList(tx, stored, k) :: p.script in keys
  {
    if k > 0 {
      hide MatchList;
      SpentScripts(tx, stored, keys, k - 1);
      MatchScripts(stored, keys, tx.inputs[k - 1], |stored|);
    }
  }

  /** Everything a scan finds pays to a script of the wallet, so inserting it never fails. */
  lemma {:induction false} ScanScripts(txs: seq<Tx>, keys: Keys, stored: seq<PartialUtxo>)
    requires forall p <- stored :: p.script in keys
    ensures forall p <- Scan(txs, keys, stored) :: p.script in keys
  {
    if txs != [] {
      var tx := txs[|txs| - 1];
      ScanScripts(txs[..|txs| - 1], keys, stored);
      FoundScripts(tx, keys, |tx.outputs|);
      SpentScripts(tx, stored, keys, |tx.inputs|);
    }
  }

  function Partial(w: WeightedUtxo): PartialUtxo
  {
    PartialUtxo(w.utxo.outpoint, w.utxo.value, w.utxo.script, w.utxo.isSpent)
  }

  /** The scripts of the wallet as a list, in no particular order. */
  method ListKeys(wallet: WatchOnly) returns (query: seq<seq<byte>>)
    ensures forall k :: k in query <==> k in wallet.pubkeyMap
  {
    query := [];
    var pending := wallet.pubkeyMap.Keys;
    while pending != {}
      invariant pending <= wallet.pubkeyMap.Keys
      invariant forall k :: k in query <==> k in wallet.pubkeyMap && k !in pending
      decreases pending
    {
      var k :| k in pending;
      query := query + [k];
      pending := pending - {k};
    }
  }

  /** The blocks whose filters match one of the wallet's scripts. */
  method MatchBlocks(peer: Peer, blocks: seq<Block>, wallet: WatchOnly) returns (found: seq<Block>)
    requires forall b <- blocks :: Complete(b)
    ensures found == Matching(peer, blocks, wallet.pubkeyMap.Keys)
  {
    hide BlockFilter.Hits, BlockFilter.FilterValues, BlockFilter.AnyHits, BlockFilter.AllPass, Matched;
    var query := ListKeys(wallet);
    found := [];
    assert blocks[..0] == [] && blocks[..|blocks|] == blocks;
    for i := 0 to |blocks|
      invariant found == Matching(peer, blocks[..i], wallet.pubkeyMap.Keys)
    {
      assert blocks[..i + 1][..i] == blocks[..i];
      assert blocks[i] in blocks;
      var hit := BlockFilter.MatchAny(ReaderFor(peer, blocks[i]), blocks[i].filter, query);
      MatchMeans(peer, blocks[i], wallet.pubkeyMap.Keys, query);
      if hit.value {
        found := found + [blocks[i]];
      }
    }
  }

  lemma MatchMeans(peer: Peer, b: Block, keys: Keys, query: seq<seq<byte>>)
    requires forall k :: k in query <==> k in keys
    ensures Matched(peer, b, keys) <==> query == [] || BlockFilter.AnyHits(ReaderFor(peer, b), b.filter, query)
  {
    hide BlockFilter.Hits;
    if query != [] {
      assert query[0] in query;
    }
  }

  /** What is stored in the wallet, as it is handed to the node. */
  method Snapshot(wallet: WatchOnly) returns (stored: seq<PartialUtxo>)
    requires wallet.Valid()
    ensures Outpoints(stored) == wallet.utxoMap.Keys
    ensures forall p <- stored :: p.script in wallet.pubkeyMap
  {
    var ws := wallet.ListUtxos();
    stored := seq(|ws|, i requires 0 <= i < |ws| => Partial(ws[i]));
    SnapshotPoints(ws, stored, wallet.utxoMap);
  }

  lemma SnapshotPoints(ws: seq<WeightedUtxo>, stored: seq<PartialUtxo>, m: UtxoMap)
    requires |stored| == |ws| && forall i :: 0 <= i < |ws| ==> stored[i] == Partial(ws[i])
    requires forall i :: 0 <= i < |ws| ==> ws[i].utxo.outpoint in m && ws[i] == m[ws[i].utxo.outpoint]
    requires forall op <- m :: m[op] in ws && m[op].utxo.outpoint == op
    ensures Outpoints(stored) == m.Keys
  {
    forall op | op in m ensures op in Outpoints(stored) {
      var i :| 0 <= i < |ws| && ws[i] == m[op];
      assert stored[i] in stored && stored[i].outpoint == op;
    }
  }

  /** Matches the filters of a range, fetches the blocks that match, scans them against one snapshot
      of the wallet and stores what is found. */
  method FetchAndSaveUtxos(peer: Peer, blocks: seq<Block>, wallet: WatchOnly)
    requires wallet.Valid() && Acceptable(peer, blocks, wallet.pubkeyMap.Keys, wallet.utxoMap)
    requires Ours(peer, wallet.utxoMap.Keys, wallet.pubkeyMap.Keys)
    modifies wallet`utxoMap
    ensures wallet.Valid() && Ours(peer, wallet.utxoMap.Keys, wallet.pubkeyMap.Keys)
    ensures wallet.utxoMap.Keys == old(wallet.utxoMap.Keys) + AllGains(Txs(blocks), wallet.pubkeyMap.Keys).Keys
    ensures Unspent(wallet.utxoMap) ==
      (Unspent(old(wallet.utxoMap)) - AllInputs(Txs(blocks))) + AllGains(Txs(blocks), wallet.pubkeyMap.Keys)
    ensures Calm(Txs(blocks), wallet.pubkeyMap.Keys) ==>
      Unspent(wallet.utxoMap) == Apply(Unspent(old(wallet.utxoMap)), Txs(blocks), wallet.pubkeyMap.Keys)
    ensures Causal(Txs(blocks)) ==>
      (Unspent(wallet.utxoMap) == Apply(Unspent(old(wallet.utxoMap)), Txs(blocks), wallet.pubkeyMap.Keys)
       <==> Calm(Txs(blocks), wallet.pubkeyMap.Keys))
  {
    hide Apply, Scan, InsertAll, Unspent, Outpoints, AllGains, AllInputs, Matching, Calm, Causal;
    var keys := wallet.pubkeyMap.Keys;
    ghost var m := wallet.utxoMap;
    AllComplete(peer, blocks, keys);
    var matching := MatchBlocks(peer, blocks, wallet);
    var stored := Snapshot(wallet);
    RangeApplies(peer, blocks, keys, m, stored);
    AllGainsAreOurs(peer, Txs(blocks), keys);
    if |matching| == 0 {
      NothingFound(m, stored, keys);
      return;
    }
    var found := ScanTransactions(Txs(matching), keys, stored);
    ScanScripts(Txs(matching), keys, stored);
    var ok := wallet.InsertUtxos(found);
  }

  lemma AllComplete(peer: Peer, blocks: seq<Block>, keys: Keys)
    requires forall b <- blocks :: GoodFilter(peer, b, keys)
    ensures forall b <- blocks :: Complete(b)
  {}

  lemma NothingFound(m: UtxoMap, stored: seq<PartialUtxo>, keys: Keys)
    ensures InsertAll(m, Scan(Txs([]), keys, stored)) == m
  {}
}
