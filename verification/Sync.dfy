/** The synchronisation loop of node/src/chain.rs: how a batch of headers is cut into filter requests,
    and where a whole run leaves the chain state and the wallet. */
module Sync {
  import opened Basics
  import opened CoinSelection
  import opened Wallet
  import opened Ledger
  import opened Chain

  function Min(a: int, b: int): int { if a < b then a else b }

  // ----- cutting a batch into filter requests -----

  /** The heights from s up to but not including e, in steps of the filter size. */
  function Steps(s: nat, e: nat): seq<nat>
    decreases e - s
  {
    if s >= e then [] else [s] + Steps(s + FILTER_SIZE, e)
  }

  /** The start heights of the filter requests for the blocks from start to end, both included. */
  function BlockNumbers(start: nat, end: nat): seq<nat>
  {
    if start < end then Steps(start, end) else [start]
  }

  /** How many requests a batch of n headers is cut into. */
  function RequestCount(n: nat): (r: nat)
    ensures r > 0
  {
    if n <= 1 then 1 else (n + FILTER_SIZE - 2) / FILTER_SIZE
  }

  /** The i-th request of a batch of n blocks covers the positions from 500 * i up to this one. */
  function RequestEnd(n: nat, i: nat): nat { Min(FILTER_SIZE * (i + 1), n) }

  lemma {:induction false} StepsAre(s: nat, e: nat)
    requires s < e
    ensures |Steps(s, e)| == (e - s + FILTER_SIZE - 1) / FILTER_SIZE
    ensures forall i :: 0 <= i < |Steps(s, e)| ==> Steps(s, e)[i] == s + FILTER_SIZE * i
    decreases e - s
  {
    if s + FILTER_SIZE < e {
      StepsAre(s + FILTER_SIZE, e);
    } else {
      assert Steps(s + FILTER_SIZE, e) == [];
    }
  }

  lemma BlockNumbersAre(start: nat, n: nat)
    requires n > 0
    ensures var numbers := BlockNumbers(start, start + n - 1);
      |numbers| == RequestCount(n) && forall i :: 0 <= i < |numbers| ==> numbers[i] == start + 500 * i
  {
    if n > 1 {
      StepsAre(start, start + n - 1);
    }
  }

  /** The requests of a batch are non-empty, at most 500 blocks long, and each starts where the one
      before it ends; they reach the end of the batch exactly when it has one block or its length does
      not leave a remainder of one, and otherwise stop one block short. */
  lemma RequestsCover(n: nat)
    requires n > 0
    ensures RequestCount(n) > 0
    ensures forall i :: 0 <= i < RequestCount(n) ==>
      500 * i < RequestEnd(n, i) <= 500 * i + 500 && RequestEnd(n, i) <= n
    ensures forall i :: 0 <= i < RequestCount(n) - 1 ==> RequestEnd(n, i) == 500 * (i + 1)
    ensures RequestEnd(n, RequestCount(n) - 1) == if n == 1 || n % 500 != 1 then n else n - 1
  {}

  // ----- the peer -----

  /** The height of the block with a hash. */
  function HeightOf(chain: seq<Block>, hash: Hash): (h: nat)
    ensures h <= |chain|
    ensures h < |chain| ==> chain[h].hash == hash
    ensures forall i :: 0 <= i < h ==> chain[i].hash != hash
  {
    if chain == [] then 0 else if chain[0].hash == hash then 0 else 1 + HeightOf(chain[1..], hash)
  }

  /** The headers a peer answers with: those after the named block, at most 2000. */
  function HeadersAfter(chain: seq<Block>, hash: Hash): seq<Block>
  {
    var h := HeightOf(chain, hash) + 1;
    if h >= |chain| then [] else chain[h..Min(h + 2000, |chain|)]
  }

  /** The blocks whose filters a peer serves: from a start height to the block with the stop hash. */
  function BlocksUpTo(chain: seq<Block>, start: nat, stop: Hash): seq<Block>
  {
    var h := HeightOf(chain, stop) + 1;
    if start <= h <= |chain| then chain[start..h] else []
  }

  /** Blocks have different hashes and transactions different ids, and the peer knows the scripts of outputs. */
  ghost predicate ValidChain(peer: Peer)
  {
    && (forall i, j :: 0 <= i < j < |peer.chain| ==> peer.chain[i].hash != peer.chain[j].hash)
    && Known(peer, Txs(peer.chain)) && DistinctIds(Txs(peer.chain))
  }

  /** The peer serves filters that are good for the wallet. */
  ghost predicate ValidPeer(peer: Peer, keys: Keys)
  {
    ValidChain(peer) && forall b <- peer.chain :: GoodFilter(peer, b, keys)
  }

  lemma PeerChain(peer: Peer, keys: Keys)
    requires ValidPeer(peer, keys)
    ensures ValidChain(peer)
  {}

  lemma HeightIsUnique(peer: Peer, h: nat)
    requires ValidChain(peer) && h < |peer.chain|
    ensures HeightOf(peer.chain, peer.chain[h].hash) == h
  {
    var k := HeightOf(peer.chain, peer.chain[h].hash);
    assert k == h || k < h;
  }

  // ----- progress of the wallet -----

  /** The wallet holds what the blocks from first up to upto make of what it held. */
  ghost predicate CaughtUp(peer: Peer, before: UtxoMap, m: UtxoMap, keys: Keys, first: nat, upto: nat)
    requires first <= upto <= |peer.chain|
  {
    Unspent(m) == Apply(Unspent(before), Txs(peer.chain[first..upto]), keys)
  }

  /** What the wallet holds is its own and not yet touched by what is ahead. */
  ghost predicate Ready(peer: Peer, m: UtxoMap, keys: Keys, upto: nat)
    requires upto <= |peer.chain|
  {
    Ours(peer, m.Keys, keys) && FreshFor(m, Txs(peer.chain[upto..]))
  }

  lemma ChainSplits(chain: seq<Block>, from: nat, to: nat)
    requires from <= to <= |chain|
    ensures Txs(chain) == Txs(chain[..from]) + Txs(chain[from..])
    ensures Txs(chain[from..]) == Txs(chain[from..to]) + Txs(chain[to..])
  {
    BlocksSplit(chain, from, to);
    hide Txs;
    TxsAppend(chain[from..to], chain[to..]);
    TxsAppend(chain[..from], chain[from..]);
  }

  lemma BlocksSplit(chain: seq<Block>, from: nat, to: nat)
    requires from <= to <= |chain|
    ensures chain[..from] + chain[from..] == chain && chain[from..to] + chain[to..] == chain[from..]
  {}

  /** The transactions of a range are known and different from each other and from all later ones. */
  lemma RangeIsKnown(peer: Peer, from: nat, to: nat)
    requires ValidChain(peer) && from <= to <= |peer.chain|
    ensures var a, b := Txs(peer.chain[from..to]), Txs(peer.chain[to..]);
      && Known(peer, a) && DistinctIds(a)
      && forall x, y :: x in a && y in b ==> x.id != y.id
  {
    hide GoodFilter, Txs, DistinctIds;
    ChainSplits(peer.chain, from, to);
    DistinctAppend(Txs(peer.chain[..from]), Txs(peer.chain[from..]));
    DistinctAppend(Txs(peer.chain[from..to]), Txs(peer.chain[to..]));
    forall tx | tx in Txs(peer.chain[from..to]) ensures tx in Txs(peer.chain) {
      assert tx in Txs(peer.chain[from..]);
    }
  }

  lemma FreshAppend(m: UtxoMap, a: seq<Tx>, b: seq<Tx>)
    ensures FreshFor(m, a + b) <==> FreshFor(m, a) && FreshFor(m, b)
  {
    if FreshFor(m, a + b) {
      forall op, i | op in m && 0 <= i < |a| ensures op.txid != a[i].id {
        assert (a + b)[i] == a[i];
      }
      forall op, i | op in m && 0 <= i < |b| ensures op.txid != b[i].id {
        assert (a + b)[|a| + i] == b[i];
      }
    }
  }

  lemma ReadyIsAcceptable(peer: Peer, m: UtxoMap, keys: Keys, from: nat, to: nat)
    requires ValidPeer(peer, keys) && from <= to <= |peer.chain| && Ready(peer, m, keys, from)
    ensures Acceptable(peer, peer.chain[from..to], keys, m)
  {
    hide GoodFilter, Known, Ours, Txs, DistinctIds, FreshFor;
    RangeIsKnown(peer, from, to);
    ChainSplits(peer.chain, from, to);
    FreshAppend(m, Txs(peer.chain[from..to]), Txs(peer.chain[to..]));
    forall b | b in peer.chain[from..to] ensures GoodFilter(peer, b, keys) {
      assert b in peer.chain;
    }
  }

  /** Taking in a range leaves the wallet ready for what follows it. */
  lemma ReadyMoves(peer: Peer, m: UtxoMap, m': UtxoMap, keys: Keys, from: nat, to: nat)
    requires ValidChain(peer) && from <= to <= |peer.chain| && Ready(peer, m, keys, from)
    requires Ours(peer, m'.Keys, keys)
    requires m'.Keys <= m.Keys + AllGains(Txs(peer.chain[from..to]), keys).Keys
    ensures Ready(peer, m', keys, to)
  {
    hide GoodFilter, Known, Ours, AllGains, Gains, Txs, DistinctIds;
    RangeIsKnown(peer, from, to);
    ChainSplits(peer.chain, from, to);
    var a, b := Txs(peer.chain[from..to]), Txs(peer.chain[to..]);
    FreshAppend(m, a, b);
    forall op, i | op in m' && 0 <= i < |b| ensures op.txid != b[i].id {
      if op !in m {
        GainIds(a, keys, op);
        var j :| 0 <= j < |a| && op.txid == a[j].id;
        assert a[j] in a && b[i] in b;
      }
    }
  }

  // ----- the scan of a stretch, range by range -----

  /** Where the range starts that ends at a height: ranges are 500 blocks long from first on. */
  function RangeStart(first: nat, upto: nat): (from: nat)
    requires first < upto
    ensures first <= from < upto <= from + FILTER_SIZE && (from - first) % FILTER_SIZE == 0
  {
    first + (upto - 1 - first) / FILTER_SIZE * FILTER_SIZE
  }

  /** What is unspent after the blocks from first up to upto are scanned, range by range, each against what
      was stored before it. */
  ghost function ScannedUpTo(u: Coins, chain: seq<Block>, keys: Keys, first: nat, upto: nat): Coins
    requires upto <= |chain|
    decreases upto
  {
    if upto <= first then u else
      var from := RangeStart(first, upto);
      var txs := Txs(chain[from..upto]);
      (ScannedUpTo(u, chain, keys, first, from) - AllInputs(txs)) + AllGains(txs, keys)
  }

  /** In none of these ranges is an output of the wallet both created and spent. */
  ghost predicate CalmUpTo(chain: seq<Block>, keys: Keys, first: nat, upto: nat)
    requires upto <= |chain|
    decreases upto
  {
    upto <= first ||
      var from := RangeStart(first, upto);
      CalmUpTo(chain, keys, first, from) && Calm(Txs(chain[from..upto]), keys)
  }

  lemma RangeStartIs(first: nat, from: nat, to: nat)
    requires first <= from < to <= from + FILTER_SIZE && (from - first) % FILTER_SIZE == 0
    ensures RangeStart(first, to) == from
  {
    var q := (from - first) / FILTER_SIZE;
    assert from - first == q * FILTER_SIZE;
    assert (to - 1 - first) / FILTER_SIZE == q;
  }

  lemma TxsJoin(chain: seq<Block>, first: nat, from: nat, to: nat)
    requires first <= from <= to <= |chain|
    ensures Txs(chain[first..to]) == Txs(chain[first..from]) + Txs(chain[from..to])
  {
    assert chain[first..to] == chain[first..from] + chain[from..to];
    hide Txs;
    TxsAppend(chain[first..from], chain[from..to]);
  }

  lemma {:induction false} CalmIsApplied(u: Coins, chain: seq<Block>, keys: Keys, first: nat, upto: nat)
    requires first <= upto <= |chain| && CalmUpTo(chain, keys, first, upto)
    ensures ScannedUpTo(u, chain, keys, first, upto) == Apply(u, Txs(chain[first..upto]), keys)
    decreases upto
  {
    if upto == first {
      assert chain[first..upto] == [];
    } else {
      var from := RangeStart(first, upto);
      CalmIsApplied(u, chain, keys, first, from);
      TxsJoin(chain, first, from, upto);
      hide Apply, AllGains, AllInputs, Txs, RangeStart;
      ApplyAtOnce(ScannedUpTo(u, chain, keys, first, from), Txs(chain[from..upto]), keys);
      ApplyAppend(u, Txs(chain[first..from]), Txs(chain[from..upto]), keys);
    }
  }

  lemma {:induction false} UncalmIsStuck(u: Coins, chain: seq<Block>, keys: Keys, first: nat, upto: nat) returns (op: OutPoint)
    requires first <= upto <= |chain| && !CalmUpTo(chain, keys, first, upto) && Orderly(Txs(chain[first..upto]))
    requires forall tx <- Txs(chain[first..upto]) :: tx.id != NO_HASH
    ensures Stuck(ScannedUpTo(u, chain, keys, first, upto), Txs(chain[first..upto]), op)
    decreases upto
  {
    var from := RangeStart(first, upto);
    var a, b := Txs(chain[first..from]), Txs(chain[from..upto]);
    TxsJoin(chain, first, from, upto);
    assert forall tx <- a :: tx in a + b;
    assert forall tx <- b :: tx in a + b;
    OrderlyPrefix(a, b);
    if CalmUpTo(chain, keys, first, from) {
      hide Txs, AllGains, AllInputs, Stuck, RangeStart;
      op := GetsStuck(ScannedUpTo(u, chain, keys, first, from), a, b, keys);
    } else {
      op := UncalmIsStuck(u, chain, keys, first, from);
      hide Txs, AllGains, AllInputs, Stuck, RangeStart;
      StaysStuck(ScannedUpTo(u, chain, keys, first, from), a, b, keys, op);
    }
  }

  /** Scanning a stretch range by range leaves what its transactions leave if no range creates and spends an
      output of the wallet; and only then, if outputs are spent after they are created, and once. */
  lemma ScanIsExact(peer: Peer, u: Coins, keys: Keys, first: nat, upto: nat)
    requires ValidChain(peer) && first <= upto <= |peer.chain|
    ensures var txs := Txs(peer.chain[first..upto]); var scanned := ScannedUpTo(u, peer.chain, keys, first, upto);
      && (CalmUpTo(peer.chain, keys, first, upto) ==> scanned == Apply(u, txs, keys))
      && (Orderly(txs) ==> (scanned == Apply(u, txs, keys) <==> CalmUpTo(peer.chain, keys, first, upto)))
  {
    RangeIsKnown(peer, first, upto);
    hide ScannedUpTo, CalmUpTo, Txs, Apply, DistinctIds, Stuck, Causal;
    if CalmUpTo(peer.chain, keys, first, upto) {
      CalmIsApplied(u, peer.chain, keys, first, upto);
    } else if Orderly(Txs(peer.chain[first..upto])) {
      var op := UncalmIsStuck(u, peer.chain, keys, first, upto);
      StuckIsWrong(ScannedUpTo(u, peer.chain, keys, first, upto), u, Txs(peer.chain[first..upto]), keys, op);
    }
  }

  /** The wallet holds exactly what the scan of the blocks from first up to upto makes of what it held. */
  ghost predicate Scanned(peer: Peer, before: UtxoMap, m: UtxoMap, keys: Keys, first: nat, upto: nat)
    requires first <= upto <= |peer.chain|
  {
    Unspent(m) == ScannedUpTo(Unspent(before), peer.chain, keys, first, upto)
  }

  lemma ScannedMoves(peer: Peer, before: UtxoMap, m: UtxoMap, m': UtxoMap, keys: Keys, first: nat, from: nat, to: nat)
    requires first <= from < to <= |peer.chain| && to <= from + FILTER_SIZE && (from - first) % FILTER_SIZE == 0
    requires Scanned(peer, before, m, keys, first, from)
    requires var txs := Txs(peer.chain[from..to]); Unspent(m') == (Unspent(m) - AllInputs(txs)) + AllGains(txs, keys)
    ensures Scanned(peer, before, m', keys, first, to)
  {
    hide Unspent, AllInputs, AllGains, Txs;
    RangeStartIs(first, from, to);
  }

  /** Where the scanned part of the chain ends when n blocks after the stored height are fetched. */
  function ScannedEnd(first: nat, n: nat): nat
  {
    if n % FILTER_SIZE == 1 && n % MAX_HEADER_LEN != 1 then first + n - 1 else first + n
  }

  // ----- the loop -----

  class CompactChain {
    var lastBlockHash: Hash
    var lastBlockHeight: nat
    const wallet: WatchOnly

    constructor (genesis: Hash, wallet: WatchOnly)
      ensures lastBlockHash == genesis && lastBlockHeight == 0 && this.wallet == wallet
    {
      lastBlockHash, lastBlockHeight := genesis, 0;
      this.wallet := wallet;
    }

    /** The stored hash is the hash of the block at the stored height. */
    ghost predicate OnChain(peer: Peer)
      reads this
    {
      lastBlockHeight < |peer.chain| && lastBlockHash == peer.chain[lastBlockHeight].hash
    }

    /** The wallet is where the scan from first on has left it at a height, and ready to go on. */
    ghost predicate At(peer: Peer, before: UtxoMap, first: nat, upto: nat)
      reads wallet
    {
      && wallet.Valid() && first <= upto <= |peer.chain|
      && Ready(peer, wallet.utxoMap, wallet.pubkeyMap.Keys, upto)
      && Scanned(peer, before, wallet.utxoMap, wallet.pubkeyMap.Keys, first, upto)
    }

    /** Requests and processes the filters of one batch of headers. */
    method ProcessBatch(peer: Peer, headers: seq<Block>, ghost first: nat, ghost before: UtxoMap)
      requires ValidPeer(peer, wallet.pubkeyMap.Keys) && OnChain(peer)
      requires headers == HeadersAfter(peer.chain, lastBlockHash) && headers != []
      requires At(peer, before, first, lastBlockHeight + 1)
      requires first <= lastBlockHeight + 1 && (lastBlockHeight + 1 - first) % FILTER_SIZE == 0
      modifies wallet`utxoMap
      ensures At(peer, before, first, lastBlockHeight + 1 + RequestEnd(|headers|, RequestCount(|headers|) - 1))
    {
      hide ValidChain, ValidPeer, CompactChain.At, HeadersAfter, BlocksUpTo, RequestEnd, RequestCount, BlockNumbers;
      PeerChain(peer, wallet.pubkeyMap.Keys);
      var n := |headers|;
      var startBlock := lastBlockHeight + 1;
      var endBlock := startBlock + n - 1;
      var lastHash := headers[n - 1].hash;
      var numbers := BlockNumbers(startBlock, endBlock);
      BlockNumbersAre(startBlock, n);
      BatchIs(peer, lastBlockHeight, headers);
      ghost var at: nat := startBlock;
      for i := 0 to |numbers|
        invariant At(peer, before, first, at)
        invariant if i < |numbers| then at == startBlock + FILTER_SIZE * i else at == startBlock + RequestEnd(n, i - 1)
      {
        ProcessStretch(peer, headers, numbers[i], lastHash, i, first, before);
        at := startBlock + RequestEnd(n, i);
      }
    }

    /** The i-th request of a batch: up to the header that ends its 500 blocks, or the last one. */
    method ProcessStretch(peer: Peer, headers: seq<Block>, number: nat, lastHash: Hash, i: nat, ghost first: nat, ghost before: UtxoMap)
      requires ValidPeer(peer, wallet.pubkeyMap.Keys) && OnChain(peer)
      requires headers == HeadersAfter(peer.chain, lastBlockHash) && headers != [] && lastHash == headers[|headers| - 1].hash
      requires i < RequestCount(|headers|) && number == lastBlockHeight + 1 + FILTER_SIZE * i
      requires At(peer, before, first, number)
      requires first <= lastBlockHeight + 1 && (lastBlockHeight + 1 - first) % FILTER_SIZE == 0
      modifies wallet`utxoMap
      ensures At(peer, before, first, lastBlockHeight + 1 + RequestEnd(|headers|, i))
      ensures i + 1 < RequestCount(|headers|) ==> RequestEnd(|headers|, i) == FILTER_SIZE * (i + 1)
    {
      hide ValidChain, ValidPeer, CompactChain.At, HeadersAfter, BlocksUpTo, RequestEnd, RequestCount;
      PeerChain(peer, wallet.pubkeyMap.Keys);
      var counter := FILTER_SIZE * (i + 1);
      var stop := if counter - 1 < |headers| then headers[counter - 1].hash else lastHash;
      RequestIs(peer, lastBlockHeight, headers, i, stop);
      Aligned(lastBlockHeight + 1 - first, i);
      ProcessRequest(peer, number, stop, lastBlockHeight + 1 + RequestEnd(|headers|, i), first, before);
    }

    /** One request: its filters, the blocks that match, and what they hold for the wallet. */
    method ProcessRequest(peer: Peer, start: nat, stop: Hash, ghost end: nat, ghost first: nat, ghost before: UtxoMap)
      requires ValidPeer(peer, wallet.pubkeyMap.Keys) && start < end <= |peer.chain| && end <= start + FILTER_SIZE
      requires BlocksUpTo(peer.chain, start, stop) == peer.chain[start..end]
      requires At(peer, before, first, start) && (start - first) % FILTER_SIZE == 0
      modifies wallet`utxoMap
      ensures At(peer, before, first, end)
    {
      hide ValidChain, ValidPeer, Ours, FreshFor, Ready, Scanned, Apply, Unspent, AllGains, AllInputs, Txs, Acceptable, Calm;
      var blocks := BlocksUpTo(peer.chain, start, stop);
      ghost var m, keys := wallet.utxoMap, wallet.pubkeyMap.Keys;
      PeerChain(peer, keys);
      ReadyIsAcceptable(peer, m, keys, start, end);
      ReadyIsOurs(peer, m, keys, start);
      FetchAndSaveUtxos(peer, blocks, wallet);
      ReadyMoves(peer, m, wallet.utxoMap, keys, start, end);
      ScannedMoves(peer, before, m, wallet.utxoMap, keys, first, start, end);
    }

    /** One batch: fetches headers, processes them and records how far it has come; none left is the end. */
    method SyncBatch(peer: Peer, ghost first: nat, ghost before: UtxoMap) returns (more: bool, ghost end: nat)
      requires ValidPeer(peer, wallet.pubkeyMap.Keys) && OnChain(peer)
      requires At(peer, before, first, lastBlockHeight + 1)
      requires first <= lastBlockHeight + 1 && (lastBlockHeight + 1 - first) % MAX_HEADER_LEN == 0
      modifies this, wallet`utxoMap
      ensures OnChain(peer) && At(peer, before, first, end)
      ensures if more
        then
          && lastBlockHeight > old(lastBlockHeight) && first <= end == lastBlockHeight + 1
          && (end - first) % MAX_HEADER_LEN == 0
        else lastBlockHeight == |peer.chain| - 1 && end == ScannedEnd(first, |peer.chain| - first)
    {
      hide ValidChain, ValidPeer, CompactChain.At, HeadersAfter, RequestEnd, RequestCount, ScannedEnd;
      PeerChain(peer, wallet.pubkeyMap.Keys);
      var headers := HeadersAfter(peer.chain, lastBlockHash);
      BatchIs(peer, lastBlockHeight, headers);
      if |headers| == 0 {
        EndOfScan(first, |peer.chain|);
        return false, lastBlockHeight + 1;
      }
      ProcessBatch(peer, headers, first, before);
      BatchEnds(first, lastBlockHeight + 1, |headers|, |peer.chain|);
      end := lastBlockHeight + 1 + RequestEnd(|headers|, RequestCount(|headers|) - 1);
      more := |headers| >= MAX_HEADER_LEN;
      lastBlockHeight := lastBlockHeight + |headers|;
      lastBlockHash := headers[|headers| - 1].hash;
    }

    /** Fetches headers until there are no more, processing each batch before it is recorded. */
    method SyncState(peer: Peer)
      requires ValidPeer(peer, wallet.pubkeyMap.Keys) && OnChain(peer) && wallet.Valid()
      requires Ready(peer, wallet.utxoMap, wallet.pubkeyMap.Keys, lastBlockHeight + 1)
      modifies this, wallet`utxoMap
      ensures OnChain(peer) && lastBlockHeight == |peer.chain| - 1 && wallet.Valid()
      ensures var first, keys := old(lastBlockHeight) + 1, wallet.pubkeyMap.Keys;
        var end := ScannedEnd(first, |peer.chain| - first);
        && first <= end <= |peer.chain| && Ready(peer, wallet.utxoMap, keys, end)
        && Scanned(peer, old(wallet.utxoMap), wallet.utxoMap, keys, first, end)
        && (CalmUpTo(peer.chain, keys, first, end) ==> CaughtUp(peer, old(wallet.utxoMap), wallet.utxoMap, keys, first, end))
        && (Orderly(Txs(peer.chain[first..end])) ==>
             (CaughtUp(peer, old(wallet.utxoMap), wallet.utxoMap, keys, first, end) <==> CalmUpTo(peer.chain, keys, first, end)))
    {
      hide ValidChain, ValidPeer, Ready, Scanned, CaughtUp, CalmUpTo, Orderly, ScannedEnd;
      ghost var first, before, keys := lastBlockHeight + 1, wallet.utxoMap, wallet.pubkeyMap.Keys;
      NothingYet(peer, before, keys, first);
      ghost var end: nat := first;
      var isSync := true;
      while isSync
        invariant OnChain(peer) && wallet.pubkeyMap.Keys == keys && At(peer, before, first, end)
        invariant if isSync then first <= end == lastBlockHeight + 1 && (end - first) % MAX_HEADER_LEN == 0
                  else lastBlockHeight == |peer.chain| - 1 && end == ScannedEnd(first, |peer.chain| - first)
        decreases |peer.chain| - lastBlockHeight, isSync
      {
        isSync, end := SyncBatch(peer, first, before);
      }
      PeerChain(peer, keys);
      ScannedDecides(peer, before, wallet.utxoMap, keys, first, end);
    }
  }

  /** Whether the scan has left the wallet with what the transactions leave. */
  lemma ScannedDecides(peer: Peer, before: UtxoMap, m: UtxoMap, keys: Keys, first: nat, upto: nat)
    requires ValidChain(peer) && first <= upto <= |peer.chain| && Scanned(peer, before, m, keys, first, upto)
    ensures CalmUpTo(peer.chain, keys, first, upto) ==> CaughtUp(peer, before, m, keys, first, upto)
    ensures Orderly(Txs(peer.chain[first..upto])) ==>
      (CaughtUp(peer, before, m, keys, first, upto) <==> CalmUpTo(peer.chain, keys, first, upto))
  {
    hide ValidChain, ScannedUpTo, CalmUpTo, Orderly, Apply, Unspent, Txs;
    ScanIsExact(peer, Unspent(before), keys, first, upto);
  }

  lemma ReadyIsOurs(peer: Peer, m: UtxoMap, keys: Keys, upto: nat)
    requires upto <= |peer.chain| && Ready(peer, m, keys, upto)
    ensures Ours(peer, m.Keys, keys)
  {}

  /** With nothing left to fetch, the scan ends where it stands. */
  lemma EndOfScan(first: nat, tip: nat)
    requires first <= tip && (tip - first) % MAX_HEADER_LEN == 0
    ensures ScannedEnd(first, tip - first) == tip
  {
    Remainders((tip - first) / MAX_HEADER_LEN, 0);
  }

  /** A batch is the next stretch of the chain, and stops short of 2000 blocks only at its end. */
  lemma BatchIs(peer: Peer, h: nat, headers: seq<Block>)
    requires ValidChain(peer) && h < |peer.chain| && headers == HeadersAfter(peer.chain, peer.chain[h].hash)
    ensures h + 1 + |headers| <= |peer.chain| && |headers| <= MAX_HEADER_LEN
    ensures |headers| < MAX_HEADER_LEN ==> h + 1 + |headers| == |peer.chain|
    ensures headers == peer.chain[h + 1..h + 1 + |headers|]
  {
    HeightIsUnique(peer, h);
  }

  /** The i-th request of a batch asks for the i-th stretch of 500 blocks, or what is left of it. */
  lemma RequestIs(peer: Peer, h: nat, headers: seq<Block>, i: nat, stop: Hash)
    requires ValidChain(peer) && h < |peer.chain| && headers != [] && headers == HeadersAfter(peer.chain, peer.chain[h].hash)
    requires i < RequestCount(|headers|)
    requires stop == headers[Min(FILTER_SIZE * (i + 1), |headers|) - 1].hash
    ensures var from, end := h + 1 + FILTER_SIZE * i, h + 1 + RequestEnd(|headers|, i);
      && (i + 1 < RequestCount(|headers|) ==> end == from + FILTER_SIZE)
      && from < end <= |peer.chain| && BlocksUpTo(peer.chain, from, stop) == peer.chain[from..end]
      && end == Min(from + FILTER_SIZE, |peer.chain|)
  {
    hide ValidChain, HeadersAfter, RequestCount, BlocksUpTo;
    BatchIs(peer, h, headers);
    RequestsCover(|headers|);
    var end := h + 1 + RequestEnd(|headers|, i);
    assert stop == peer.chain[end - 1].hash;
    UpToABlock(peer, h + 1 + FILTER_SIZE * i, end);
  }

  lemma UpToABlock(peer: Peer, from: nat, end: nat)
    requires ValidChain(peer) && from < end <= |peer.chain|
    ensures BlocksUpTo(peer.chain, from, peer.chain[end - 1].hash) == peer.chain[from..end]
  {
    hide ValidChain;
    HeightIsUnique(peer, end - 1);
  }

  lemma NothingYet(peer: Peer, before: UtxoMap, keys: Keys, first: nat)
    requires first <= |peer.chain|
    ensures Scanned(peer, before, before, keys, first, first)
  {}

  /** A full batch is scanned to its end; the last one, if it is shorter, to the end of the scan. */
  lemma BatchEnds(first: nat, start: nat, n: nat, tip: nat)
    requires first <= start && (start - first) % MAX_HEADER_LEN == 0 && 0 < n <= MAX_HEADER_LEN && start + n <= tip
    requires n < MAX_HEADER_LEN ==> start + n == tip
    ensures n == MAX_HEADER_LEN ==> RequestEnd(n, RequestCount(n) - 1) == n && (start + n - first) % MAX_HEADER_LEN == 0
    ensures n < MAX_HEADER_LEN ==> start + RequestEnd(n, RequestCount(n) - 1) == ScannedEnd(first, tip - first)
  {
    RequestsCover(n);
    var k := (start - first) / MAX_HEADER_LEN;
    Remainders(k, n);
  }

  lemma Aligned(d: nat, i: nat)
    ensures (d + FILTER_SIZE * i) % FILTER_SIZE == d % FILTER_SIZE
  {}

  lemma Remainders(k: nat, n: nat)
    ensures (MAX_HEADER_LEN * k + n) % FILTER_SIZE == n % FILTER_SIZE
    ensures (MAX_HEADER_LEN * k + n) % MAX_HEADER_LEN == n % MAX_HEADER_LEN
  {}
}
