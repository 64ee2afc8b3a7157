/** The readers of node/src/messages as they move a stream, each proved to do what the function of Wire,
    Messages or Framing says, and so to read back what was written and to fail on a part of it. */
module Readers {
  import opened Basics
  import opened Bytes
  import opened Header
  import opened Wire
  import opened Messages
  import opened Framing
  import opened Layouts
  import opened Cuts

  /** What a reader returns: a value, an error, or nothing because it panics. */
  datatype Got<+T> = Got(value: T) | Failed | Panicked
  {
    predicate IsFailure() { !Got? }

    function PropagateFailure<U>(): Got<U>
      requires IsFailure()
    {
      if Failed? then Failed else Panicked
    }

    function Extract(): T
      requires !IsFailure()
    {
      value
    }
  }

  /** A reader that leaves `bytes` did what `want` says. An error or a panic says nothing of the
      stream. */
  ghost predicate Follows<T>(got: Got<T>, want: Read<T>, bytes: seq<byte>)
  {
    match want
    case Ok(value, rest) => got == Got(value) && bytes == rest
    case Err => got == Failed
    case Panic => got == Panicked
  }

  /** The elements already read, then the outcome of reading the others. */
  ghost function Onto<T>(done: seq<T>, more: Read<seq<T>>): Read<seq<T>>
  {
    match more
    case Ok(xs, rest) => Ok(done + xs, rest)
    case Err => Err
    case Panic => Panic
  }

  lemma OneMore<T>(read: seq<byte> -> Read<T>, n: nat, s: seq<byte>, done: seq<T>)
    requires n > 0
    ensures Onto(done, ReadMany(read, n, s)) ==
      match read(s) {
        case Ok(x, s1) => Onto(done + [x], ReadMany(read, n - 1, s1))
        case Err => Err
        case Panic => Panic
      }
  {
    if read(s).Ok? {
      var more := ReadMany(read, n - 1, read(s).rest);
      if more.Ok? {
        assert done + ([read(s).value] + more.value) == done + [read(s).value] + more.value;
      }
    }
  }

  lemma NoneLeft<T>(read: seq<byte> -> Read<T>, s: seq<byte>, done: seq<T>)
    ensures Onto(done, ReadMany(read, 0, s)) == Ok(done, s)
  {
    assert done + [] == done;
  }

  lemma OntoNothing<T>(r: Read<seq<T>>)
    ensures Onto([], r) == r
  {
    if r.Ok? {
      assert [] + r.value == r.value;
    }
  }

  lemma ParsedLeavesNothing(c: Command)
    ensures forall payload :: ParsePayload(c, payload).Ok? ==> ParsePayload(c, payload).rest == []
  {
    hide ReadBlock, ReadTx, ReadInv, ReadHeaders, ReadFilter, ReadFilterHeaders, ReadLE;
  }

  // ----- what a reader is for -----

  /** Every well-formed value that was written comes back, and what follows it is left. */
  ghost predicate ReadsBack<T(!new)>(got: Got<T>, before: seq<byte>, after: seq<byte>, write: T -> seq<byte>, ok: T -> bool)
  {
    forall x, rest :: ok(x) && before == write(x) + rest ==> got == Got(x) && after == rest
  }

  /** Of a well-formed value that was written only in part, nothing is made. */
  ghost predicate FailsOnCut<T(!new)>(got: Got<T>, before: seq<byte>, write: T -> seq<byte>, ok: T -> bool)
  {
    forall x, k: nat :: ok(x) && k < |write(x)| && before == write(x)[..k] ==> got == Failed
  }

  /** Every well-formed value reads back. */
  ghost predicate AllReadBack<T(!new)>(read: seq<byte> -> Read<T>, write: T -> seq<byte>, ok: T -> bool)
  {
    forall x :: ok(x) ==> RoundTrips(read, write, x)
  }

  lemma ReaderReadsBack<T(!new)>(read: seq<byte> -> Read<T>, write: T -> seq<byte>, ok: T -> bool, before: seq<byte>)
    requires AllReadBack(read, write, ok)
    ensures forall got, after :: Follows(got, read(before), after) ==> ReadsBack(got, before, after, write, ok)
  {}

  lemma ReaderFailsOnCut<T(!new)>(read: seq<byte> -> Read<T>, write: T -> seq<byte>, ok: T -> bool, before: seq<byte>)
    requires Local(read) && AllReadBack(read, write, ok)
    ensures forall got, after :: Follows(got, read(before), after) ==> FailsOnCut(got, before, write, ok)
  {
    forall x, k: nat | ok(x) && k < |write(x)| && before == write(x)[..k] ensures read(before).Err? {
      CutFails(read, write, x, k);
    }
  }

  ghost predicate VarIntOk(n: nat) { n < Pow256(8) }

  ghost predicate TxOk(t: Tx) { TxFieldsOk(t) && TxForm(t) }

  ghost predicate HeadersOk(hs: seq<BlockHeader>) { |hs| < Pow256(8) && forall h <- hs :: HeaderOk(h) }

  ghost predicate InventoryOk(vs: seq<InvVect>) { InvOk(vs) && |vs| <= MAX_INV_ENTRIES }

  ghost predicate FilterOk(f: CompactFilter) { |f.filterBytes| < Pow256(8) }

  ghost predicate FilterHeadersOk(f: FilterHeaders) { |f.hashes| < Pow256(8) }

  // ----- what each kind of value comes with -----

  lemma VarIntFacts()
    ensures Local(ReadVarInt) && AllReadBack(ReadVarInt, VarInt, VarIntOk)
  {
    hide ReadVarInt, VarInt;
    forall n: nat, rest | VarIntOk(n) ensures ReadVarInt(VarInt(n) + rest) == Ok(n, rest) {
      VarIntRoundTrip(n, rest);
    }
    forall s, t ensures Continues(ReadVarInt(s), ReadVarInt(s + t), t) {
      VarIntContinues(s, t);
    }
  }

  lemma TxInFacts()
    ensures Local(ReadTxIn) && AllReadBack(ReadTxIn, WriteTxIn, TxInOk)
  {
    hide Local, RoundTrips, TxInOk;
    TxInIsLocal();
    forall x | TxInOk(x) ensures RoundTrips(ReadTxIn, WriteTxIn, x) {
      TxInRoundTrip(x);
    }
  }

  lemma TxOutFacts()
    ensures Local(ReadTxOut) && AllReadBack(ReadTxOut, WriteTxOut, TxOutOk)
  {
    hide Local, RoundTrips, TxOutOk;
    TxOutIsLocal();
    forall x | TxOutOk(x) ensures RoundTrips(ReadTxOut, WriteTxOut, x) {
      TxOutRoundTrip(x);
    }
  }

  lemma WitnessFacts()
    ensures Local(ReadWitness) && AllReadBack(ReadWitness, WriteWitness, WitnessOk)
  {
    hide Local, RoundTrips, WitnessOk;
    WitnessIsLocal();
    forall x | WitnessOk(x) ensures RoundTrips(ReadWitness, WriteWitness, x) {
      WitnessRoundTrip(x);
    }
  }

  lemma TxFacts()
    ensures Local(ReadTx) && AllReadBack(ReadTx, WriteTx, TxOk)
  {
    hide Local, TxFieldsOk, TxForm, ReadTx, WriteTx;
    TxIsLocal();
    forall x, rest | TxOk(x) ensures ReadTx(WriteTx(x) + rest) == Ok(x, rest) {
      TxReadsBack(x, rest);
    }
  }

  lemma BlockFacts()
    ensures Local(ReadBlock) && AllReadBack(ReadBlock, WriteBlock, BlockOk)
  {
    hide Local, RoundTrips, BlockOk;
    BlockIsLocal();
    forall x | BlockOk(x) ensures RoundTrips(ReadBlock, WriteBlock, x) {
      BlockRoundTrip(x);
    }
  }

  lemma FilterFacts()
    ensures Local(ReadFilter) && AllReadBack(ReadFilter, WriteFilter, FilterOk)
  {
    hide Local, RoundTrips;
    FilterIsLocal();
    forall x | FilterOk(x) ensures RoundTrips(ReadFilter, WriteFilter, x) {
      FilterRoundTrip(x);
    }
  }

  lemma HeadersFacts()
    ensures AllReadBack(ReadHeaders, WriteHeaders, HeadersOk)
  {
    hide RoundTrips, HeaderOk;
    forall x | HeadersOk(x) ensures RoundTrips(ReadHeaders, WriteHeaders, x) {
      HeadersRoundTrip(x);
    }
  }

  lemma InvFacts()
    ensures AllReadBack(ReadInv, WriteInv, InventoryOk)
  {
    Widths();
    hide ReadInv, WriteInv, InvOk, Pow256;
    forall x, rest | InventoryOk(x) ensures ReadInv(WriteInv(x) + rest) == Ok(x, rest) {
      InvRoundTrip(x, rest);
    }
  }

  lemma FilterHeadersFacts()
    ensures AllReadBack(ReadFilterHeaders, WriteFilterHeaders, FilterHeadersOk)
  {
    hide RoundTrips;
    forall x | FilterHeadersOk(x) ensures RoundTrips(ReadFilterHeaders, WriteFilterHeaders, x) {
      FilterHeadersRoundTrip(x);
    }
  }

  lemma MessageFacts(digest: Digest, magic: seq<byte>)
    requires |magic| == 4
    ensures Local(MessageReader(digest)) && AllReadBack(MessageReader(digest), MessageWriter(digest, magic), MessageOk)
  {
    hide MessageOk, ReadMessage, WriteMessage, Local;
    MessageIsLocal(digest);
    forall x, rest | MessageOk(x) ensures MessageReader(digest)(MessageWriter(digest, magic)(x) + rest) == Ok(x, rest) {
      MessageRoundTrip(digest, magic, x, rest);
    }
  }

  lemma VarIntReads(before: seq<byte>)
    ensures forall got, after :: Follows(got, ReadVarInt(before), after) ==>
      ReadsBack(got, before, after, VarInt, VarIntOk) && FailsOnCut(got, before, VarInt, VarIntOk)
  {
    hide *;
    VarIntFacts();
    ReaderReadsBack(ReadVarInt, VarInt, VarIntOk, before);
    ReaderFailsOnCut(ReadVarInt, VarInt, VarIntOk, before);
  }

  lemma TxInReads(before: seq<byte>)
    ensures forall got, after :: Follows(got, ReadTxIn(before), after) ==>
      ReadsBack(got, before, after, WriteTxIn, TxInOk) && FailsOnCut(got, before, WriteTxIn, TxInOk)
  {
    hide *;
    TxInFacts();
    ReaderReadsBack(ReadTxIn, WriteTxIn, TxInOk, before);
    ReaderFailsOnCut(ReadTxIn, WriteTxIn, TxInOk, before);
  }

  lemma TxOutReads(before: seq<byte>)
    ensures forall got, after :: Follows(got, ReadTxOut(before), after) ==>
      ReadsBack(got, before, after, WriteTxOut, TxOutOk) && FailsOnCut(got, before, WriteTxOut, TxOutOk)
  {
    hide *;
    TxOutFacts();
    ReaderReadsBack(ReadTxOut, WriteTxOut, TxOutOk, before);
    ReaderFailsOnCut(ReadTxOut, WriteTxOut, TxOutOk, before);
  }

  lemma WitnessReads(before: seq<byte>)
    ensures forall got, after :: Follows(got, ReadWitness(before), after) ==>
      ReadsBack(got, before, after, WriteWitness, WitnessOk) && FailsOnCut(got, before, WriteWitness, WitnessOk)
  {
    hide *;
    WitnessFacts();
    ReaderReadsBack(ReadWitness, WriteWitness, WitnessOk, before);
    ReaderFailsOnCut(ReadWitness, WriteWitness, WitnessOk, before);
  }

  lemma TxReads(before: seq<byte>)
    ensures forall got, after :: Follows(got, ReadTx(before), after) ==>
      ReadsBack(got, before, after, WriteTx, TxOk) && FailsOnCut(got, before, WriteTx, TxOk)
  {
    hide *;
    TxFacts();
    ReaderReadsBack(ReadTx, WriteTx, TxOk, before);
    ReaderFailsOnCut(ReadTx, WriteTx, TxOk, before);
  }

  lemma BlockReads(before: seq<byte>)
    ensures forall got, after :: Follows(got, ReadBlock(before), after) ==>
      ReadsBack(got, before, after, WriteBlock, BlockOk) && FailsOnCut(got, before, WriteBlock, BlockOk)
  {
    hide *;
    BlockFacts();
    ReaderReadsBack(ReadBlock, WriteBlock, BlockOk, before);
    ReaderFailsOnCut(ReadBlock, WriteBlock, BlockOk, before);
  }

  lemma HeadersReads(before: seq<byte>)
    ensures forall got, after :: Follows(got, ReadHeaders(before), after) ==>
      ReadsBack(got, before, after, WriteHeaders, HeadersOk)
  {
    hide *;
    HeadersFacts();
    ReaderReadsBack(ReadHeaders, WriteHeaders, HeadersOk, before);
  }

  lemma InvReads(before: seq<byte>)
    ensures forall got, after :: Follows(got, ReadInv(before), after) ==>
      ReadsBack(got, before, after, WriteInv, InventoryOk)
  {
    hide *;
    InvFacts();
    ReaderReadsBack(ReadInv, WriteInv, InventoryOk, before);
  }

  lemma FilterReads(before: seq<byte>)
    ensures forall got, after :: Follows(got, ReadFilter(before), after) ==>
      ReadsBack(got, before, after, WriteFilter, FilterOk) && FailsOnCut(got, before, WriteFilter, FilterOk)
  {
    hide *;
    FilterFacts();
    ReaderReadsBack(ReadFilter, WriteFilter, FilterOk, before);
    ReaderFailsOnCut(ReadFilter, WriteFilter, FilterOk, before);
  }

  lemma FilterHeadersReads(before: seq<byte>)
    ensures forall got, after :: Follows(got, ReadFilterHeaders(before), after) ==>
      ReadsBack(got, before, after, WriteFilterHeaders, FilterHeadersOk)
  {
    hide *;
    FilterHeadersFacts();
    ReaderReadsBack(ReadFilterHeaders, WriteFilterHeaders, FilterHeadersOk, before);
  }

  lemma MessageReads(digest: Digest, magic: seq<byte>, before: seq<byte>)
    requires |magic| == 4
    ensures forall got, after :: Follows(got, ReadMessage(digest, before), after) ==>
      ReadsBack(got, before, after, MessageWriter(digest, magic), MessageOk) && FailsOnCut(got, before, MessageWriter(digest, magic), MessageOk)
  {
    hide MessageOk, ReadMessage, WriteMessage, Local, AllReadBack;
    MessageFacts(digest, magic);
    ReaderReadsBack(MessageReader(digest), MessageWriter(digest, magic), MessageOk, before);
    ReaderFailsOnCut(MessageReader(digest), MessageWriter(digest, magic), MessageOk, before);
    assert MessageReader(digest)(before) == ReadMessage(digest, before);
  }

  class Reader {
    /** What is still to be read. */
    var bytes: seq<byte>

    constructor (bytes: seq<byte>)
      ensures this.bytes == bytes
    {
      this.bytes := bytes;
    }

    // ----- numbers, bytes, hashes -----

    method TakeByte() returns (r: Got<byte>)
      modifies this
      ensures Follows(r, ReadByte(old(bytes)), bytes)
      ensures r.Failed? ==> bytes == old(bytes)
    {
      if bytes == [] {
        return Failed;
      }
      r := Got(bytes[0]);
      bytes := bytes[1..];
    }

    method TakeLE(w: nat) returns (r: Got<nat>)
      modifies this
      ensures Follows(r, ReadLE(old(bytes), w), bytes)
    {
      if |bytes| < w {
        return Failed;
      }
      r := Got(FromLE(bytes[..w]));
      bytes := bytes[w..];
    }

    method TakeHash() returns (r: Got<Hash256>)
      modifies this
      ensures Follows(r, ReadHash(old(bytes)), bytes)
    {
      if |bytes| >= 32 {
        r := Got(bytes[..32]);
        bytes := bytes[32..];
      } else {
        r := Got(bytes + ToLE(0, 32 - |bytes|));
        bytes := [];
      }
    }

    method TakeVarInt() returns (r: Got<nat>)
      modifies this
      ensures Follows(r, ReadVarInt(old(bytes)), bytes)
      ensures ReadsBack(r, old(bytes), bytes, VarInt, VarIntOk)
      ensures FailsOnCut(r, old(bytes), VarInt, VarIntOk)
    {
      hide ReadsBack, FailsOnCut, VarInt, VarIntOk;
      VarIntReads(bytes);
      var first :- TakeByte();
      if first == 0xff {
        r := TakeLE(8);
      } else if first == 0xfe {
        r := TakeLE(4);
      } else if first == 0xfd {
        r := TakeLE(2);
      } else {
        r := Got(first);
      }
    }

    /** Scripts, witness data and filters: a length, then the bytes one by one. */
    method TakeBlob() returns (r: Got<seq<byte>>)
      modifies this
      ensures Follows(r, ReadBlob(old(bytes)), bytes)
    {
      var n :- TakeVarInt();
      ghost var start := bytes;
      var blob: seq<byte> := [];
      for i := 0 to n
        invariant i <= |start|
        invariant blob == start[..i] && bytes == start[i..]
        invariant ReadVarInt(old(bytes)) == Ok(n, start)
      {
        var b :- TakeByte();
        blob := blob + [b];
      }
      r := Got(blob);
    }

    // ----- transactions -----

    method TakeOutPoint() returns (r: Got<OutPoint>)
      modifies this
      ensures Follows(r, ReadOutPoint(old(bytes)), bytes)
    {
      hide ReadHash, ReadLE;
      var hash :- TakeHash();
      var index :- TakeLE(4);
      r := Got(OutPoint(hash, index));
    }

    method TakeTxIn() returns (r: Got<TxIn>)
      modifies this
      ensures Follows(r, ReadTxIn(old(bytes)), bytes)
      ensures ReadsBack(r, old(bytes), bytes, WriteTxIn, TxInOk)
      ensures FailsOnCut(r, old(bytes), WriteTxIn, TxInOk)
    {
      hide ReadsBack, FailsOnCut, WriteTxIn, TxInOk;
      TxInReads(bytes);
      hide ReadOutPoint, ReadBlob, ReadLE;
      var prev :- TakeOutPoint();
      var script :- TakeBlob();
      var sequence :- TakeLE(4);
      r := Got(TxIn(prev, script, sequence));
    }

    method TakeTxOut() returns (r: Got<TxOut>)
      modifies this
      ensures Follows(r, ReadTxOut(old(bytes)), bytes)
      ensures ReadsBack(r, old(bytes), bytes, WriteTxOut, TxOutOk)
      ensures FailsOnCut(r, old(bytes), WriteTxOut, TxOutOk)
    {
      hide ReadsBack, FailsOnCut, WriteTxOut, TxOutOk;
      TxOutReads(bytes);
      hide ReadBlob, ReadLE;
      var satoshis :- TakeLE(8);
      var script :- TakeBlob();
      r := Got(TxOut(Signed(satoshis), script));
    }

    method TakeWitness() returns (r: Got<TxWitness>)
      modifies this
      ensures Follows(r, ReadWitness(old(bytes)), bytes)
      ensures ReadsBack(r, old(bytes), bytes, WriteWitness, WitnessOk)
      ensures FailsOnCut(r, old(bytes), WriteWitness, WitnessOk)
    {
      hide ReadsBack, FailsOnCut, WriteWitness, WitnessOk;
      WitnessReads(bytes);
      hide ReadVarInt, ReadBlob, ReadMany;
      var n :- TakeVarInt();
      var blobs: TxWitness := [];
      OntoNothing(ReadMany(ReadBlob, n, bytes));
      for i := 0 to n
        invariant Onto(blobs, ReadMany(ReadBlob, n - i, bytes)) == ReadWitness(old(bytes))
      {
        OneMore(ReadBlob, n - i, bytes, blobs);
        var blob :- TakeBlob();
        blobs := blobs + [blob];
      }
      NoneLeft(ReadBlob, bytes, blobs);
      r := Got(blobs);
    }

    method TakeTxIns(n: nat) returns (r: Got<seq<TxIn>>)
      modifies this
      ensures Follows(r, ReadMany(ReadTxIn, n, old(bytes)), bytes)
    {
      hide ReadTxIn, ReadMany;
      var inputs: seq<TxIn> := [];
      OntoNothing(ReadMany(ReadTxIn, n, bytes));
      for i := 0 to n
        invariant Onto(inputs, ReadMany(ReadTxIn, n - i, bytes)) == ReadMany(ReadTxIn, n, old(bytes))
      {
        OneMore(ReadTxIn, n - i, bytes, inputs);
        var input :- TakeTxIn();
        inputs := inputs + [input];
      }
      NoneLeft(ReadTxIn, bytes, inputs);
      r := Got(inputs);
    }

    method TakeTxOuts() returns (r: Got<seq<TxOut>>)
      modifies this
      ensures Follows(r, ReadList(ReadTxOut, old(bytes)), bytes)
    {
      hide ReadVarInt, ReadTxOut, ReadMany;
      var n :- TakeVarInt();
      var outputs: seq<TxOut> := [];
      OntoNothing(ReadMany(ReadTxOut, n, bytes));
      for i := 0 to n
        invariant Onto(outputs, ReadMany(ReadTxOut, n - i, bytes)) == ReadList(ReadTxOut, old(bytes))
      {
        OneMore(ReadTxOut, n - i, bytes, outputs);
        var output :- TakeTxOut();
        outputs := outputs + [output];
      }
      NoneLeft(ReadTxOut, bytes, outputs);
      r := Got(outputs);
    }

    method TakeWitnesses(n: nat) returns (r: Got<seq<TxWitness>>)
      modifies this
      ensures Follows(r, ReadMany(ReadWitness, n, old(bytes)), bytes)
    {
      hide ReadWitness, ReadMany;
      var witnesses: seq<TxWitness> := [];
      OntoNothing(ReadMany(ReadWitness, n, bytes));
      for i := 0 to n
        invariant Onto(witnesses, ReadMany(ReadWitness, n - i, bytes)) == ReadMany(ReadWitness, n, old(bytes))
      {
        OneMore(ReadWitness, n - i, bytes, witnesses);
        var item :- TakeWitness();
        witnesses := witnesses + [item];
      }
      NoneLeft(ReadWitness, bytes, witnesses);
      r := Got(witnesses);
    }

    method TakeSegwit(version: nat) returns (r: Got<Tx>)
      modifies this
      ensures Follows(r, ReadSegwit(version, old(bytes)), bytes)
    {
      hide ReadVarInt, ReadMany, ReadTxIn, ReadTxOut, ReadWitness, ReadLE;
      var n :- TakeVarInt();
      ManyLength(ReadTxIn, n, bytes);
      var inputs :- TakeTxIns(n);
      var outputs :- TakeTxOuts();
      var witnesses :- TakeWitnesses(n);
      var lockTime :- TakeLE(4);
      r := Got(Tx(version, Some(1), inputs, outputs, Some(witnesses), lockTime));
    }

    method TakeTx() returns (r: Got<Tx>)
      modifies this
      ensures Follows(r, ReadTx(old(bytes)), bytes)
      ensures ReadsBack(r, old(bytes), bytes, WriteTx, TxOk)
      ensures FailsOnCut(r, old(bytes), WriteTx, TxOk)
    {
      hide ReadsBack, FailsOnCut, WriteTx, TxOk;
      TxReads(bytes);
      hide ReadVarInt, ReadMany, ReadList, ReadTxIn, ReadTxOut, ReadSegwit, ReadLE, ReadByte;
      var version :- TakeLE(4);
      var n :- TakeVarInt();
      if n == 0 {
        var flag :- TakeByte();
        if flag != 1 {
          return Panicked;
        }
        r := TakeSegwit(version);
        return;
      }
      var inputs :- TakeTxIns(n);
      var outputs :- TakeTxOuts();
      var lockTime :- TakeLE(4);
      r := Got(Tx(version, None, inputs, outputs, None, lockTime));
    }

    // ----- blocks, headers, inventories, filters -----

    method TakeHeader() returns (r: Got<BlockHeader>)
      modifies this
      ensures Follows(r, ReadHeader(old(bytes)), bytes)
    {
      hide ReadLE, ReadHash;
      var version :- TakeLE(4);
      var prev :- TakeHash();
      var root :- TakeHash();
      var timestamp :- TakeLE(4);
      var bits :- TakeLE(4);
      var nonce :- TakeLE(4);
      r := Got(BlockHeader(version, prev, root, timestamp, bits, nonce));
    }

    method TakeBlock() returns (r: Got<Block>)
      modifies this
      ensures Follows(r, ReadBlock(old(bytes)), bytes)
      ensures ReadsBack(r, old(bytes), bytes, WriteBlock, BlockOk)
      ensures FailsOnCut(r, old(bytes), WriteBlock, BlockOk)
    {
      hide ReadsBack, FailsOnCut, WriteBlock, BlockOk;
      BlockReads(bytes);
      hide ReadHeader, ReadVarInt, ReadTx, ReadMany;
      var header :- TakeHeader();
      ghost var list := bytes;
      var n :- TakeVarInt();
      var txns: seq<Tx> := [];
      OntoNothing(ReadMany(ReadTx, n, bytes));
      for i := 0 to n
        invariant ReadHeader(old(bytes)) == Ok(header, list)
        invariant Onto(txns, ReadMany(ReadTx, n - i, bytes)) == ReadList(ReadTx, list)
      {
        OneMore(ReadTx, n - i, bytes, txns);
        var tx :- TakeTx();
        txns := txns + [tx];
      }
      NoneLeft(ReadTx, bytes, txns);
      r := Got(Block(header, txns));
    }

    method TakeEntry() returns (r: Got<BlockHeader>)
      modifies this
      ensures Follows(r, ReadEntry(old(bytes)), bytes)
    {
      hide ReadHeader;
      var header :- TakeHeader();
      var _ := TakeByte();
      r := Got(header);
    }

    method TakeHeaders() returns (r: Got<seq<BlockHeader>>)
      modifies this
      ensures Follows(r, ReadHeaders(old(bytes)), bytes)
      ensures ReadsBack(r, old(bytes), bytes, WriteHeaders, HeadersOk)
    {
      hide ReadsBack, FailsOnCut, WriteHeaders, HeadersOk;
      HeadersReads(bytes);
      hide ReadVarInt, ReadEntry, ReadMany;
      var n :- TakeVarInt();
      var headers: seq<BlockHeader> := [];
      OntoNothing(ReadMany(ReadEntry, n, bytes));
      for i := 0 to n
        invariant Onto(headers, ReadMany(ReadEntry, n - i, bytes)) == ReadHeaders(old(bytes))
      {
        OneMore(ReadEntry, n - i, bytes, headers);
        var header :- TakeEntry();
        headers := headers + [header];
      }
      NoneLeft(ReadEntry, bytes, headers);
      r := Got(headers);
    }

    method TakeInvVect() returns (r: Got<InvVect>)
      modifies this
      ensures Follows(r, ReadInvVect(old(bytes)), bytes)
    {
      hide ReadLE, ReadHash;
      var objType :- TakeLE(4);
      var hash :- TakeHash();
      r := Got(InvVect(objType, hash));
    }

    method TakeInv() returns (r: Got<seq<InvVect>>)
      modifies this
      ensures Follows(r, ReadInv(old(bytes)), bytes)
      ensures ReadsBack(r, old(bytes), bytes, WriteInv, InventoryOk)
    {
      hide ReadsBack, FailsOnCut, WriteInv, InventoryOk;
      InvReads(bytes);
      hide ReadVarInt, ReadInvVect, ReadMany;
      var n :- TakeVarInt();
      if n > MAX_INV_ENTRIES {
        return Failed;
      }
      var objects: seq<InvVect> := [];
      OntoNothing(ReadMany(ReadInvVect, n, bytes));
      for i := 0 to n
        invariant Onto(objects, ReadMany(ReadInvVect, n - i, bytes)) == ReadInv(old(bytes))
      {
        OneMore(ReadInvVect, n - i, bytes, objects);
        var v :- TakeInvVect();
        objects := objects + [v];
      }
      NoneLeft(ReadInvVect, bytes, objects);
      r := Got(objects);
    }

    method TakeFilter() returns (r: Got<CompactFilter>)
      modifies this
      ensures Follows(r, ReadFilter(old(bytes)), bytes)
      ensures ReadsBack(r, old(bytes), bytes, WriteFilter, FilterOk)
      ensures FailsOnCut(r, old(bytes), WriteFilter, FilterOk)
    {
      hide ReadsBack, FailsOnCut, WriteFilter, FilterOk;
      FilterReads(bytes);
      hide ReadByte, ReadHash, ReadBlob;
      var filterType :- TakeByte();
      var hash :- TakeHash();
      var filter :- TakeBlob();
      r := Got(CompactFilter(filterType, hash, filter));
    }

    method TakeHashes() returns (r: Got<seq<Hash256>>)
      modifies this
      ensures Follows(r, ReadList(ReadHash, old(bytes)), bytes)
    {
      hide ReadVarInt, ReadHash, ReadMany;
      var n :- TakeVarInt();
      var hashes: seq<Hash256> := [];
      OntoNothing(ReadMany(ReadHash, n, bytes));
      for i := 0 to n
        invariant Onto(hashes, ReadMany(ReadHash, n - i, bytes)) == ReadList(ReadHash, old(bytes))
      {
        OneMore(ReadHash, n - i, bytes, hashes);
        var hash :- TakeHash();
        hashes := hashes + [hash];
      }
      NoneLeft(ReadHash, bytes, hashes);
      r := Got(hashes);
    }

    method TakeFilterHeaders() returns (r: Got<FilterHeaders>)
      modifies this
      ensures Follows(r, ReadFilterHeaders(old(bytes)), bytes)
      ensures ReadsBack(r, old(bytes), bytes, WriteFilterHeaders, FilterHeadersOk)
    {
      hide ReadsBack, FailsOnCut, WriteFilterHeaders, FilterHeadersOk;
      FilterHeadersReads(bytes);
      hide ReadByte, ReadHash, ReadList;
      var filterType :- TakeByte();
      var stop :- TakeHash();
      var previous :- TakeHash();
      var hashes :- TakeHashes();
      r := Got(FilterHeaders(filterType, stop, previous, hashes));
    }

    // ----- messages -----

    method TakeMessageHeader() returns (r: Got<MessageHeader>)
      modifies this
      ensures Follows(r, ReadMessageHeader(old(bytes)), bytes)
      ensures r.Failed? ==> bytes == old(bytes)
    {
      hide FromLE;
      if |bytes| < 24 {
        return Failed;
      }
      r := Got(MessageHeader(bytes[..4], bytes[4..16], FromLE(bytes[16..20]), bytes[20..24]));
      bytes := bytes[24..];
    }

    method TakePayload(digest: Digest, h: MessageHeader) returns (r: Got<seq<byte>>)
      modifies this
      ensures Follows(r, ReadPayload(digest, h, old(bytes)), bytes)
      ensures r.Got? <==> h.payloadSize <= |old(bytes)| && Checksum(digest, old(bytes)[..h.payloadSize]) == h.checksum
      ensures |h.checksum| == 4 ==> (r.Got? <==>
        h.payloadSize <= |old(bytes)| && forall i :: 0 <= i < 4 ==> h.checksum[i] == digest(old(bytes)[..h.payloadSize])[i])
      ensures r.Got? ==> |r.value| == h.payloadSize && r.value + bytes == old(bytes)
    {
      if |h.checksum| == 4 {
        ChecksumIs(digest, h, bytes);
      }
      if h.payloadSize > |bytes| {
        return Failed;
      }
      var payload := bytes[..h.payloadSize];
      bytes := bytes[h.payloadSize..];
      r := if Checksum(digest, payload) == h.checksum then Got(payload) else Failed;
    }

    /** A payload as the message of a command, read with a reader of its own. */
    method TakeBody(c: Command) returns (r: Got<Message>)
      modifies this
      ensures Follows(r, ParsePayload(c, old(bytes)), [])
    {
      hide ReadBlock, ReadTx, ReadInv, ReadHeaders, ReadFilter, ReadFilterHeaders, ReadLE;
      match c
      case BlockCmd => var b :- TakeBlock(); r := Got(BlockMsg(b));
      case TxCmd => var t :- TakeTx(); r := Got(TxMsg(t));
      case GetDataCmd => var vs :- TakeInv(); r := Got(GetData(vs));
      case InvCmd => var vs :- TakeInv(); r := Got(InvMsg(vs));
      case NotFoundCmd => var vs :- TakeInv(); r := Got(NotFound(vs));
      case HeadersCmd => var hs :- TakeHeaders(); r := Got(HeadersMsg(hs));
      case CFiltersCmd => var f :- TakeFilter(); r := Got(CFilters(f));
      case CFHeadersCmd => var f :- TakeFilterHeaders(); r := Got(CFHeaders(f));
      case PingCmd => var nonce :- TakeLE(8); r := Got(Ping(nonce));
      case PongCmd => var nonce :- TakeLE(8); r := Got(Pong(nonce));
      case _ => r := Got(Other(c));
    }

    method TakePartial(digest: Digest, h: MessageHeader) returns (r: Got<Message>)
      modifies this
      ensures Follows(r, ReadPartial(digest, h, old(bytes)), bytes)
    {
      hide CommandOf, BareMessage, ReadPayload, ParsePayload;
      ParsedLeavesNothing(CommandOf(h.command));
      var c := CommandOf(h.command);
      match BareMessage(c)
      case Some(m) => r := if h.payloadSize != 0 then Failed else Got(m);
      case None =>
        if c.UnknownCmd? && h.payloadSize == 0 {
          return Got(Other(c));
        }
        var payload :- TakePayload(digest, h);
        var body := new Reader(payload);
        var m :- body.TakeBody(c);
        r := Got(m);
    }

    method TakeMessage(digest: Digest) returns (r: Got<Message>)
      modifies this
      ensures Follows(r, ReadMessage(digest, old(bytes)), bytes)
      ensures forall magic: seq<byte> :: |magic| == 4 ==>
        && ReadsBack(r, old(bytes), bytes, MessageWriter(digest, magic), MessageOk)
        && FailsOnCut(r, old(bytes), MessageWriter(digest, magic), MessageOk)
    {
      hide ReadsBack, FailsOnCut, MessageWriter, MessageOk, ReadMessage;
      forall magic: seq<byte> | |magic| == 4 {
        MessageReads(digest, magic, bytes);
      }
      r := TakeFramed(digest);
    }

    method TakeFramed(digest: Digest) returns (r: Got<Message>)
      modifies this
      ensures Follows(r, ReadMessage(digest, old(bytes)), bytes)
    {
      hide ReadMessageHeader, ReadPartial;
      var h :- TakeMessageHeader();
      r := TakePartial(digest, h);
    }
  }
}
