/** The writers and size loops of node/src/messages as they extend a stream or a running size, each proved
    to write what reads back and to count what is written. */
module Writers {
  import opened Basics
  import opened Bytes
  import opened Header
  import opened Wire
  import opened Messages
  import opened Framing
  import opened Layouts
  import opened Cuts
  import opened Readers

  /** What was written since then reads back, whatever follows it. */
  ghost predicate Written<T(!new)>(read: seq<byte> -> Read<T>, before: seq<byte>, after: seq<byte>, x: T)
  {
    before <= after && forall rest :: read(after[|before|..] + rest) == Ok(x, rest)
  }

  lemma WrittenIf<T(!new)>(read: seq<byte> -> Read<T>, write: T -> seq<byte>, ok: T -> bool, before: seq<byte>, x: T)
    requires AllReadBack(read, write, ok)
    ensures ok(x) ==> Written(read, before, before + write(x), x)
  {
    assert (before + write(x))[|before|..] == write(x);
  }

  /** Loops write the elements from the front. */
  lemma OneMoreWritten<T>(write: T -> seq<byte>, xs: seq<T>, i: nat, done: seq<byte>)
    requires i < |xs|
    ensures done + WriteAll(write, xs[i..]) == done + write(xs[i]) + WriteAll(write, xs[i + 1..])
  {
    assert xs[i..][1..] == xs[i + 1..];
  }

  lemma WritingEnds<T>(write: T -> seq<byte>, xs: seq<T>)
    ensures xs[0..] == xs && WriteAll(write, xs[|xs|..]) == []
  {}

  /** A transaction as the parts that are written one after the other. */
  lemma TxParts(t: Tx)
    ensures var puts := WriteList(WriteTxIn, t.inputs) + WriteList(WriteTxOut, t.outputs);
      WriteTx(t) ==
        if t.witnesses.Some?
        then ToLE(t.version, 4) + ([0, 1] + (puts + (WriteAll(WriteWitness, t.witnesses.value) + ToLE(t.lockTime, 4))))
        else ToLE(t.version, 4) + (puts + ([] + ToLE(t.lockTime, 4)))
  {
    hide WriteList, WriteTxIn, WriteTxOut, WriteWitness, WriteAll, ToLE;
    Assoc(WriteList(WriteTxIn, t.inputs), WriteList(WriteTxOut, t.outputs), WriteTail(t));
  }

  lemma Joined(done: seq<byte>, version: seq<byte>, puts: seq<byte>, witnesses: seq<byte>, lockTime: seq<byte>)
    ensures done + version + [0] + [1] + puts + witnesses + lockTime == done + (version + ([0, 1] + (puts + (witnesses + lockTime))))
    ensures done + version + puts + lockTime == done + (version + (puts + ([] + lockTime)))
  {}

  class Writer {
    /** What was written. */
    var bytes: seq<byte>

    constructor ()
      ensures bytes == []
    {
      bytes := [];
    }

    method Put(s: seq<byte>)
      modifies this
      ensures bytes == old(bytes) + s
    {
      bytes := bytes + s;
    }

    method PutVarInt(n: nat)
      modifies this
      ensures bytes == old(bytes) + VarInt(n)
      ensures VarIntOk(n) ==> Written(ReadVarInt, old(bytes), bytes, n)
    {
      hide Written, AllReadBack, Local, VarIntOk, ReadVarInt;
      VarIntFacts();
      WrittenIf(ReadVarInt, VarInt, VarIntOk, old(bytes), n);
      hide ToLE;
      if n <= 252 {
        Put([n]);
      } else if n <= 0xffff {
        Put([0xfd]);
        Put(ToLE(n, 2));
      } else if n <= 0xffff_ffff {
        Put([0xfe]);
        Put(ToLE(n, 4));
      } else {
        Put([0xff]);
        Put(ToLE(n, 8));
      }
    }

    method PutBlob(s: seq<byte>)
      modifies this
      ensures bytes == old(bytes) + WriteBlob(s)
    {
      hide VarInt;
      PutVarInt(|s|);
      for i := 0 to |s|
        invariant bytes == old(bytes) + VarInt(|s|) + s[..i]
      {
        Put([s[i]]);
      }
    }

    method PutOutPoint(o: OutPoint)
      modifies this
      ensures bytes == old(bytes) + WriteOutPoint(o)
    {
      hide WriteHash, ToLE;
      Put(WriteHash(o.hash));
      Put(ToLE(o.index, 4));
    }

    method PutTxIn(t: TxIn)
      modifies this
      ensures bytes == old(bytes) + WriteTxIn(t)
    {
      hide WriteOutPoint, WriteBlob, ToLE;
      PutOutPoint(t.prevOutput);
      PutBlob(t.unlockScript);
      Put(ToLE(t.sequence, 4));
    }

    method PutTxOut(t: TxOut)
      modifies this
      ensures bytes == old(bytes) + WriteTxOut(t)
    {
      hide WriteBlob, ToLE;
      Put(ToLE(Unsigned(t.satoshis), 8));
      PutBlob(t.lockScript);
    }

    method PutWitness(xs: TxWitness)
      modifies this
      ensures bytes == old(bytes) + WriteWitness(xs)
      ensures WitnessOk(xs) ==> Written(ReadWitness, old(bytes), bytes, xs)
    {
      hide Written, AllReadBack, Local, WitnessOk, ReadWitness;
      WitnessFacts();
      WrittenIf(ReadWitness, WriteWitness, WitnessOk, old(bytes), xs);
      hide VarInt, WriteBlob, WriteAll;
      WritingEnds(WriteBlob, xs);
      PutVarInt(|xs|);
      Assoc(old(bytes), VarInt(|xs|), WriteAll(WriteBlob, xs));
      for i := 0 to |xs|
        invariant bytes + WriteAll(WriteBlob, xs[i..]) == old(bytes) + WriteWitness(xs)
      {
        OneMoreWritten(WriteBlob, xs, i, bytes);
        PutBlob(xs[i]);
      }
    }

    method PutTxIns(xs: seq<TxIn>)
      modifies this
      ensures bytes == old(bytes) + WriteList(WriteTxIn, xs)
    {
      hide VarInt, WriteTxIn, WriteAll;
      WritingEnds(WriteTxIn, xs);
      PutVarInt(|xs|);
      Assoc(old(bytes), VarInt(|xs|), WriteAll(WriteTxIn, xs));
      for i := 0 to |xs|
        invariant bytes + WriteAll(WriteTxIn, xs[i..]) == old(bytes) + WriteList(WriteTxIn, xs)
      {
        OneMoreWritten(WriteTxIn, xs, i, bytes);
        PutTxIn(xs[i]);
      }
    }

    method PutTxOuts(xs: seq<TxOut>)
      modifies this
      ensures bytes == old(bytes) + WriteList(WriteTxOut, xs)
    {
      hide VarInt, WriteTxOut, WriteAll;
      WritingEnds(WriteTxOut, xs);
      PutVarInt(|xs|);
      Assoc(old(bytes), VarInt(|xs|), WriteAll(WriteTxOut, xs));
      for i := 0 to |xs|
        invariant bytes + WriteAll(WriteTxOut, xs[i..]) == old(bytes) + WriteList(WriteTxOut, xs)
      {
        OneMoreWritten(WriteTxOut, xs, i, bytes);
        PutTxOut(xs[i]);
      }
    }

    method PutWitnesses(xs: seq<TxWitness>)
      modifies this
      ensures bytes == old(bytes) + WriteAll(WriteWitness, xs)
    {
      hide VarInt, WriteWitness, WriteAll;
      WritingEnds(WriteWitness, xs);
      for i := 0 to |xs|
        invariant bytes + WriteAll(WriteWitness, xs[i..]) == old(bytes) + WriteAll(WriteWitness, xs)
      {
        OneMoreWritten(WriteWitness, xs, i, bytes);
        PutWitness(xs[i]);
      }
    }

    /** The inputs and outputs, which both forms of a transaction write. */
    method PutPuts(t: Tx)
      modifies this
      ensures bytes == old(bytes) + (WriteList(WriteTxIn, t.inputs) + WriteList(WriteTxOut, t.outputs))
    {
      hide WriteList, WriteTxIn, WriteTxOut;
      PutTxIns(t.inputs);
      PutTxOuts(t.outputs);
    }

    method PutTx(t: Tx)
      modifies this
      ensures bytes == old(bytes) + WriteTx(t)
      ensures TxOk(t) ==> Written(ReadTx, old(bytes), bytes, t)
    {
      hide Written, AllReadBack, Local, TxOk, ReadTx;
      TxFacts();
      WrittenIf(ReadTx, WriteTx, TxOk, old(bytes), t);
      hide WriteList, WriteTxIn, WriteTxOut, WriteWitness, WriteAll, ToLE, WriteTx;
      ghost var puts := WriteList(WriteTxIn, t.inputs) + WriteList(WriteTxOut, t.outputs);
      TxParts(t);
      Put(ToLE(t.version, 4));
      if t.witnesses.Some? {
        Put([0]);
        Put([1]);
        PutPuts(t);
        PutWitnesses(t.witnesses.value);
        Put(ToLE(t.lockTime, 4));
        Joined(old(bytes), ToLE(t.version, 4), puts, WriteAll(WriteWitness, t.witnesses.value), ToLE(t.lockTime, 4));
        return;
      }
      PutPuts(t);
      Put(ToLE(t.lockTime, 4));
      Joined(old(bytes), ToLE(t.version, 4), puts, [], ToLE(t.lockTime, 4));
    }

    method PutHeader(h: BlockHeader)
      modifies this
      ensures bytes == old(bytes) + WriteHeader(h)
    {
      hide WriteHash, ToLE;
      Put(ToLE(h.version, 4));
      Put(WriteHash(h.prevHash));
      Put(WriteHash(h.merkleRoot));
      Put(ToLE(h.timestamp, 4));
      Put(ToLE(h.bits, 4));
      Put(ToLE(h.nonce, 4));
    }

    method PutTxns(xs: seq<Tx>)
      modifies this
      ensures bytes == old(bytes) + WriteList(WriteTx, xs)
    {
      hide VarInt, WriteTx, WriteAll;
      WritingEnds(WriteTx, xs);
      PutVarInt(|xs|);
      Assoc(old(bytes), VarInt(|xs|), WriteAll(WriteTx, xs));
      for i := 0 to |xs|
        invariant bytes + WriteAll(WriteTx, xs[i..]) == old(bytes) + WriteList(WriteTx, xs)
      {
        OneMoreWritten(WriteTx, xs, i, bytes);
        PutTx(xs[i]);
      }
    }

    method PutBlock(b: Block)
      modifies this
      ensures bytes == old(bytes) + WriteBlock(b)
      ensures BlockOk(b) ==> Written(ReadBlock, old(bytes), bytes, b)
    {
      hide Written, AllReadBack, Local, BlockOk, ReadBlock, WriteHeader, WriteList, WriteTx;
      BlockFacts();
      WrittenIf(ReadBlock, WriteBlock, BlockOk, old(bytes), b);
      PutHeader(b.header);
      PutTxns(b.txns);
      Assoc(old(bytes), WriteHeader(b.header), WriteList(WriteTx, b.txns));
    }

    method PutEntry(h: BlockHeader)
      modifies this
      ensures bytes == old(bytes) + WriteEntry(h)
    {
      hide WriteHeader;
      PutHeader(h);
      Put([0]);
    }

    method PutHeaders(xs: seq<BlockHeader>)
      modifies this
      ensures bytes == old(bytes) + WriteHeaders(xs)
      ensures HeadersOk(xs) ==> Written(ReadHeaders, old(bytes), bytes, xs)
    {
      hide Written, AllReadBack, Local, HeadersOk, ReadHeaders;
      HeadersFacts();
      WrittenIf(ReadHeaders, WriteHeaders, HeadersOk, old(bytes), xs);
      hide VarInt, WriteEntry, WriteAll;
      WritingEnds(WriteEntry, xs);
      PutVarInt(|xs|);
      Assoc(old(bytes), VarInt(|xs|), WriteAll(WriteEntry, xs));
      for i := 0 to |xs|
        invariant bytes + WriteAll(WriteEntry, xs[i..]) == old(bytes) + WriteHeaders(xs)
      {
        OneMoreWritten(WriteEntry, xs, i, bytes);
        PutEntry(xs[i]);
      }
    }

    method PutInvVect(v: InvVect)
      modifies this
      ensures bytes == old(bytes) + WriteInvVect(v)
    {
      hide ToLE, WriteHash;
      Put(ToLE(v.objType, 4));
      Put(WriteHash(v.hash));
    }

    method PutInv(xs: seq<InvVect>)
      modifies this
      ensures bytes == old(bytes) + WriteInv(xs)
      ensures InventoryOk(xs) ==> Written(ReadInv, old(bytes), bytes, xs)
    {
      hide Written, AllReadBack, Local, InventoryOk, ReadInv;
      InvFacts();
      WrittenIf(ReadInv, WriteInv, InventoryOk, old(bytes), xs);
      hide VarInt, WriteInvVect, WriteAll;
      WritingEnds(WriteInvVect, xs);
      PutVarInt(|xs|);
      Assoc(old(bytes), VarInt(|xs|), WriteAll(WriteInvVect, xs));
      for i := 0 to |xs|
        invariant bytes + WriteAll(WriteInvVect, xs[i..]) == old(bytes) + WriteInv(xs)
      {
        OneMoreWritten(WriteInvVect, xs, i, bytes);
        PutInvVect(xs[i]);
      }
    }

    method PutFilter(f: CompactFilter)
      modifies this
      ensures bytes == old(bytes) + WriteFilter(f)
      ensures FilterOk(f) ==> Written(ReadFilter, old(bytes), bytes, f)
    {
      hide Written, AllReadBack, Local, FilterOk, ReadFilter;
      FilterFacts();
      WrittenIf(ReadFilter, WriteFilter, FilterOk, old(bytes), f);
      hide WriteByte, WriteHash, WriteBlob;
      Put(WriteByte(f.filterType));
      Put(WriteHash(f.blockHash));
      PutBlob(f.filterBytes);
    }

    method PutHash(h: Hash256)
      modifies this
      ensures bytes == old(bytes) + WriteHash(h)
    {
      Put(h);
    }

    method PutHashes(xs: seq<Hash256>)
      modifies this
      ensures bytes == old(bytes) + WriteList(WriteHash, xs)
    {
      hide VarInt, WriteHash, WriteAll;
      WritingEnds(WriteHash, xs);
      PutVarInt(|xs|);
      Assoc(old(bytes), VarInt(|xs|), WriteAll(WriteHash, xs));
      for i := 0 to |xs|
        invariant bytes + WriteAll(WriteHash, xs[i..]) == old(bytes) + WriteList(WriteHash, xs)
      {
        OneMoreWritten(WriteHash, xs, i, bytes);
        PutHash(xs[i]);
      }
    }

    method PutFilterHeaders(f: FilterHeaders)
      modifies this
      ensures bytes == old(bytes) + WriteFilterHeaders(f)
      ensures FilterHeadersOk(f) ==> Written(ReadFilterHeaders, old(bytes), bytes, f)
    {
      hide Written, AllReadBack, Local, FilterHeadersOk, ReadFilterHeaders;
      FilterHeadersFacts();
      WrittenIf(ReadFilterHeaders, WriteFilterHeaders, FilterHeadersOk, old(bytes), f);
      hide WriteByte, WriteHash, WriteList;
      Put(WriteByte(f.filterType));
      PutHash(f.stopHash);
      PutHash(f.previous);
      PutHashes(f.hashes);
    }

    method PutMessageHeader(h: MessageHeader)
      modifies this
      ensures bytes == old(bytes) + WriteMessageHeader(h)
    {
      hide ToLE;
      Put(h.magic);
      Put(h.command);
      Put(ToLE(h.payloadSize, 4));
      Put(h.checksum);
    }

    method PutPayload(m: Message)
      requires HasPayload(m)
      modifies this
      ensures bytes == old(bytes) + Payload(m)
    {
      hide WriteBlock, WriteTx, WriteInv, WriteHeaders, WriteFilter, WriteFilterHeaders, ToLE;
      match m
      case BlockMsg(b) => PutBlock(b);
      case TxMsg(t) => PutTx(t);
      case GetData(vs) => PutInv(vs);
      case InvMsg(vs) => PutInv(vs);
      case NotFound(vs) => PutInv(vs);
      case HeadersMsg(hs) => PutHeaders(hs);
      case CFilters(f) => PutFilter(f);
      case CFHeaders(f) => PutFilterHeaders(f);
      case Ping(nonce) => Put(ToLE(nonce, 8));
      case Pong(nonce) => Put(ToLE(nonce, 8));
    }

    /** The payload is written twice: to a buffer, for its checksum, and to the stream. Messages with
        another command are refused. */
    method PutMessage(digest: Digest, magic: seq<byte>, m: Message) returns (ok: bool)
      modifies this
      ensures ok == !m.Other?
      ensures bytes == old(bytes) + if ok then WriteMessage(digest, magic, m) else []
      ensures |magic| == 4 && MessageOk(m) ==> ok && Written(MessageReader(digest), old(bytes), bytes, m)
      ensures |magic| == 4 && ok ==> |bytes| >= |old(bytes)| && Framed(digest, magic, m, bytes[|old(bytes)|..])
    {
      hide Framed;
      if |magic| == 4 && !m.Other? {
        FrameLayout(digest, magic, m);
        assert (old(bytes) + WriteMessage(digest, magic, m))[|old(bytes)|..] == WriteMessage(digest, magic, m);
      }
      hide Written, AllReadBack, Local, MessageOk, MessageReader;
      if |magic| == 4 {
        MessageFacts(digest, magic);
        WrittenIf(MessageReader(digest), MessageWriter(digest, magic), MessageOk, old(bytes), m);
      }
      OkIsNotOther(m);
      hide Payload, PayloadSize, CommandBytes, CommandFor, WriteMessageHeader, Checksum, PayloadOk, HasPayload;
      if m.Other? {
        return false;
      }
      ok := true;
      var command := CommandBytes(CommandFor(m));
      if HasPayload(m) {
        var buffer := new Writer();
        buffer.PutPayload(m);
        assert buffer.bytes == Payload(m);
        var size := PayloadSizeOf(m);
        var h := MessageHeader(magic, command, size % 0x1_0000_0000, Checksum(digest, buffer.bytes));
        PutMessageHeader(h);
        PutPayload(m);
        Assoc(old(bytes), WriteMessageHeader(h), Payload(m));
      } else {
        BareHasNoPayload(m);
        PutMessageHeader(MessageHeader(magic, command, 0, NO_CHECKSUM));
      }
    }
  }

  lemma OkIsNotOther(m: Message)
    ensures MessageOk(m) ==> !m.Other?
  {}

  lemma BareHasNoPayload(m: Message)
    requires !HasPayload(m)
    ensures Payload(m) == []
  {}

  // ----- sizes -----

  method WitnessSizeOf(w: TxWitness) returns (size: int)
    ensures size == WitnessSize(w)
    ensures WitnessOk(w) ==> size == |WriteWitness(w)|
  {
    if WitnessOk(w) {
      WitnessRoundTrip(w);
    }
    hide WitnessOk, WriteWitness, RoundTrips;
    hide VarIntSize, BlobSize;
    size := VarIntSize(|w|);
    for i := 0 to |w|
      invariant size == VarIntSize(|w|) + SumBy(BlobSize, w[..i])
    {
      SumBySplit(BlobSize, w, i);
      size := size + BlobSize(w[i]);
    }
    assert w[..|w|] == w;
  }

  method TxSizeOf(t: Tx) returns (size: int)
    ensures size == TxSize(t)
    ensures TxFieldsOk(t) ==> size == |WriteTx(t)|
  {
    hide TxFieldsOk, WriteTx;
    if TxFieldsOk(t) {
      TxSizeIsRight(t);
    }
    hide VarIntSize, WitnessSize, TxInSize, TxOutSize;
    size := 8;
    if t.witnesses.Some? {
      var ws := t.witnesses.value;
      size := size + 2;
      for i := 0 to |ws|
        invariant size == 10 + SumBy(WitnessSize, ws[..i])
      {
        SumBySplit(WitnessSize, ws, i);
        var one := WitnessSizeOf(ws[i]);
        size := size + one;
      }
      assert ws[..|ws|] == ws;
    }
    size := size + VarIntSize(|t.inputs|);
    ghost var start := size;
    for i := 0 to |t.inputs|
      invariant size == start + SumBy(TxInSize, t.inputs[..i])
    {
      SumBySplit(TxInSize, t.inputs, i);
      size := size + TxInSize(t.inputs[i]);
    }
    assert t.inputs[..|t.inputs|] == t.inputs;
    size := size + VarIntSize(|t.outputs|);
    start := size;
    for i := 0 to |t.outputs|
      invariant size == start + SumBy(TxOutSize, t.outputs[..i])
    {
      SumBySplit(TxOutSize, t.outputs, i);
      size := size + TxOutSize(t.outputs[i]);
    }
    assert t.outputs[..|t.outputs|] == t.outputs;
  }

  method BlockSizeOf(b: Block) returns (size: int)
    ensures size == BlockSize(b)
    ensures BlockOk(b) ==> size == |WriteBlock(b)|
  {
    hide BlockOk, WriteBlock;
    if BlockOk(b) {
      BlockRoundTrip(b);
    }
    hide VarIntSize, TxSize;
    size := 80 + VarIntSize(|b.txns|);
    for i := 0 to |b.txns|
      invariant size == 80 + VarIntSize(|b.txns|) + SumBy(TxSize, b.txns[..i])
    {
      SumBySplit(TxSize, b.txns, i);
      var one := TxSizeOf(b.txns[i]);
      size := size + one;
    }
    assert b.txns[..|b.txns|] == b.txns;
  }

  method PayloadSizeOf(m: Message) returns (size: int)
    ensures size == PayloadSize(m)
    ensures PayloadOk(m) ==> size == |Payload(m)|
  {
    hide PayloadOk, Payload;
    if PayloadOk(m) {
      SizesAgree(m);
    }
    hide BlockSize, TxSize, InvSize, HeadersSize, FilterSize, FilterHeadersSize;
    match m
    case BlockMsg(b) => size := BlockSizeOf(b);
    case TxMsg(t) => size := TxSizeOf(t);
    case _ => size := PayloadSize(m);
  }
}
