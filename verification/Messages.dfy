/** Blocks, headers, inventories and compact filters on the wire. */
module Messages {
  import opened Basics
  import opened Bytes
  import opened Header
  import opened Wire

  // ----- block headers -----

  predicate HeaderOk(h: BlockHeader)
  {
    IsU32(h.version) && IsU32(h.timestamp) && IsU32(h.bits) && IsU32(h.nonce)
  }

  function WriteHeader(h: BlockHeader): seq<byte> { ToLE(h.version, 4) + (WriteLinks(h) + WriteWork(h)) }

  function WriteLinks(h: BlockHeader): seq<byte> { WriteHash(h.prevHash) + WriteHash(h.merkleRoot) }

  function WriteWork(h: BlockHeader): seq<byte> { ToLE(h.timestamp, 4) + (ToLE(h.bits, 4) + ToLE(h.nonce, 4)) }

  function ReadHeader(s: seq<byte>): Read<BlockHeader>
  {
    var (version, s1) :- ReadLE(s, 4);
    var (prev, s2) :- ReadHash(s1);
    var (root, s3) :- ReadHash(s2);
    var (timestamp, s4) :- ReadLE(s3, 4);
    var (bits, s5) :- ReadLE(s4, 4);
    var (nonce, s6) :- ReadLE(s5, 4);
    Ok(BlockHeader(version, prev, root, timestamp, bits, nonce), s6)
  }

  lemma HeaderReadsBack(h: BlockHeader, rest: seq<byte>)
    requires HeaderOk(h)
    ensures ReadHeader(WriteHeader(h) + rest) == Ok(h, rest)
  {
    HashRoundTrip(h.prevHash);
    HashRoundTrip(h.merkleRoot);
    hide ReadLE, ToLE, ReadHash, WriteHash;
    var s5 := ToLE(h.nonce, 4) + rest;
    var s4 := ToLE(h.bits, 4) + s5;
    var s3 := ToLE(h.timestamp, 4) + s4;
    var s2 := WriteHash(h.merkleRoot) + s3;
    var s1 := WriteHash(h.prevHash) + s2;
    Assoc(ToLE(h.version, 4), WriteLinks(h) + WriteWork(h), rest);
    Assoc(WriteLinks(h), WriteWork(h), rest);
    Assoc(ToLE(h.timestamp, 4), ToLE(h.bits, 4) + ToLE(h.nonce, 4), rest);
    Assoc(ToLE(h.bits, 4), ToLE(h.nonce, 4), rest);
    Assoc(WriteHash(h.prevHash), WriteHash(h.merkleRoot), s3);
    U32RoundTrip(h.version, s1);
    U32RoundTrip(h.timestamp, s4);
    U32RoundTrip(h.bits, s5);
    U32RoundTrip(h.nonce, rest);
  }

  lemma HeaderRoundTrip(h: BlockHeader)
    requires HeaderOk(h)
    ensures RoundTrips(ReadHeader, WriteHeader, h)
    ensures |WriteHeader(h)| == 80
  {
    assert |WriteLinks(h)| == 64 && |WriteWork(h)| == 12;
    hide ReadHeader;
    forall rest ensures ReadHeader(WriteHeader(h) + rest) == Ok(h, rest) {
      HeaderReadsBack(h, rest);
    }
  }

  // ----- blocks -----

  datatype Block = Block(header: BlockHeader, txns: seq<Tx>)

  ghost predicate BlockOk(b: Block)
  {
    HeaderOk(b.header) && |b.txns| < Pow256(8) && forall t <- b.txns :: TxFieldsOk(t) && TxForm(t)
  }

  function WriteBlock(b: Block): seq<byte> { WriteHeader(b.header) + WriteList(WriteTx, b.txns) }

  function ReadBlock(s: seq<byte>): Read<Block>
  {
    var (header, s1) :- ReadHeader(s);
    var (txns, s2) :- ReadList(ReadTx, s1);
    Ok(Block(header, txns), s2)
  }

  function BlockSize(b: Block): int { 80 + VarIntSize(|b.txns|) + SumBy(TxSize, b.txns) }

  lemma BlockRoundTrip(b: Block)
    requires BlockOk(b)
    ensures RoundTrips(ReadBlock, WriteBlock, b)
    ensures |WriteBlock(b)| == BlockSize(b)
  {
    hide ReadHeader, WriteHeader, ReadTx, WriteTx, TxSize, TxFieldsOk, TxForm, HeaderOk;
    HeaderRoundTrip(b.header);
    forall t | t in b.txns ensures RoundTrips(ReadTx, WriteTx, t) && |WriteTx(t)| == TxSize(t) {
      TxSizeIsRight(t);
      forall rest ensures ReadTx(WriteTx(t) + rest) == Ok(t, rest) {
        TxReadsBack(t, rest);
      }
    }
    AllSize(WriteTx, TxSize, b.txns);
    VarIntRoundTrip(|b.txns|, []);
    forall rest ensures ReadBlock(WriteBlock(b) + rest) == Ok(b, rest) {
      hide ReadList, WriteList;
      assert WriteBlock(b) + rest == WriteHeader(b.header) + (WriteList(WriteTx, b.txns) + rest);
      ListRoundTrip(ReadTx, WriteTx, b.txns, rest);
    }
  }

  // ----- headers messages -----

  /** A header with the number of transactions that follows it, which is always written as zero and
      ignored when read, even if it is missing. */
  function WriteEntry(h: BlockHeader): seq<byte> { WriteHeader(h) + [0] }

  function ReadEntry(s: seq<byte>): Read<BlockHeader>
  {
    var (h, s1) :- ReadHeader(s);
    Ok(h, if s1 == [] then [] else s1[1..])
  }

  function WriteHeaders(hs: seq<BlockHeader>): seq<byte> { WriteList(WriteEntry, hs) }

  function ReadHeaders(s: seq<byte>): Read<seq<BlockHeader>> { ReadList(ReadEntry, s) }

  function HeadersSize(hs: seq<BlockHeader>): int { VarIntSize(|hs|) + 81 * |hs| }

  lemma EntryRoundTrip(h: BlockHeader)
    requires HeaderOk(h)
    ensures RoundTrips(ReadEntry, WriteEntry, h)
    ensures |WriteEntry(h)| == 81
  {
    HeaderRoundTrip(h);
    hide ReadHeader, WriteHeader;
    forall rest ensures ReadEntry(WriteEntry(h) + rest) == Ok(h, rest) {
      Assoc(WriteHeader(h), [0], rest);
      assert ([0] + rest)[1..] == rest;
    }
  }

  lemma HeadersRoundTrip(hs: seq<BlockHeader>)
    requires |hs| < Pow256(8) && forall h <- hs :: HeaderOk(h)
    ensures RoundTrips(ReadHeaders, WriteHeaders, hs)
    ensures |WriteHeaders(hs)| == HeadersSize(hs)
  {
    hide ReadEntry, WriteEntry, HeaderOk;
    forall h | h in hs ensures RoundTrips(ReadEntry, WriteEntry, h) && |WriteEntry(h)| == 81 {
      EntryRoundTrip(h);
    }
    forall rest ensures ReadHeaders(WriteHeaders(hs) + rest) == Ok(hs, rest) {
      ListRoundTrip(ReadEntry, WriteEntry, hs, rest);
    }
    SameSizes(WriteEntry, 81, hs);
    VarIntRoundTrip(|hs|, []);
  }

  lemma MulSucc(n: nat, k: nat)
    ensures n * (k + 1) == n + n * k
  {}

  lemma {:induction false} SameSizes<T>(write: T -> seq<byte>, n: nat, xs: seq<T>)
    requires forall x <- xs :: |write(x)| == n
    ensures |WriteAll(write, xs)| == n * |xs|
  {
    if xs != [] {
      SameSizes(write, n, xs[1..]);
      MulSucc(n, |xs| - 1);
    }
  }

  // ----- inventories -----

  const MAX_INV_ENTRIES: nat := 50000

  datatype InvVect = InvVect(objType: nat, hash: Hash256)

  function WriteInvVect(v: InvVect): seq<byte> { ToLE(v.objType, 4) + WriteHash(v.hash) }

  function ReadInvVect(s: seq<byte>): Read<InvVect>
  {
    var (objType, s1) :- ReadLE(s, 4);
    var (hash, s2) :- ReadHash(s1);
    Ok(InvVect(objType, hash), s2)
  }

  function WriteInv(vs: seq<InvVect>): seq<byte> { WriteList(WriteInvVect, vs) }

  function ReadInv(s: seq<byte>): Read<seq<InvVect>>
  {
    var (n, s1) :- ReadVarInt(s);
    if n > MAX_INV_ENTRIES then Err else ReadMany(ReadInvVect, n, s1)
  }

  function InvSize(vs: seq<InvVect>): int { VarIntSize(|vs|) + 36 * |vs| }

  lemma InvVectRoundTrip(v: InvVect)
    requires IsU32(v.objType)
    ensures RoundTrips(ReadInvVect, WriteInvVect, v)
    ensures |WriteInvVect(v)| == 36
  {
    HashRoundTrip(v.hash);
    forall rest ensures ReadInvVect(WriteInvVect(v) + rest) == Ok(v, rest) {
      hide ReadLE, ToLE, ReadHash, WriteHash;
      assert WriteInvVect(v) + rest == ToLE(v.objType, 4) + (WriteHash(v.hash) + rest);
      U32RoundTrip(v.objType, WriteHash(v.hash) + rest);
    }
  }

  ghost predicate InvOk(vs: seq<InvVect>) { forall v <- vs :: IsU32(v.objType) }

  /** An inventory reads back exactly when it has at most 50000 entries, and is refused otherwise. */
  lemma InvRoundTrip(vs: seq<InvVect>, rest: seq<byte>)
    requires InvOk(vs) && |vs| < Pow256(8)
    ensures ReadInv(WriteInv(vs) + rest) == if |vs| <= 50000 then Ok(vs, rest) else Err
    ensures |WriteInv(vs)| == InvSize(vs)
  {
    forall v | v in vs ensures RoundTrips(ReadInvVect, WriteInvVect, v) && |WriteInvVect(v)| == 36 {
      InvVectRoundTrip(v);
    }
    hide ReadInvVect, WriteInvVect, RoundTrips;
    assert WriteInv(vs) + rest == VarInt(|vs|) + (WriteAll(WriteInvVect, vs) + rest);
    VarIntRoundTrip(|vs|, WriteAll(WriteInvVect, vs) + rest);
    ManyRoundTrip(ReadInvVect, WriteInvVect, vs, rest);
    SameSizes(WriteInvVect, 36, vs);
  }

  // ----- compact filters -----

  datatype CompactFilter = CompactFilter(filterType: byte, blockHash: Hash256, filterBytes: seq<byte>)

  function WriteFilter(f: CompactFilter): seq<byte>
  {
    WriteByte(f.filterType) + (WriteHash(f.blockHash) + WriteBlob(f.filterBytes))
  }

  function ReadFilter(s: seq<byte>): Read<CompactFilter>
  {
    var (filterType, s1) :- ReadByte(s);
    var (hash, s2) :- ReadHash(s1);
    var (bytes, s3) :- ReadBlob(s2);
    Ok(CompactFilter(filterType, hash, bytes), s3)
  }

  function FilterSize(f: CompactFilter): int { 1 + 32 + VarIntSize(|f.filterBytes|) + |f.filterBytes| }

  lemma FilterRoundTrip(f: CompactFilter)
    requires |f.filterBytes| < Pow256(8)
    ensures RoundTrips(ReadFilter, WriteFilter, f)
    ensures |WriteFilter(f)| == FilterSize(f)
  {
    ByteRoundTrip(f.filterType);
    HashRoundTrip(f.blockHash);
    BlobRoundTrip(f.filterBytes);
    VarIntRoundTrip(|f.filterBytes|, []);
    forall rest ensures ReadFilter(WriteFilter(f) + rest) == Ok(f, rest) {
      hide ReadByte, WriteByte, ReadHash, WriteHash, ReadBlob, WriteBlob;
      assert WriteFilter(f) + rest == WriteByte(f.filterType) + (WriteHash(f.blockHash) + (WriteBlob(f.filterBytes) + rest));
    }
  }

  datatype FilterHeaders = FilterHeaders(filterType: byte, stopHash: Hash256, previous: Hash256, hashes: seq<Hash256>)

  function WriteFilterHeaders(f: FilterHeaders): seq<byte>
  {
    WriteByte(f.filterType) + (WriteHash(f.stopHash) + (WriteHash(f.previous) + WriteList(WriteHash, f.hashes)))
  }

  function ReadFilterHeaders(s: seq<byte>): Read<FilterHeaders>
  {
    var (filterType, s1) :- ReadByte(s);
    var (stop, s2) :- ReadHash(s1);
    var (previous, s3) :- ReadHash(s2);
    var (hashes, s4) :- ReadList(ReadHash, s3);
    Ok(FilterHeaders(filterType, stop, previous, hashes), s4)
  }

  function FilterHeadersSize(f: FilterHeaders): int { 1 + 32 + 32 + VarIntSize(|f.hashes|) + |f.hashes| * 32 }

  lemma FilterHeadersRoundTrip(f: FilterHeaders)
    requires |f.hashes| < Pow256(8)
    ensures RoundTrips(ReadFilterHeaders, WriteFilterHeaders, f)
    ensures |WriteFilterHeaders(f)| == FilterHeadersSize(f)
  {
    ByteRoundTrip(f.filterType);
    HashRoundTrip(f.stopHash);
    HashRoundTrip(f.previous);
    forall h: Hash256 | h in f.hashes ensures RoundTrips(ReadHash, WriteHash, h) && |WriteHash(h)| == 32 {
      HashRoundTrip(h);
    }
    SameSizes(WriteHash, 32, f.hashes);
    VarIntRoundTrip(|f.hashes|, []);
    forall rest ensures ReadFilterHeaders(WriteFilterHeaders(f) + rest) == Ok(f, rest) {
      hide ReadByte, WriteByte, ReadHash, WriteHash, ReadList, WriteList;
      var list := WriteList(WriteHash, f.hashes);
      Assoc(WriteByte(f.filterType), WriteHash(f.stopHash) + (WriteHash(f.previous) + list), rest);
      Assoc(WriteHash(f.stopHash), WriteHash(f.previous) + list, rest);
      Assoc(WriteHash(f.previous), list, rest);
      ListRoundTrip(ReadHash, WriteHash, f.hashes, rest);
    }
  }
}
