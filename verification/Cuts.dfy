/** What the readers of node/src/messages make of a stream that is cut short. Readers that look no further
    than what they return fail on every cut; a hash that is cut short is filled up with zeros, so a
    reader that ends in one does not notice. */
module Cuts {
  import opened Basics
  import opened Bytes
  import opened Header
  import opened Wire
  import opened Messages
  import opened Framing

  /** Reading more of a stream comes to the same, with more left over. */
  ghost predicate Continues<T>(less: Read<T>, more: Read<T>, t: seq<byte>)
  {
    match less
    case Ok(x, rest) => more == Ok(x, rest + t)
    case Panic => more.Panic?
    case Err => true
  }

  /** A reader that does not depend on what follows. */
  ghost predicate Local<T(!new)>(read: seq<byte> -> Read<T>)
  {
    forall s, t :: Continues(read(s), read(s + t), t)
  }

  /** What a reader that does not depend on what follows reads back, it does not find in a part of it. */
  lemma CutFails<T(!new)>(read: seq<byte> -> Read<T>, write: T -> seq<byte>, x: T, k: nat)
    requires Local(read) && RoundTrips(read, write, x) && k < |write(x)|
    ensures read(write(x)[..k]).Err?
  {
    var w := write(x);
    assert w[..k] + w[k..] == w && w + [] == w;
    assert Continues(read(w[..k]), read(w[..k] + w[k..]), w[k..]);
  }

  // ----- numbers, bytes, lists -----

  lemma LEContinues(s: seq<byte>, t: seq<byte>, w: nat)
    ensures Continues(ReadLE(s, w), ReadLE(s + t, w), t)
  {
    hide FromLE;
    if |s| >= w {
      assert (s + t)[..w] == s[..w] && (s + t)[w..] == s[w..] + t;
    }
  }

  lemma ByteContinues(s: seq<byte>, t: seq<byte>)
    ensures Continues(ReadByte(s), ReadByte(s + t), t)
  {
    if s != [] {
      assert (s + t)[1..] == s[1..] + t;
    }
  }

  lemma VarIntContinues(s: seq<byte>, t: seq<byte>)
    ensures Continues(ReadVarInt(s), ReadVarInt(s + t), t)
  {
    if s != [] {
      hide ReadLE;
      assert (s + t)[1..] == s[1..] + t && (s + t)[0] == s[0];
      LEContinues(s[1..], t, 2);
      LEContinues(s[1..], t, 4);
      LEContinues(s[1..], t, 8);
    }
  }

  lemma BlobContinues(s: seq<byte>, t: seq<byte>)
    ensures Continues(ReadBlob(s), ReadBlob(s + t), t)
  {
    hide ReadVarInt;
    VarIntContinues(s, t);
    if ReadVarInt(s).Ok? {
      var (n, s1) := ReadVarInt(s).Extract();
      if n <= |s1| {
        assert (s1 + t)[..n] == s1[..n] && (s1 + t)[n..] == s1[n..] + t;
      }
    }
  }

  lemma BlobIsLocal()
    ensures Local(ReadBlob)
  {
    hide ReadBlob;
    forall s, t ensures Continues(ReadBlob(s), ReadBlob(s + t), t) {
      BlobContinues(s, t);
    }
  }

  lemma {:induction false} ManyContinues<T(!new)>(read: seq<byte> -> Read<T>, n: nat, s: seq<byte>, t: seq<byte>)
    requires Local(read)
    ensures Continues(ReadMany(read, n, s), ReadMany(read, n, s + t), t)
  {
    if n > 0 {
      assert Continues(read(s), read(s + t), t);
      if read(s).Ok? {
        ManyContinues(read, n - 1, read(s).rest, t);
      }
    }
  }

  lemma ListContinues<T(!new)>(read: seq<byte> -> Read<T>, s: seq<byte>, t: seq<byte>)
    requires Local(read)
    ensures Continues(ReadList(read, s), ReadList(read, s + t), t)
  {
    hide ReadVarInt, ReadMany, Local;
    VarIntContinues(s, t);
    if ReadVarInt(s).Ok? {
      ManyContinues(read, ReadVarInt(s).value, ReadVarInt(s).rest, t);
    }
  }

  /** A hash is read whole, or there is nothing left. */
  lemma HashContinues(s: seq<byte>, t: seq<byte>)
    ensures ReadHash(s).Ok?
    ensures Continues(ReadHash(s), ReadHash(s + t), t) || ReadHash(s).rest == []
  {
    hide ToLE;
    if |s| >= 32 {
      assert (s + t)[..32] == s[..32] && (s + t)[32..] == s[32..] + t;
    }
  }

  lemma NothingIsRead()
    ensures ReadLE([], 4).Err? && ReadVarInt([]).Err? && ReadBlob([]).Err?
  {}

  // ----- transactions -----

  lemma OutPointContinues(s: seq<byte>, t: seq<byte>)
    ensures Continues(ReadOutPoint(s), ReadOutPoint(s + t), t)
  {
    NothingIsRead();
    hide ReadHash, ReadLE, ReadVarInt, ReadBlob;
    HashContinues(s, t);
    LEContinues(ReadHash(s).rest, t, 4);
  }

  lemma TxInIsLocal()
    ensures Local(ReadTxIn)
  {
    hide ReadOutPoint, ReadBlob, ReadLE;
    forall s, t ensures Continues(ReadTxIn(s), ReadTxIn(s + t), t) {
      OutPointContinues(s, t);
      if ReadOutPoint(s).Ok? {
        var s1 := ReadOutPoint(s).rest;
        BlobContinues(s1, t);
        if ReadBlob(s1).Ok? {
          LEContinues(ReadBlob(s1).rest, t, 4);
        }
      }
    }
  }

  lemma TxOutIsLocal()
    ensures Local(ReadTxOut)
  {
    hide ReadBlob, ReadLE, Signed;
    forall s, t ensures Continues(ReadTxOut(s), ReadTxOut(s + t), t) {
      LEContinues(s, t, 8);
      if ReadLE(s, 8).Ok? {
        BlobContinues(ReadLE(s, 8).rest, t);
      }
    }
  }

  lemma WitnessIsLocal()
    ensures Local(ReadWitness)
  {
    BlobIsLocal();
    hide ReadBlob, ReadList, Local;
    forall s, t ensures Continues(ReadWitness(s), ReadWitness(s + t), t) {
      ListContinues(ReadBlob, s, t);
    }
    LocalIf(ReadWitness);
  }

  lemma LocalIf<T(!new)>(read: seq<byte> -> Read<T>)
    requires forall s, t :: Continues(read(s), read(s + t), t)
    ensures Local(read)
  {}

  lemma SegwitContinues(version: nat, s: seq<byte>, t: seq<byte>)
    ensures Continues(ReadSegwit(version, s), ReadSegwit(version, s + t), t)
  {
    TxInIsLocal();
    TxOutIsLocal();
    WitnessIsLocal();
    hide ReadTxIn, ReadTxOut, ReadWitness, ReadList, ReadMany, ReadLE, Local;
    ListContinues(ReadTxIn, s, t);
    if ReadList(ReadTxIn, s).Ok? {
      var (inputs, s1) := ReadList(ReadTxIn, s).Extract();
      ListContinues(ReadTxOut, s1, t);
      if ReadList(ReadTxOut, s1).Ok? {
        var s2 := ReadList(ReadTxOut, s1).rest;
        ManyContinues(ReadWitness, |inputs|, s2, t);
        if ReadMany(ReadWitness, |inputs|, s2).Ok? {
          LEContinues(ReadMany(ReadWitness, |inputs|, s2).rest, t, 4);
        }
      }
    }
  }

  lemma LegacyContinues(version: nat, n: nat, s: seq<byte>, t: seq<byte>)
    ensures Continues(ReadLegacy(version, n, s), ReadLegacy(version, n, s + t), t)
  {
    TxInIsLocal();
    TxOutIsLocal();
    hide ReadTxIn, ReadTxOut, ReadList, ReadMany, ReadLE, Local;
    ManyContinues(ReadTxIn, n, s, t);
    if ReadMany(ReadTxIn, n, s).Ok? {
      var s1 := ReadMany(ReadTxIn, n, s).rest;
      ListContinues(ReadTxOut, s1, t);
      if ReadList(ReadTxOut, s1).Ok? {
        LEContinues(ReadList(ReadTxOut, s1).rest, t, 4);
      }
    }
  }

  lemma TxContinues(s: seq<byte>, t: seq<byte>)
    ensures Continues(ReadTx(s), ReadTx(s + t), t)
  {
    hide ReadLE, ReadVarInt, ReadByte, ReadLegacy, ReadSegwit;
    LEContinues(s, t, 4);
    if ReadLE(s, 4).Ok? {
      var (version, s1) := ReadLE(s, 4).Extract();
      VarIntContinues(s1, t);
      if ReadVarInt(s1).Ok? {
        var (n, s2) := ReadVarInt(s1).Extract();
        LegacyContinues(version, n, s2, t);
        ByteContinues(s2, t);
        if ReadByte(s2).Ok? {
          SegwitContinues(version, ReadByte(s2).rest, t);
        }
      }
    }
  }

  lemma TxIsLocal()
    ensures Local(ReadTx)
  {
    hide ReadTx;
    forall s, t ensures Continues(ReadTx(s), ReadTx(s + t), t) {
      TxContinues(s, t);
    }
  }

  // ----- blocks, filters, messages -----

  lemma HeaderContinues(s: seq<byte>, t: seq<byte>)
    ensures Continues(ReadHeader(s), ReadHeader(s + t), t)
  {
    NothingIsRead();
    ZeroHash();
    hide ReadLE, ReadHash, ReadVarInt, ReadBlob;
    LEContinues(s, t, 4);
    if ReadLE(s, 4).Ok? {
      var s1 := ReadLE(s, 4).rest;
      HashContinues(s1, t);
      var s2 := ReadHash(s1).rest;
      HashContinues(s2, t);
      WorkContinues(ReadHash(s2).rest, t);
    }
  }

  lemma ZeroHash()
    ensures ReadHash([]).Ok? && ReadHash([]).rest == []
  {}

  /** The three numbers at the end of a header. */
  lemma WorkContinues(s: seq<byte>, t: seq<byte>)
    ensures Continues(ReadLE(s, 4), ReadLE(s + t, 4), t)
    ensures ReadLE(s, 4).Ok? ==> var s1 := ReadLE(s, 4).rest;
      && Continues(ReadLE(s1, 4), ReadLE(s1 + t, 4), t)
      && (ReadLE(s1, 4).Ok? ==> var s2 := ReadLE(s1, 4).rest; Continues(ReadLE(s2, 4), ReadLE(s2 + t, 4), t))
  {
    hide ReadLE;
    LEContinues(s, t, 4);
    if ReadLE(s, 4).Ok? {
      var s1 := ReadLE(s, 4).rest;
      LEContinues(s1, t, 4);
      if ReadLE(s1, 4).Ok? {
        LEContinues(ReadLE(s1, 4).rest, t, 4);
      }
    }
  }

  lemma BlockIsLocal()
    ensures Local(ReadBlock)
  {
    TxIsLocal();
    hide ReadHeader, ReadList, ReadTx, Local;
    forall s, t ensures Continues(ReadBlock(s), ReadBlock(s + t), t) {
      HeaderContinues(s, t);
      if ReadHeader(s).Ok? {
        ListContinues(ReadTx, ReadHeader(s).rest, t);
      }
    }
    LocalIf(ReadBlock);
  }

  lemma FilterIsLocal()
    ensures Local(ReadFilter)
  {
    NothingIsRead();
    hide ReadByte, ReadHash, ReadBlob, ReadLE, ReadVarInt;
    forall s, t ensures Continues(ReadFilter(s), ReadFilter(s + t), t) {
      ByteContinues(s, t);
      if ReadByte(s).Ok? {
        var s1 := ReadByte(s).rest;
        HashContinues(s1, t);
        BlobContinues(ReadHash(s1).rest, t);
      }
    }
  }

  lemma MessageHeaderContinues(s: seq<byte>, t: seq<byte>)
    ensures Continues(ReadMessageHeader(s), ReadMessageHeader(s + t), t)
  {
    hide FromLE;
    if |s| >= 24 {
      var u := s + t;
      assert u[..4] == s[..4] && u[4..16] == s[4..16] && u[16..20] == s[16..20] && u[20..24] == s[20..24];
      assert u[24..] == s[24..] + t;
    }
  }

  lemma PayloadContinues(digest: Digest, h: MessageHeader, s: seq<byte>, t: seq<byte>)
    ensures Continues(ReadPayload(digest, h, s), ReadPayload(digest, h, s + t), t)
  {
    if h.payloadSize <= |s| {
      assert (s + t)[..h.payloadSize] == s[..h.payloadSize] && (s + t)[h.payloadSize..] == s[h.payloadSize..] + t;
    }
  }

  lemma MessageIsLocal(digest: Digest)
    ensures Local(MessageReader(digest))
  {
    hide ReadMessageHeader, ReadPayload, ParsePayload, CommandOf, BareMessage;
    forall s, t ensures Continues(ReadMessage(digest, s), ReadMessage(digest, s + t), t) {
      MessageHeaderContinues(s, t);
      if ReadMessageHeader(s).Ok? {
        PayloadContinues(digest, ReadMessageHeader(s).value, ReadMessageHeader(s).rest, t);
      }
    }
    LocalIf(MessageReader(digest));
  }

  // ----- cuts that are noticed -----

  lemma TxInCut(x: TxIn, k: nat)
    requires TxInOk(x) && k < |WriteTxIn(x)|
    ensures ReadTxIn(WriteTxIn(x)[..k]).Err?
  {
    hide *;
    TxInIsLocal();
    TxInRoundTrip(x);
    CutFails(ReadTxIn, WriteTxIn, x, k);
  }

  lemma TxOutCut(x: TxOut, k: nat)
    requires TxOutOk(x) && k < |WriteTxOut(x)|
    ensures ReadTxOut(WriteTxOut(x)[..k]).Err?
  {
    hide *;
    TxOutIsLocal();
    TxOutRoundTrip(x);
    CutFails(ReadTxOut, WriteTxOut, x, k);
  }

  lemma WitnessCut(x: TxWitness, k: nat)
    requires WitnessOk(x) && k < |WriteWitness(x)|
    ensures ReadWitness(WriteWitness(x)[..k]).Err?
  {
    hide *;
    WitnessIsLocal();
    WitnessRoundTrip(x);
    CutFails(ReadWitness, WriteWitness, x, k);
  }

  lemma TxCut(x: Tx, k: nat)
    requires TxFieldsOk(x) && TxForm(x) && k < |WriteTx(x)|
    ensures ReadTx(WriteTx(x)[..k]).Err?
  {
    hide TxFieldsOk, TxForm, ReadTx, WriteTx, Local;
    TxIsLocal();
    forall rest ensures ReadTx(WriteTx(x) + rest) == Ok(x, rest) {
      TxReadsBack(x, rest);
    }
    CutFails(ReadTx, WriteTx, x, k);
  }

  lemma HeaderCut(x: BlockHeader, k: nat)
    requires HeaderOk(x) && k < 80
    ensures |WriteHeader(x)| == 80 && ReadHeader(WriteHeader(x)[..k]).Err?
  {
    hide ReadHeader, WriteHeader, HeaderOk;
    HeaderRoundTrip(x);
    forall s, t ensures Continues(ReadHeader(s), ReadHeader(s + t), t) {
      HeaderContinues(s, t);
    }
    CutFails(ReadHeader, WriteHeader, x, k);
  }

  lemma BlockCut(x: Block, k: nat)
    requires BlockOk(x) && k < |WriteBlock(x)|
    ensures ReadBlock(WriteBlock(x)[..k]).Err?
  {
    hide *;
    BlockIsLocal();
    BlockRoundTrip(x);
    CutFails(ReadBlock, WriteBlock, x, k);
  }

  lemma FilterCut(x: CompactFilter, k: nat)
    requires |x.filterBytes| < Pow256(8) && k < |WriteFilter(x)|
    ensures ReadFilter(WriteFilter(x)[..k]).Err?
  {
    hide *;
    FilterIsLocal();
    FilterRoundTrip(x);
    CutFails(ReadFilter, WriteFilter, x, k);
  }

  /** A framed message that is cut short fails, also one whose payload would not notice. */
  lemma MessageCut(digest: Digest, magic: seq<byte>, m: Message, k: nat)
    requires |magic| == 4 && MessageOk(m) && k < |WriteMessage(digest, magic, m)|
    ensures ReadMessage(digest, WriteMessage(digest, magic, m)[..k]).Err?
  {
    hide MessageOk, ReadMessage, WriteMessage, Local;
    MessageIsLocal(digest);
    forall rest ensures MessageReader(digest)(MessageWriter(digest, magic)(m) + rest) == Ok(m, rest) {
      MessageRoundTrip(digest, magic, m, rest);
    }
    CutFails(MessageReader(digest), MessageWriter(digest, magic), m, k);
  }

  // ----- cuts that are not noticed -----

  /** A hash of which only the first j bytes are there. */
  function Padded(h: Hash256, j: nat): Hash256
    requires j <= 32
  {
    h[..j] + ToLE(0, 32 - j)
  }

  lemma HashCut(h: Hash256, j: nat)
    requires j <= 32
    ensures ReadHash(h[..j]) == Ok(Padded(h, j), [])
  {
    hide ToLE;
    assert h[..j] + [] == h[..j];
  }

  /** The last entry of an inventory may be cut inside its hash. */
  function LastPadded(vs: seq<InvVect>, j: nat): seq<InvVect>
    requires vs != [] && j <= 32
  {
    var n := |vs| - 1;
    vs[..n] + [vs[n].(hash := Padded(vs[n].hash, j))]
  }

  lemma LastPaddedPush(vs: seq<InvVect>, j: nat)
    requires |vs| > 1 && j <= 32
    ensures [vs[0]] + LastPadded(vs[1..], j) == LastPadded(vs, j)
  {
    hide Padded;
  }

  lemma InvVectCut(v: InvVect, k: nat)
    requires IsU32(v.objType) && k < 36
    ensures |WriteInvVect(v)| == 36
    ensures ReadInvVect(WriteInvVect(v)[..k]) == if k < 4 then Err else Ok(v.(hash := Padded(v.hash, k - 4)), [])
  {
    var n := ToLE(v.objType, 4);
    if k >= 4 {
      assert (n + v.hash)[..k] == n + v.hash[..k - 4];
      U32RoundTrip(v.objType, v.hash[..k - 4]);
      HashCut(v.hash, k - 4);
    }
  }

  lemma {:induction false} ManyInvCut(vs: seq<InvVect>, k: nat)
    requires InvOk(vs) && k < 36 * |vs|
    ensures |WriteAll(WriteInvVect, vs)| == 36 * |vs|
    ensures ReadMany(ReadInvVect, |vs|, WriteAll(WriteInvVect, vs)[..k])
         == if k >= 36 * |vs| - 32 then Ok(LastPadded(vs, k + 32 - 36 * |vs|), []) else Err
  {
    hide ReadInvVect, WriteInvVect, Padded;
    var first, more := WriteInvVect(vs[0]), WriteAll(WriteInvVect, vs[1..]);
    InvVectCut(vs[0], 0);
    InvVectRoundTrip(vs[0]);
    if k < 36 {
      InvVectCut(vs[0], k);
      assert (first + more)[..k] == first[..k];
      if |vs| > 1 {
        ManyInvCut(vs[1..], 0);
        NoInvVect();
      } else {
        assert vs[1..] == [] && vs[..0] == [];
        if k >= 4 {
          assert LastPadded(vs, k - 4) == [vs[0].(hash := Padded(vs[0].hash, k - 4))] + [];
        }
      }
    } else {
      ManyInvCut(vs[1..], k - 36);
      assert (first + more)[..k] == first + more[..k - 36];
      if k >= 36 * |vs| - 32 {
        LastPaddedPush(vs, k + 32 - 36 * |vs|);
      }
    }
  }

  lemma NoInvVect()
    ensures ReadInvVect([]).Err?
  {}

  /** An inventory that is cut short fails, unless only part of its last hash is missing: then that is
      filled up with zeros. */
  lemma InvCut(vs: seq<InvVect>, k: nat)
    requires InvOk(vs) && |vs| <= MAX_INV_ENTRIES && k < |WriteInv(vs)|
    ensures var missing := |WriteInv(vs)| - k;
      ReadInv(WriteInv(vs)[..k]) == if vs != [] && missing <= 32 then Ok(LastPadded(vs, 32 - missing), []) else Err
  {
    hide ReadInvVect, WriteInvVect, ReadMany, VarInt, ReadVarInt, LastPadded;
    Widths();
    SameSizesOf(vs);
    var count, all := VarInt(|vs|), WriteAll(WriteInvVect, vs);
    VarIntRoundTrip(|vs|, []);
    if k < |count| {
      assert (count + all)[..k] == count[..k];
      VarIntCut(|vs|, k);
    } else {
      assert (count + all)[..k] == count + all[..k - |count|];
      VarIntRoundTrip(|vs|, all[..k - |count|]);
      ManyInvCut(vs, k - |count|);
    }
  }

  lemma SameSizesOf(vs: seq<InvVect>)
    requires InvOk(vs)
    ensures |WriteAll(WriteInvVect, vs)| == 36 * |vs|
    ensures WriteInv(vs) == VarInt(|vs|) + WriteAll(WriteInvVect, vs)
  {
    forall v | v in vs ensures |WriteInvVect(v)| == 36 {
      InvVectRoundTrip(v);
    }
    SameSizes(WriteInvVect, 36, vs);
  }

  lemma VarIntCut(n: nat, k: nat)
    requires n < Pow256(8) && k < |VarInt(n)|
    ensures ReadVarInt(VarInt(n)[..k]).Err?
  {
    hide VarInt, ReadVarInt;
    forall s, t ensures Continues(ReadVarInt(s), ReadVarInt(s + t), t) {
      VarIntContinues(s, t);
    }
    forall rest ensures ReadVarInt(VarInt(n) + rest) == Ok(n, rest) {
      VarIntRoundTrip(n, rest);
    }
    CutFails(ReadVarInt, VarInt, n, k);
  }

  lemma {:induction false} ManyEntryCut(hs: seq<BlockHeader>, k: nat)
    requires (forall h <- hs :: HeaderOk(h)) && k < 81 * |hs|
    ensures |WriteAll(WriteEntry, hs)| == 81 * |hs|
    ensures ReadMany(ReadEntry, |hs|, WriteAll(WriteEntry, hs)[..k]) == if k == 81 * |hs| - 1 then Ok(hs, []) else Err
  {
    hide ReadEntry, WriteEntry, HeaderOk;
    var first, more := WriteEntry(hs[0]), WriteAll(WriteEntry, hs[1..]);
    EntryRoundTrip(hs[0]);
    if k < 81 {
      EntryCut(hs[0], k);
      assert (first + more)[..k] == first[..k];
      if |hs| > 1 {
        ManyEntryCut(hs[1..], 0);
        NoEntry();
      } else {
        assert hs[1..] == [] && [hs[0]] + [] == hs;
      }
    } else {
      ManyEntryCut(hs[1..], k - 81);
      assert (first + more)[..k] == first + more[..k - 81];
      assert hs == [hs[0]] + hs[1..];
    }
  }

  lemma NoEntry()
    ensures ReadEntry([]).Err?
  {}

  lemma EntryCut(h: BlockHeader, k: nat)
    requires HeaderOk(h) && k < 81
    ensures |WriteEntry(h)| == 81
    ensures ReadEntry(WriteEntry(h)[..k]) == if k == 80 then Ok(h, []) else Err
  {
    hide ReadHeader, WriteHeader, HeaderOk;
    HeaderRoundTrip(h);
    if k < 80 {
      HeaderCut(h, k);
      assert (WriteHeader(h) + [0])[..k] == WriteHeader(h)[..k];
    } else {
      assert (WriteHeader(h) + [0])[..80] == WriteHeader(h) + [];
    }
  }

  /** Headers that are cut short fail, unless only the last count is missing, which is ignored. */
  lemma HeadersCut(hs: seq<BlockHeader>, k: nat)
    requires |hs| < Pow256(8) && (forall h <- hs :: HeaderOk(h)) && k < |WriteHeaders(hs)|
    ensures ReadHeaders(WriteHeaders(hs)[..k]) == if hs != [] && k == |WriteHeaders(hs)| - 1 then Ok(hs, []) else Err
  {
    hide ReadEntry, WriteEntry, ReadMany, VarInt, ReadVarInt, HeaderOk;
    EntrySizes(hs);
    var count, all := VarInt(|hs|), WriteAll(WriteEntry, hs);
    VarIntRoundTrip(|hs|, []);
    if k < |count| {
      assert (count + all)[..k] == count[..k];
      VarIntCut(|hs|, k);
    } else {
      assert (count + all)[..k] == count + all[..k - |count|];
      VarIntRoundTrip(|hs|, all[..k - |count|]);
      ManyEntryCut(hs, k - |count|);
    }
  }

  lemma EntrySizes(hs: seq<BlockHeader>)
    requires forall h <- hs :: HeaderOk(h)
    ensures |WriteAll(WriteEntry, hs)| == 81 * |hs|
    ensures WriteHeaders(hs) == VarInt(|hs|) + WriteAll(WriteEntry, hs)
  {
    hide WriteEntry, HeaderOk;
    forall h | h in hs ensures |WriteEntry(h)| == 81 {
      EntryRoundTrip(h);
    }
    SameSizes(WriteEntry, 81, hs);
  }

  /** Hashes of which only the first j bytes are there. */
  function AllPadded(hs: seq<Hash256>, j: nat): seq<Hash256>
  {
    if hs == [] then []
    else if j >= 32 then [hs[0]] + AllPadded(hs[1..], j - 32)
    else [Padded(hs[0], j)] + AllPadded(hs[1..], 0)
  }

  lemma {:induction false} ManyHashCut(hs: seq<Hash256>, j: nat)
    requires j <= 32 * |hs|
    ensures |WriteAll(WriteHash, hs)| == 32 * |hs|
    ensures ReadMany(ReadHash, |hs|, WriteAll(WriteHash, hs)[..j]) == Ok(AllPadded(hs, j), [])
  {
    if hs != [] {
      hide ReadHash, WriteHash, Padded;
      var first, more := WriteHash(hs[0]), WriteAll(WriteHash, hs[1..]);
      HashRoundTrip(hs[0]);
      HashWritten(hs[0]);
      if j >= 32 {
        ManyHashCut(hs[1..], j - 32);
        assert (first + more)[..j] == first + more[..j - 32];
      } else {
        ManyHashCut(hs[1..], 0);
        assert (first + more)[..j] == first[..j] && more[..0] == [];
        HashCut(hs[0], j);
      }
    }
  }

  lemma HashWritten(h: Hash256)
    ensures WriteHash(h) == h && |WriteHash(h)| == 32
  {}

  /** Filter headers that are cut short fail, unless only part of the list of hashes is missing: then that
      is filled up with zeros. */
  lemma FilterHeadersCut(f: FilterHeaders, k: nat)
    requires |f.hashes| < Pow256(8) && k < |WriteFilterHeaders(f)|
    ensures var missing := |WriteFilterHeaders(f)| - k; var n := |f.hashes|;
      ReadFilterHeaders(WriteFilterHeaders(f)[..k]) ==
        if missing <= 32 * n then Ok(f.(hashes := AllPadded(f.hashes, 32 * n - missing)), []) else Err
  {
    var n, count, all := |f.hashes|, VarInt(|f.hashes|), WriteAll(WriteHash, f.hashes);
    ManyHashCut(f.hashes, 0);
    VarIntRoundTrip(n, []);
    var tail := count + all;
    var rest := f.stopHash + (f.previous + tail);
    assert WriteFilterHeaders(f) == [f.filterType] + rest;
    assert |rest| == 64 + |count| + 32 * n;
    if k > 0 {
      assert WriteFilterHeaders(f)[..k] == [f.filterType] + rest[..k - 1];
      assert ([f.filterType] + rest[..k - 1])[1..] == rest[..k - 1];
      LinksCut(f, tail, k - 1);
    }
  }

  /** What is left after the type: two hashes, then the list. */
  lemma LinksCut(f: FilterHeaders, tail: seq<byte>, k: nat)
    requires |f.hashes| < Pow256(8) && tail == WriteList(WriteHash, f.hashes) && k < 64 + |tail|
    ensures var n := |f.hashes|; var s := (f.stopHash + (f.previous + tail))[..k];
      var s1 := ReadHash(s).rest; var s2 := ReadHash(s1).rest;
      if 64 + |VarInt(n)| <= k then
        && ReadHash(s).value == f.stopHash && ReadHash(s1).value == f.previous
        && |tail| == |VarInt(n)| + 32 * n
        && ReadList(ReadHash, s2) == Ok(AllPadded(f.hashes, k - 64 - |VarInt(n)|), [])
      else ReadList(ReadHash, s2).Err?
  {
    hide ReadHash, AllPadded, VarInt, ReadList, WriteList;
    FrontHash(f.stopHash, f.previous + tail, k);
    ListCut(f.hashes, 0);
    NothingIsListed();
    if k >= 32 {
      FrontHash(f.previous, tail, k - 32);
      if k >= 64 {
        ListCut(f.hashes, k - 64);
      }
    }
  }

  /** A hash at the front of a stream that is cut: it is whole and the cut is in the rest, or nothing is left. */
  lemma FrontHash(h: Hash256, tail: seq<byte>, k: nat)
    requires k <= 32 + |tail|
    ensures var r := ReadHash((h + tail)[..k]);
      if k >= 32 then r == Ok(h, tail[..k - 32]) else r.Ok? && r.rest == []
  {
    hide ToLE;
    if k >= 32 {
      assert (h + tail)[..k] == h + tail[..k - 32];
      assert (h + tail[..k - 32])[..32] == h && (h + tail[..k - 32])[32..] == tail[..k - 32];
    }
  }

  lemma NothingIsListed()
    ensures ReadHash([]).Ok? && ReadHash([]).rest == [] && ReadList(ReadHash, []).Err?
  {}

  lemma ListCut(hs: seq<Hash256>, k: nat)
    requires |hs| < Pow256(8) && k <= |WriteList(WriteHash, hs)|
    ensures |WriteList(WriteHash, hs)| == |VarInt(|hs|)| + 32 * |hs|
    ensures ReadList(ReadHash, WriteList(WriteHash, hs)[..k]) ==
      if k < |VarInt(|hs|)| then Err else Ok(AllPadded(hs, k - |VarInt(|hs|)|), [])
  {
    hide ReadHash, WriteHash, VarInt, ReadVarInt, ReadMany, AllPadded;
    var count, all := VarInt(|hs|), WriteAll(WriteHash, hs);
    ManyHashCut(hs, 0);
    if k < |count| {
      assert (count + all)[..k] == count[..k];
      VarIntCut(|hs|, k);
    } else {
      assert (count + all)[..k] == count + all[..k - |count|];
      VarIntRoundTrip(|hs|, all[..k - |count|]);
      ManyHashCut(hs, k - |count|);
    }
  }
}
