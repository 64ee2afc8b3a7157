/** The wire format of node/src/messages: nested length-prefixed readers and writers, as functions on
    byte sequences. */
module Wire {
  import opened Basics
  import opened Bytes
  import opened Header

  lemma Assoc(a: seq<byte>, b: seq<byte>, c: seq<byte>)
    ensures a + b + c == a + (b + c)
  {}

  // ----- lists -----

  function WriteAll<T>(write: T -> seq<byte>, xs: seq<T>): seq<byte>
  {
    if xs == [] then [] else write(xs[0]) + WriteAll(write, xs[1..])
  }

  function ReadMany<T>(read: seq<byte> -> Read<T>, n: nat, s: seq<byte>): Read<seq<T>>
  {
    if n == 0 then Ok([], s) else
    var (x, s1) :- read(s);
    var (xs, s2) :- ReadMany(read, n - 1, s1);
    Ok([x] + xs, s2)
  }

  /** A number of elements, then the elements. */
  function WriteList<T>(write: T -> seq<byte>, xs: seq<T>): seq<byte>
  {
    VarInt(|xs|) + WriteAll(write, xs)
  }

  function ReadList<T>(read: seq<byte> -> Read<T>, s: seq<byte>): Read<seq<T>>
  {
    var (n, s1) :- ReadVarInt(s);
    ReadMany(read, n, s1)
  }

  /** Reading what was written gives the value back and leaves what follows. */
  ghost predicate RoundTrips<T(!new)>(read: seq<byte> -> Read<T>, write: T -> seq<byte>, x: T)
  {
    forall rest :: read(write(x) + rest) == Ok(x, rest)
  }

  lemma {:induction false} ManyRoundTrip<T(!new)>(read: seq<byte> -> Read<T>, write: T -> seq<byte>, xs: seq<T>, rest: seq<byte>)
    requires forall x <- xs :: RoundTrips(read, write, x)
    ensures ReadMany(read, |xs|, WriteAll(write, xs) + rest) == Ok(xs, rest)
  {
    if xs != [] {
      assert RoundTrips(read, write, xs[0]);
      assert WriteAll(write, xs) + rest == write(xs[0]) + (WriteAll(write, xs[1..]) + rest);
      ManyRoundTrip(read, write, xs[1..], rest);
      assert xs == [xs[0]] + xs[1..];
    }
  }

  lemma ListRoundTrip<T(!new)>(read: seq<byte> -> Read<T>, write: T -> seq<byte>, xs: seq<T>, rest: seq<byte>)
    requires |xs| < Pow256(8) && forall x <- xs :: RoundTrips(read, write, x)
    ensures ReadList(read, WriteList(write, xs) + rest) == Ok(xs, rest)
  {
    assert WriteList(write, xs) + rest == VarInt(|xs|) + (WriteAll(write, xs) + rest);
    VarIntRoundTrip(|xs|, WriteAll(write, xs) + rest);
    ManyRoundTrip(read, write, xs, rest);
  }

  lemma {:induction false} ManyLength<T>(read: seq<byte> -> Read<T>, n: nat, s: seq<byte>)
    ensures ReadMany(read, n, s).Ok? ==> |ReadMany(read, n, s).value| == n
  {
    if n > 0 && read(s).Ok? {
      ManyLength(read, n - 1, read(s).rest);
    }
  }

  lemma {:induction false} AllSize<T>(write: T -> seq<byte>, size: T -> int, xs: seq<T>)
    requires forall x <- xs :: |write(x)| == size(x)
    ensures |WriteAll(write, xs)| == SumBy(size, xs)
  {
    if xs != [] {
      AllSize(write, size, xs[1..]);
    }
  }

  // ----- bytes, hashes, numbers -----

  function WriteByte(b: byte): seq<byte> { [b] }

  function ReadByte(s: seq<byte>): Read<byte>
  {
    if s == [] then Err else Ok(s[0], s[1..])
  }

  lemma ByteRoundTrip(b: byte)
    ensures RoundTrips(ReadByte, WriteByte, b)
  {}

  function WriteBlob(s: seq<byte>): seq<byte> { VarInt(|s|) + s }

  /** A length, then that many bytes one by one. */
  function ReadBlob(s: seq<byte>): Read<seq<byte>>
  {
    var (n, s1) :- ReadVarInt(s);
    if n > |s1| then Err else Ok(s1[..n], s1[n..])
  }

  lemma BlobRoundTrip(b: seq<byte>)
    requires |b| < Pow256(8)
    ensures RoundTrips(ReadBlob, WriteBlob, b)
  {
    forall rest ensures ReadBlob(WriteBlob(b) + rest) == Ok(b, rest) {
      assert WriteBlob(b) + rest == VarInt(|b|) + (b + rest);
      VarIntRoundTrip(|b|, b + rest);
      assert (b + rest)[..|b|] == b && (b + rest)[|b|..] == rest;
    }
  }

  function WriteHash(h: Hash256): seq<byte> { h }

  /** Takes up to 32 bytes; a stream that ends early leaves the other bytes zero. */
  function ReadHash(s: seq<byte>): Read<Hash256>
  {
    if |s| >= 32 then Ok(s[..32], s[32..]) else Ok(s + ToLE(0, 32 - |s|), [])
  }

  lemma HashRoundTrip(h: Hash256)
    ensures RoundTrips(ReadHash, WriteHash, h)
  {
    forall rest ensures ReadHash(WriteHash(h) + rest) == Ok(h, rest) {
      assert (h + rest)[..32] == h && (h + rest)[32..] == rest;
    }
  }

  /** A signed 64-bit number as the unsigned one with the same bits, and back. */
  function Unsigned(n: int): nat { n % 0x1_0000_0000_0000_0000 }

  function Signed(n: int): int { if n < 0x8000_0000_0000_0000 then n else n - 0x1_0000_0000_0000_0000 }

  lemma SignedRoundTrip(n: int)
    requires IsI64(n)
    ensures Signed(Unsigned(n)) == n && Unsigned(n) < Pow256(8)
  {
    Widths();
  }

  predicate IsU32(n: nat) { n < 0x1_0000_0000 }

  predicate IsI64(n: int) { -0x8000_0000_0000_0000 <= n < 0x8000_0000_0000_0000 }

  lemma U32RoundTrip(n: nat, rest: seq<byte>)
    requires IsU32(n)
    ensures ReadLE(ToLE(n, 4) + rest, 4) == Ok(n, rest)
  {
    Widths();
    ReadLERoundTrip(n, 4, rest);
  }

  // ----- transaction inputs and outputs -----

  datatype OutPoint = OutPoint(hash: Hash256, index: nat)

  datatype TxIn = TxIn(prevOutput: OutPoint, unlockScript: seq<byte>, sequence: nat)

  datatype TxOut = TxOut(satoshis: int, lockScript: seq<byte>)

  predicate OutPointOk(o: OutPoint) { IsU32(o.index) }

  ghost predicate TxInOk(t: TxIn) { OutPointOk(t.prevOutput) && |t.unlockScript| < Pow256(8) && IsU32(t.sequence) }

  ghost predicate TxOutOk(t: TxOut) { IsI64(t.satoshis) && |t.lockScript| < Pow256(8) }

  function WriteOutPoint(o: OutPoint): seq<byte> { WriteHash(o.hash) + ToLE(o.index, 4) }

  function ReadOutPoint(s: seq<byte>): Read<OutPoint>
  {
    var (hash, s1) :- ReadHash(s);
    var (index, s2) :- ReadLE(s1, 4);
    Ok(OutPoint(hash, index), s2)
  }

  lemma OutPointRoundTrip(o: OutPoint)
    requires OutPointOk(o)
    ensures RoundTrips(ReadOutPoint, WriteOutPoint, o)
  {
    hide ReadHash, WriteHash, ReadLE, ToLE;
    HashRoundTrip(o.hash);
    forall rest ensures ReadOutPoint(WriteOutPoint(o) + rest) == Ok(o, rest) {
      assert WriteOutPoint(o) + rest == WriteHash(o.hash) + (ToLE(o.index, 4) + rest);
      U32RoundTrip(o.index, rest);
    }
  }

  function WriteTxIn(t: TxIn): seq<byte>
  {
    WriteOutPoint(t.prevOutput) + (WriteBlob(t.unlockScript) + ToLE(t.sequence, 4))
  }

  function ReadTxIn(s: seq<byte>): Read<TxIn>
  {
    var (prev, s1) :- ReadOutPoint(s);
    var (script, s2) :- ReadBlob(s1);
    var (sequence, s3) :- ReadLE(s2, 4);
    Ok(TxIn(prev, script, sequence), s3)
  }

  function TxInSize(t: TxIn): int { 36 + VarIntSize(|t.unlockScript|) + |t.unlockScript| + 4 }

  lemma TxInRoundTrip(t: TxIn)
    requires TxInOk(t)
    ensures RoundTrips(ReadTxIn, WriteTxIn, t)
    ensures |WriteTxIn(t)| == TxInSize(t)
  {
    VarIntRoundTrip(|t.unlockScript|, []);
    assert |WriteTxIn(t)| == TxInSize(t);
    hide ReadTxIn, WriteTxIn;
    forall rest ensures ReadTxIn(WriteTxIn(t) + rest) == Ok(t, rest) {
      TxInReadsBack(t, rest);
    }
  }

  lemma TxInReadsBack(t: TxIn, rest: seq<byte>)
    requires TxInOk(t)
    ensures ReadTxIn(WriteTxIn(t) + rest) == Ok(t, rest)
  {
    hide ReadOutPoint, ReadBlob, ReadLE, WriteOutPoint, WriteBlob, ToLE, OutPointOk, Pow256, IsU32;
    OutPointRoundTrip(t.prevOutput);
    BlobRoundTrip(t.unlockScript);
    U32RoundTrip(t.sequence, rest);
    var prev, script, sequence := WriteOutPoint(t.prevOutput), WriteBlob(t.unlockScript), ToLE(t.sequence, 4);
    Assoc(prev, script + sequence, rest);
    Assoc(script, sequence, rest);
  }

  function WriteTxOut(t: TxOut): seq<byte>
  {
    ToLE(Unsigned(t.satoshis), 8) + WriteBlob(t.lockScript)
  }

  function ReadTxOut(s: seq<byte>): Read<TxOut>
  {
    var (satoshis, s1) :- ReadLE(s, 8);
    var (script, s2) :- ReadBlob(s1);
    Ok(TxOut(Signed(satoshis), script), s2)
  }

  function TxOutSize(t: TxOut): int { 8 + VarIntSize(|t.lockScript|) + |t.lockScript| }

  lemma TxOutRoundTrip(t: TxOut)
    requires TxOutOk(t)
    ensures RoundTrips(ReadTxOut, WriteTxOut, t)
    ensures |WriteTxOut(t)| == TxOutSize(t)
  {
    SignedRoundTrip(t.satoshis);
    VarIntRoundTrip(|t.lockScript|, []);
    BlobRoundTrip(t.lockScript);
    hide ReadBlob, ReadLE, Pow256, Signed, Unsigned, IsI64;
    forall rest ensures ReadTxOut(WriteTxOut(t) + rest) == Ok(t, rest) {
      hide WriteBlob, ToLE;
      assert WriteTxOut(t) + rest == ToLE(Unsigned(t.satoshis), 8) + (WriteBlob(t.lockScript) + rest);
      ReadLERoundTrip(Unsigned(t.satoshis), 8, WriteBlob(t.lockScript) + rest);
    }
  }

  // ----- witnesses -----

  /** The witness of one input: a list of byte strings. */
  type TxWitness = seq<seq<byte>>

  ghost predicate WitnessOk(w: TxWitness) { |w| < Pow256(8) && forall d <- w :: |d| < Pow256(8) }

  function WriteWitness(w: TxWitness): seq<byte> { WriteList(WriteBlob, w) }

  function ReadWitness(s: seq<byte>): Read<TxWitness> { ReadList(ReadBlob, s) }

  function BlobSize(d: seq<byte>): int { VarIntSize(|d|) + |d| }

  function WitnessSize(w: TxWitness): int { VarIntSize(|w|) + SumBy(BlobSize, w) }

  lemma WitnessRoundTrip(w: TxWitness)
    requires WitnessOk(w)
    ensures RoundTrips(ReadWitness, WriteWitness, w)
    ensures |WriteWitness(w)| == WitnessSize(w)
  {
    forall d | d in w ensures RoundTrips(ReadBlob, WriteBlob, d) && |WriteBlob(d)| == BlobSize(d) {
      BlobRoundTrip(d);
      VarIntRoundTrip(|d|, []);
    }
    forall rest ensures ReadWitness(WriteWitness(w) + rest) == Ok(w, rest) {
      ListRoundTrip(ReadBlob, WriteBlob, w, rest);
    }
    VarIntRoundTrip(|w|, []);
    AllSize(WriteBlob, BlobSize, w);
  }

  // ----- transactions -----

  datatype Tx = Tx(version: nat, flag: Option<byte>, inputs: seq<TxIn>, outputs: seq<TxOut>,
                   witnesses: Option<seq<TxWitness>>, lockTime: nat)

  /** Every field is in the range of its type. */
  ghost predicate TxFieldsOk(t: Tx)
  {
    && IsU32(t.version) && IsU32(t.lockTime)
    && |t.inputs| < Pow256(8) && |t.outputs| < Pow256(8)
    && (forall i <- t.inputs :: TxInOk(i)) && (forall o <- t.outputs :: TxOutOk(o))
    && (t.witnesses.Some? ==> forall w <- t.witnesses.value :: WitnessOk(w))
  }

  /** One of the two forms of BIP 144, section Serialization: without flag and witnesses but with an
      input, or with flag 1 and one witness for each input. */
  predicate TxForm(t: Tx)
  {
    match t.witnesses
    case None => t.flag == None && t.inputs != []
    case Some(ws) => t.flag == Some(1) && |ws| == |t.inputs|
  }

  function WriteBody(t: Tx): seq<byte>
  {
    WriteList(WriteTxIn, t.inputs) + (WriteList(WriteTxOut, t.outputs) + WriteTail(t))
  }

  function WriteTail(t: Tx): seq<byte>
  {
    (if t.witnesses.Some? then WriteAll(WriteWitness, t.witnesses.value) else []) + ToLE(t.lockTime, 4)
  }

  function WriteTx(t: Tx): seq<byte>
  {
    ToLE(t.version, 4) + (if t.witnesses.Some? then [0, 1] + WriteBody(t) else WriteBody(t))
  }

  /** What follows the marker and flag of a segwit transaction. */
  function ReadSegwit(version: nat, s: seq<byte>): Read<Tx>
  {
    var (inputs, s1) :- ReadList(ReadTxIn, s);
    var (outputs, s2) :- ReadList(ReadTxOut, s1);
    var (witnesses, s3) :- ReadMany(ReadWitness, |inputs|, s2);
    var (lockTime, s4) :- ReadLE(s3, 4);
    Ok(Tx(version, Some(1), inputs, outputs, Some(witnesses), lockTime), s4)
  }

  /** What follows the number of inputs of a legacy transaction. */
  function ReadLegacy(version: nat, n: nat, s: seq<byte>): Read<Tx>
  {
    var (inputs, s1) :- ReadMany(ReadTxIn, n, s);
    var (outputs, s2) :- ReadList(ReadTxOut, s1);
    var (lockTime, s3) :- ReadLE(s2, 4);
    Ok(Tx(version, None, inputs, outputs, None, lockTime), s3)
  }

  function ReadTx(s: seq<byte>): Read<Tx>
  {
    var (version, s1) :- ReadLE(s, 4);
    var (n, s2) :- ReadVarInt(s1);
    if n != 0 then ReadLegacy(version, n, s2) else
    var (flag, s3) :- ReadByte(s2);
    if flag == 1 then ReadSegwit(version, s3) else Panic
  }

  function TxSize(t: Tx): int
  {
    8 + (if t.witnesses.Some? then 2 + SumBy(WitnessSize, t.witnesses.value) else 0)
    + VarIntSize(|t.inputs|) + SumBy(TxInSize, t.inputs) + VarIntSize(|t.outputs|) + SumBy(TxOutSize, t.outputs)
  }

  /** The elements of a transaction read back. */
  lemma PartsRoundTrip(t: Tx)
    requires TxFieldsOk(t)
    ensures forall i <- t.inputs :: RoundTrips(ReadTxIn, WriteTxIn, i) && |WriteTxIn(i)| == TxInSize(i)
    ensures forall o <- t.outputs :: RoundTrips(ReadTxOut, WriteTxOut, o) && |WriteTxOut(o)| == TxOutSize(o)
    ensures t.witnesses.Some? ==>
      forall w <- t.witnesses.value :: RoundTrips(ReadWitness, WriteWitness, w) && |WriteWitness(w)| == WitnessSize(w)
  {
    hide RoundTrips, WriteTxIn, WriteTxOut, WriteWitness, TxInSize, TxOutSize, WitnessSize, TxInOk, TxOutOk, WitnessOk;
    forall i | i in t.inputs ensures RoundTrips(ReadTxIn, WriteTxIn, i) && |WriteTxIn(i)| == TxInSize(i) {
      TxInRoundTrip(i);
    }
    forall o | o in t.outputs ensures RoundTrips(ReadTxOut, WriteTxOut, o) && |WriteTxOut(o)| == TxOutSize(o) {
      TxOutRoundTrip(o);
    }
    if t.witnesses.Some? {
      forall w | w in t.witnesses.value ensures RoundTrips(ReadWitness, WriteWitness, w) && |WriteWitness(w)| == WitnessSize(w) {
        WitnessRoundTrip(w);
      }
    }
  }

  lemma SegwitRoundTrip(t: Tx, rest: seq<byte>)
    requires TxFieldsOk(t) && TxForm(t) && t.witnesses.Some?
    ensures ReadSegwit(t.version, WriteBody(t) + rest) == Ok(t, rest)
  {
    hide RoundTrips, ReadTxIn, ReadTxOut, ReadWitness, WriteTxIn, WriteTxOut, WriteWitness, ReadList, WriteList, ReadMany, WriteAll, ReadLE, ToLE, TxFieldsOk,
      TxInSize, TxOutSize, WitnessSize;
    PartsRoundTrip(t);
    var ws, end := t.witnesses.value, ToLE(t.lockTime, 4) + rest;
    var s2 := WriteAll(WriteWitness, ws) + end;
    var s1 := WriteList(WriteTxOut, t.outputs) + s2;
    BodyIs(t, rest, s1, s2, end);
    FieldsInRange(t);
    ListRoundTrip(ReadTxIn, WriteTxIn, t.inputs, s1);
    ListRoundTrip(ReadTxOut, WriteTxOut, t.outputs, s2);
    ManyRoundTrip(ReadWitness, WriteWitness, ws, end);
    U32RoundTrip(t.lockTime, rest);
  }

  /** A segwit body, regrouped as its readers take it apart. */
  lemma BodyIs(t: Tx, rest: seq<byte>, s1: seq<byte>, s2: seq<byte>, end: seq<byte>)
    requires t.witnesses.Some? && end == ToLE(t.lockTime, 4) + rest
    requires s2 == WriteAll(WriteWitness, t.witnesses.value) + end && s1 == WriteList(WriteTxOut, t.outputs) + s2
    ensures WriteBody(t) + rest == WriteList(WriteTxIn, t.inputs) + s1
  {
    hide ToLE, WriteAll, WriteList, WriteWitness, WriteTxIn, WriteTxOut;
    var ins, outs := WriteList(WriteTxIn, t.inputs), WriteList(WriteTxOut, t.outputs);
    Assoc(ins, outs + WriteTail(t), rest);
    Assoc(outs, WriteTail(t), rest);
    Assoc(WriteAll(WriteWitness, t.witnesses.value), ToLE(t.lockTime, 4), rest);
  }

  lemma FieldsInRange(t: Tx)
    requires TxFieldsOk(t)
    ensures IsU32(t.version) && IsU32(t.lockTime) && |t.inputs| < Pow256(8) && |t.outputs| < Pow256(8)
  {}

  lemma Regroup(a: seq<byte>, b: seq<byte>, c: seq<byte>, d: seq<byte>, e: seq<byte>)
    ensures a + b + (c + d) + e == a + (b + (c + (d + e)))
  {}

  lemma LegacyRoundTrip(t: Tx, rest: seq<byte>)
    requires TxFieldsOk(t) && TxForm(t) && t.witnesses.None?
    ensures ReadVarInt(WriteBody(t) + rest).Ok? && ReadVarInt(WriteBody(t) + rest).value == |t.inputs|
    ensures ReadLegacy(t.version, |t.inputs|, ReadVarInt(WriteBody(t) + rest).rest) == Ok(t, rest)
  {
    PartsRoundTrip(t);
    hide RoundTrips, ReadTxIn, ReadTxOut, WriteTxIn, WriteTxOut, ReadList, ReadMany, WriteAll, ReadLE, ToLE, TxFieldsOk, VarInt, ReadVarInt;
    var s2 := ToLE(t.lockTime, 4) + rest;
    var s1 := WriteList(WriteTxOut, t.outputs) + s2;
    var s0 := WriteAll(WriteTxIn, t.inputs) + s1;
    assert WriteTail(t) == ToLE(t.lockTime, 4);
    Regroup(VarInt(|t.inputs|), WriteAll(WriteTxIn, t.inputs), WriteList(WriteTxOut, t.outputs), WriteTail(t), rest);
    hide WriteList, WriteTail;
    FieldsInRange(t);
    VarIntRoundTrip(|t.inputs|, s0);
    ManyRoundTrip(ReadTxIn, WriteTxIn, t.inputs, s1);
    ListRoundTrip(ReadTxOut, WriteTxOut, t.outputs, s2);
    U32RoundTrip(t.lockTime, rest);
  }

  /** Whatever bytes it is given, the reader only returns transactions of the two forms. */
  lemma ReadTxForm(s: seq<byte>)
    ensures ReadTx(s).Ok? ==> TxForm(ReadTx(s).value)
  {
    hide ReadTxIn, ReadTxOut, ReadWitness, ReadList, ReadLE, ReadMany;
    if ReadTx(s).Ok? {
      var (version, s1) := ReadLE(s, 4).Extract();
      var (n, s2) := ReadVarInt(s1).Extract();
      if n != 0 {
        ManyLength(ReadTxIn, n, s2);
      } else {
        var s3 := ReadByte(s2).rest;
        var (inputs, s4) := ReadList(ReadTxIn, s3).Extract();
        var (outputs, s5) := ReadList(ReadTxOut, s4).Extract();
        ManyLength(ReadWitness, |inputs|, s5);
      }
    }
  }

  /** The marker, a number of inputs of zero, and the flag lead to the segwit form. */
  lemma ReadMarked(version: nat, body: seq<byte>)
    requires IsU32(version)
    ensures ReadTx(ToLE(version, 4) + ([0, 1] + body)) == ReadSegwit(version, body)
  {
    hide ReadSegwit, ReadLegacy, ReadLE, ToLE;
    var s1: seq<byte> := [0, 1] + body;
    U32RoundTrip(version, s1);
    assert s1[1..] == [1] + body && ([1] + body)[1..] == body;
    assert ReadVarInt(s1) == Ok(0, [1] + body);
  }

  lemma ReadUnmarked(version: nat, body: seq<byte>, n: nat)
    requires IsU32(version) && ReadVarInt(body).Ok? && ReadVarInt(body).value == n != 0
    ensures ReadTx(ToLE(version, 4) + body) == ReadLegacy(version, n, ReadVarInt(body).rest)
  {
    hide ReadSegwit, ReadLegacy, ReadLE, ToLE, ReadVarInt;
    U32RoundTrip(version, body);
  }

  lemma TxReadsBack(t: Tx, rest: seq<byte>)
    requires TxFieldsOk(t) && TxForm(t)
    ensures ReadTx(WriteTx(t) + rest) == Ok(t, rest)
  {
    hide WriteBody, ReadLegacy, ReadSegwit, ToLE, TxFieldsOk, ReadTx, ReadVarInt;
    FieldsInRange(t);
    var version, body := ToLE(t.version, 4), WriteBody(t) + rest;
    Assoc(version, [0, 1] + WriteBody(t), rest);
    Assoc([0, 1], WriteBody(t), rest);
    Assoc(version, WriteBody(t), rest);
    if t.witnesses.Some? {
      assert WriteTx(t) + rest == version + ([0, 1] + body);
      ReadMarked(t.version, body);
      SegwitRoundTrip(t, rest);
    } else {
      assert WriteTx(t) + rest == version + body;
      LegacyRoundTrip(t, rest);
      ReadUnmarked(t.version, body, |t.inputs|);
    }
  }

  /** A transaction reads back, whatever follows it, exactly when it has one of the two forms. */
  lemma TxRoundTrip(t: Tx, rest: seq<byte>)
    requires TxFieldsOk(t)
    ensures ReadTx(WriteTx(t) + rest) == Ok(t, rest) <==> TxForm(t)
  {
    hide ReadTx, WriteTx, TxFieldsOk;
    ReadTxForm(WriteTx(t) + rest);
    if TxForm(t) {
      TxReadsBack(t, rest);
    }
  }

  lemma TxSizeIsRight(t: Tx)
    requires TxFieldsOk(t)
    ensures |WriteTx(t)| == TxSize(t)
  {
    PartsRoundTrip(t);
    hide RoundTrips, WriteTxIn, WriteTxOut, WriteWitness, TxInSize, TxOutSize, WitnessSize, VarInt;
    FieldsInRange(t);
    AllSize(WriteTxIn, TxInSize, t.inputs);
    AllSize(WriteTxOut, TxOutSize, t.outputs);
    if t.witnesses.Some? {
      AllSize(WriteWitness, WitnessSize, t.witnesses.value);
    }
    VarIntRoundTrip(|t.inputs|, []);
    VarIntRoundTrip(|t.outputs|, []);
  }
}
