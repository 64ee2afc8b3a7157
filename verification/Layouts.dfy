/** Where the bytes of every wire structure of node/src/messages stand, field by field. The readers give
    back what the writers wrote; this says what that is. */
module Layouts {
  import opened Basics
  import opened Bytes
  import opened Header
  import opened Wire
  import opened Messages
  import opened Framing

  // ----- bytes at a place -----

  /** These bytes stand at this place. */
  ghost predicate Stands(s: seq<byte>, at: nat, part: seq<byte>)
  {
    at + |part| <= |s| && s[at..at + |part|] == part
  }

  /** A number of so many bytes stands at this place, least significant byte first. */
  ghost predicate Number(s: seq<byte>, at: nat, width: nat, n: nat)
  {
    at + width <= |s| && forall i :: 0 <= i < width ==> s[at + i] == Digit(n, i)
  }

  /** The i-th byte of a number from its least significant end. */
  ghost function Digit(n: nat, i: nat): nat { n / Pow256(i) % 256 }

  /** The bytes of a number are its digits, the lowest first. */
  lemma {:induction false} DigitsOf(n: nat, w: nat, i: nat)
    requires i < w
    ensures ToLE(n, w)[i] == Digit(n, i)
  {
    if i > 0 {
      DigitsOf(n / 256, w - 1, i - 1);
      DivideTwice(n, 256, Pow256(i - 1));
    }
  }

  lemma NumberStands(s: seq<byte>, at: nat, n: nat, w: nat)
    requires Stands(s, at, ToLE(n, w))
    ensures Number(s, at, w, n)
  {
    forall i | 0 <= i < w ensures s[at + i] == Digit(n, i) {
      DigitsOf(n, w, i);
      assert s[at..at + w][i] == s[at + i];
    }
  }

  lemma Behind(a: seq<byte>, b: seq<byte>, at: nat, part: seq<byte>)
    requires Stands(b, at, part)
    ensures Stands(a + b, |a| + at, part)
  {
    assert (a + b)[|a| + at..|a| + at + |part|] == b[at..at + |part|];
  }

  /** Two parts, one after the other. */
  lemma Two(a: seq<byte>, b: seq<byte>)
    ensures Stands(a + b, 0, a) && Stands(a + b, |a|, b)
  {}

  lemma Three(a: seq<byte>, b: seq<byte>, c: seq<byte>)
    ensures Stands(a + (b + c), 0, a) && Stands(a + (b + c), |a|, b) && Stands(a + (b + c), |a| + |b|, c)
  {
    hide Stands;
    Two(a, b + c);
    Two(b, c);
    Behind(a, b + c, 0, b);
    Behind(a, b + c, |b|, c);
  }

  lemma Four(a: seq<byte>, b: seq<byte>, c: seq<byte>, d: seq<byte>)
    ensures var s := a + (b + (c + d));
      Stands(s, 0, a) && Stands(s, |a|, b) && Stands(s, |a| + |b|, c) && Stands(s, |a| + |b| + |c|, d)
  {
    hide Stands;
    Two(a, b + (c + d));
    Three(b, c, d);
    Behind(a, b + (c + d), 0, b);
    Behind(a, b + (c + d), |b|, c);
    Behind(a, b + (c + d), |b| + |c|, d);
  }

  // ----- numbers, byte strings and lists -----

  /** A variable-length integer: one byte up to 252, or a tag and two, four or eight bytes. */
  lemma VarIntLayout(n: nat)
    ensures var s := VarInt(n);
      if n <= 252 then s == [n]
      else if n <= 0xffff then |s| == 3 && s[0] == 0xfd && Number(s, 1, 2, n)
      else if n <= 0xffff_ffff then |s| == 5 && s[0] == 0xfe && Number(s, 1, 4, n)
      else |s| == 9 && s[0] == 0xff && Number(s, 1, 8, n)
  {
    hide ToLE, Number, Stands;
    if 252 < n {
      var w, tag: byte := if n <= 0xffff then 2 else if n <= 0xffff_ffff then 4 else 8,
                          if n <= 0xffff then 0xfd else if n <= 0xffff_ffff then 0xfe else 0xff;
      Two([tag], ToLE(n, w));
      NumberStands([tag] + ToLE(n, w), 1, n, w);
    }
  }

  /** Any number is accepted behind any of the tags, also one that a shorter form would hold. */
  lemma VarIntForms(s: seq<byte>)
    requires s != []
    ensures var w := if s[0] == 0xff then 8 else if s[0] == 0xfe then 4 else if s[0] == 0xfd then 2 else 0;
      ReadVarInt(s) == if w == 0 then Ok(s[0], s[1..]) else if |s| < 1 + w then Err else Ok(FromLE(s[1..1 + w]), s[1 + w..])
  {
    hide FromLE;
    var w := if s[0] == 0xff then 8 else if s[0] == 0xfe then 4 else if s[0] == 0xfd then 2 else 0;
    if |s| >= 1 + w {
      assert s[1..][..w] == s[1..1 + w] && s[1..][w..] == s[1 + w..];
    }
  }

  /** A byte string: its length, then its bytes. */
  lemma BlobLayout(b: seq<byte>)
    ensures Stands(WriteBlob(b), 0, VarInt(|b|)) && Stands(WriteBlob(b), |VarInt(|b|)|, b)
    ensures |WriteBlob(b)| == |VarInt(|b|)| + |b|
  {}

  /** The place of the i-th element among elements that are written one after the other. */
  ghost function PlaceOf<T>(write: T -> seq<byte>, xs: seq<T>, i: nat): nat
    requires i <= |xs|
  {
    if i == 0 then 0 else PlaceOf(write, xs, i - 1) + |write(xs[i - 1])|
  }

  lemma {:induction false} PlaceOfTail<T>(write: T -> seq<byte>, xs: seq<T>, i: nat)
    requires 0 < i <= |xs|
    ensures PlaceOf(write, xs, i) == |write(xs[0])| + PlaceOf(write, xs[1..], i - 1)
  {
    if i > 1 {
      PlaceOfTail(write, xs, i - 1);
    }
  }

  lemma {:induction false} ElementStands<T>(write: T -> seq<byte>, xs: seq<T>, i: nat)
    requires i < |xs|
    ensures Stands(WriteAll(write, xs), PlaceOf(write, xs, i), write(xs[i]))
  {
    hide Stands;
    var head, tail := write(xs[0]), WriteAll(write, xs[1..]);
    if i == 0 {
      Two(head, tail);
    } else {
      ElementStands(write, xs[1..], i - 1);
      PlaceOfTail(write, xs, i);
      Behind(head, tail, PlaceOf(write, xs[1..], i - 1), write(xs[i]));
    }
  }

  /** A list: the number of its elements, then the elements in order. */
  lemma ListLayout<T>(write: T -> seq<byte>, xs: seq<T>, i: nat)
    requires i < |xs|
    ensures Stands(WriteList(write, xs), 0, VarInt(|xs|))
    ensures Stands(WriteList(write, xs), |VarInt(|xs|)| + PlaceOf(write, xs, i), write(xs[i]))
  {
    hide Stands, VarInt;
    Two(VarInt(|xs|), WriteAll(write, xs));
    ElementStands(write, xs, i);
    Behind(VarInt(|xs|), WriteAll(write, xs), PlaceOf(write, xs, i), write(xs[i]));
  }

  lemma {:induction false} EvenPlaces<T>(write: T -> seq<byte>, xs: seq<T>, size: nat, i: nat)
    requires i <= |xs| && forall x :: |write(x)| == size
    ensures PlaceOf(write, xs, i) == size * i
  {
    if i > 0 {
      EvenPlaces(write, xs, size, i - 1);
      MulSucc(size, i - 1);
    }
  }

  // ----- transactions -----

  /** The number of byte strings, then each with its length. */
  lemma WitnessLayout(w: TxWitness, i: nat)
    requires i < |w|
    ensures Stands(WriteWitness(w), 0, VarInt(|w|))
    ensures Stands(WriteWitness(w), |VarInt(|w|)| + PlaceOf(WriteBlob, w, i), WriteBlob(w[i]))
  {
    hide Stands, WriteList, VarInt, WriteBlob;
    ListLayout(WriteBlob, w, i);
  }

  /** Hash, output number. */
  lemma OutPointLayout(o: OutPoint)
    ensures |WriteOutPoint(o)| == 36 && Stands(WriteOutPoint(o), 0, o.hash) && Number(WriteOutPoint(o), 32, 4, o.index)
  {
    hide Number, ToLE;
    Two(o.hash, ToLE(o.index, 4));
    NumberStands(WriteOutPoint(o), 32, o.index, 4);
  }

  /** The spent output, the unlock script with its length, the sequence number. */
  lemma TxInLayout(t: TxIn)
    ensures var s, script := WriteTxIn(t), WriteBlob(t.unlockScript);
      && |s| == 36 + |script| + 4
      && Stands(s, 0, WriteOutPoint(t.prevOutput)) && Stands(s, 36, script) && Number(s, |s| - 4, 4, t.sequence)
  {
    OutPointLayout(t.prevOutput);
    hide Number, ToLE, WriteOutPoint, WriteBlob, Stands;
    Three(WriteOutPoint(t.prevOutput), WriteBlob(t.unlockScript), ToLE(t.sequence, 4));
    NumberStands(WriteTxIn(t), |WriteTxIn(t)| - 4, t.sequence, 4);
  }

  /** The amount in two's complement, the lock script with its length. */
  lemma TxOutLayout(t: TxOut)
    requires IsI64(t.satoshis)
    ensures var s := WriteTxOut(t);
      && |s| == 8 + |WriteBlob(t.lockScript)| && Stands(s, 8, WriteBlob(t.lockScript))
      && Number(s, 0, 8, if t.satoshis < 0 then t.satoshis + 0x1_0000_0000_0000_0000 else t.satoshis)
  {
    hide Number, ToLE, WriteBlob, Stands;
    Two(ToLE(Unsigned(t.satoshis), 8), WriteBlob(t.lockScript));
    NumberStands(WriteTxOut(t), 0, Unsigned(t.satoshis), 8);
  }

  /** Version; the marker 0 and the flag 1 if there are witnesses; inputs; outputs; the witnesses; lock time. */
  lemma TxLayout(t: Tx)
    ensures var s, at := WriteTx(t), if t.witnesses.Some? then 6 else 4;
      var ins, outs := WriteList(WriteTxIn, t.inputs), WriteList(WriteTxOut, t.outputs);
      var ws := if t.witnesses.Some? then WriteAll(WriteWitness, t.witnesses.value) else [];
      && |s| == at + |ins| + |outs| + |ws| + 4
      && Number(s, 0, 4, t.version) && (t.witnesses.Some? ==> Stands(s, 4, [0, 1]))
      && Stands(s, at, ins) && Stands(s, at + |ins|, outs) && Stands(s, at + |ins| + |outs|, ws)
      && Number(s, |s| - 4, 4, t.lockTime)
  {
    hide Number, ToLE, Stands, WriteTxIn, WriteTxOut, WriteWitness, WriteList, WriteAll;
    var ins, outs := WriteList(WriteTxIn, t.inputs), WriteList(WriteTxOut, t.outputs);
    var ws := if t.witnesses.Some? then WriteAll(WriteWitness, t.witnesses.value) else [];
    var body, front := WriteBody(t), if t.witnesses.Some? then [0, 1] else [];
    Four(ins, outs, ws, ToLE(t.lockTime, 4));
    if t.witnesses.Some? {
      TxBehind(ToLE(t.version, 4), [0, 1], body, t, ins, outs, ws);
    } else {
      assert [] + body == body;
      TxBehind(ToLE(t.version, 4), [], body, t, ins, outs, ws);
    }
  }

  lemma TxBehind(version: seq<byte>, front: seq<byte>, body: seq<byte>, t: Tx, ins: seq<byte>, outs: seq<byte>, ws: seq<byte>)
    requires version == ToLE(t.version, 4) && |body| == |ins| + |outs| + |ws| + 4
    requires Stands(body, 0, ins) && Stands(body, |ins|, outs) && Stands(body, |ins| + |outs|, ws)
    requires Stands(body, |ins| + |outs| + |ws|, ToLE(t.lockTime, 4))
    ensures var s, at := version + (front + body), 4 + |front|;
      && |s| == at + |body|
      && Number(s, 0, 4, t.version) && Stands(s, 4, front)
      && Stands(s, at, ins) && Stands(s, at + |ins|, outs) && Stands(s, at + |ins| + |outs|, ws)
      && Number(s, |s| - 4, 4, t.lockTime)
  {
    var s, at := version + (front + body), 4 + |front|;
    assert version + front + body == s;
    hide Stands, Number, ToLE;
    Three(version, front, body);
    NumberStands(s, 0, t.version, 4);
    Behind(version + front, body, 0, ins);
    Behind(version + front, body, |ins|, outs);
    Behind(version + front, body, |ins| + |outs|, ws);
    Behind(version + front, body, |ins| + |outs| + |ws|, ToLE(t.lockTime, 4));
    NumberStands(s, |s| - 4, t.lockTime, 4);
  }

  /** A transaction without inputs has to carry the flag 1: with any other the reader panics. */
  lemma OtherFlagPanics(version: nat, flag: byte, rest: seq<byte>)
    requires IsU32(version) && flag != 1
    ensures ReadTx(ToLE(version, 4) + ([0, flag] + rest)) == Panic
  {
    hide ReadSegwit, ReadLegacy, ReadLE, ToLE;
    var s1: seq<byte> := [0, flag] + rest;
    U32RoundTrip(version, s1);
    assert s1[1..] == [flag] + rest;
    assert ReadVarInt(s1) == Ok(0, [flag] + rest);
  }

  // ----- blocks, headers, inventories, filters -----

  /** Version, previous hash, merkle root, timestamp, bits, nonce: the 80 bytes that are hashed. */
  lemma HeaderLayout(h: BlockHeader)
    ensures var s := WriteHeader(h);
      && |s| == 80 && Number(s, 0, 4, h.version) && Stands(s, 4, h.prevHash) && Stands(s, 36, h.merkleRoot)
      && Number(s, 68, 4, h.timestamp) && Number(s, 72, 4, h.bits) && Number(s, 76, 4, h.nonce)
  {
    hide Number, ToLE, Stands;
    var s, links, work := WriteHeader(h), WriteLinks(h), WriteWork(h);
    Three(ToLE(h.version, 4), links, work);
    Two(h.prevHash, h.merkleRoot);
    Three(ToLE(h.timestamp, 4), ToLE(h.bits, 4), ToLE(h.nonce, 4));
    Inner(s, 4, links, 0, h.prevHash);
    Inner(s, 4, links, 32, h.merkleRoot);
    Inner(s, 68, work, 0, ToLE(h.timestamp, 4));
    Inner(s, 68, work, 4, ToLE(h.bits, 4));
    Inner(s, 68, work, 8, ToLE(h.nonce, 4));
    NumberStands(s, 0, h.version, 4);
    NumberStands(s, 68, h.timestamp, 4);
    NumberStands(s, 72, h.bits, 4);
    NumberStands(s, 76, h.nonce, 4);
  }

  /** What stands in a part stands in the whole. */
  lemma Inner(s: seq<byte>, at: nat, part: seq<byte>, at': nat, inner: seq<byte>)
    requires Stands(s, at, part) && Stands(part, at', inner)
    ensures Stands(s, at + at', inner)
  {
    forall i | 0 <= i < |inner| ensures s[at + at' + i] == inner[i] {
      assert part[at'..at' + |inner|][i] == part[at' + i];
      assert s[at..at + |part|][at' + i] == s[at + (at' + i)];
    }
  }

  /** The header, then the transactions. */
  lemma BlockLayout(b: Block)
    ensures Stands(WriteBlock(b), 0, WriteHeader(b.header)) && Stands(WriteBlock(b), 80, WriteList(WriteTx, b.txns))
    ensures |WriteBlock(b)| == 80 + |WriteList(WriteTx, b.txns)|
  {
    HeaderLayout(b.header);
    hide WriteHeader, WriteList, Stands;
    Two(WriteHeader(b.header), WriteList(WriteTx, b.txns));
  }

  /** In a headers message a zero byte follows each header. */
  lemma EntryLayout(h: BlockHeader)
    ensures |WriteEntry(h)| == 81 && Stands(WriteEntry(h), 0, WriteHeader(h)) && WriteEntry(h)[80] == 0
  {
    HeaderLayout(h);
  }

  /** What is there instead of the zero is not looked at. */
  lemma EntryCountIsIgnored(h: BlockHeader, count: byte, rest: seq<byte>)
    requires HeaderOk(h)
    ensures ReadEntry(WriteHeader(h) + ([count] + rest)) == Ok(h, rest)
  {
    hide ReadHeader, WriteHeader;
    HeaderReadsBack(h, [count] + rest);
    assert ([count] + rest)[1..] == rest;
  }

  /** Type, hash. */
  lemma InvVectLayout(v: InvVect)
    ensures |WriteInvVect(v)| == 36 && Number(WriteInvVect(v), 0, 4, v.objType) && Stands(WriteInvVect(v), 4, v.hash)
  {
    hide Number, ToLE;
    Two(ToLE(v.objType, 4), v.hash);
    NumberStands(WriteInvVect(v), 0, v.objType, 4);
  }

  /** The number of entries, then 36 bytes for each. */
  lemma InvLayout(vs: seq<InvVect>, i: nat)
    requires i < |vs|
    ensures Stands(WriteInv(vs), 0, VarInt(|vs|)) && Stands(WriteInv(vs), |VarInt(|vs|)| + 36 * i, WriteInvVect(vs[i]))
  {
    forall v: InvVect ensures |WriteInvVect(v)| == 36 {
      InvVectLayout(v);
    }
    hide Stands, WriteList, VarInt, WriteInvVect;
    ListLayout(WriteInvVect, vs, i);
    EvenPlaces(WriteInvVect, vs, 36, i);
  }

  /** The number of headers, then 81 bytes for each. */
  lemma HeadersLayout(hs: seq<BlockHeader>, i: nat)
    requires i < |hs|
    ensures Stands(WriteHeaders(hs), 0, VarInt(|hs|)) && Stands(WriteHeaders(hs), |VarInt(|hs|)| + 81 * i, WriteEntry(hs[i]))
  {
    forall h: BlockHeader ensures |WriteEntry(h)| == 81 {
      EntryLayout(h);
    }
    hide Stands, WriteList, VarInt, WriteEntry;
    ListLayout(WriteEntry, hs, i);
    EvenPlaces(WriteEntry, hs, 81, i);
  }

  /** Filter type, block hash, the filter with its length. */
  lemma FilterLayout(f: CompactFilter)
    ensures var s := WriteFilter(f);
      && |s| == 33 + |WriteBlob(f.filterBytes)|
      && s[0] == f.filterType && Stands(s, 1, f.blockHash) && Stands(s, 33, WriteBlob(f.filterBytes))
  {
    hide WriteBlob, Stands;
    Three([f.filterType], f.blockHash, WriteBlob(f.filterBytes));
  }

  /** Filter type, stop hash, previous filter header, the filter hashes with their number. */
  lemma FilterHeadersLayout(f: FilterHeaders)
    ensures var s := WriteFilterHeaders(f);
      && |s| == 65 + |WriteList(WriteHash, f.hashes)|
      && s[0] == f.filterType && Stands(s, 1, f.stopHash) && Stands(s, 33, f.previous)
      && Stands(s, 65, WriteList(WriteHash, f.hashes))
  {
    hide WriteList, Stands;
    Four([f.filterType], f.stopHash, f.previous, WriteList(WriteHash, f.hashes));
  }

  // ----- frames -----

  /** What a message carries: the structure itself, or for a ping and its answer the nonce in eight bytes. */
  lemma PayloadLayout(m: Message)
    ensures m.BlockMsg? ==> Payload(m) == WriteBlock(m.block)
    ensures m.TxMsg? ==> Payload(m) == WriteTx(m.tx)
    ensures m.GetData? || m.InvMsg? || m.NotFound? ==> Payload(m) == WriteInv(m.objects)
    ensures m.HeadersMsg? ==> Payload(m) == WriteHeaders(m.headers)
    ensures m.CFilters? ==> Payload(m) == WriteFilter(m.filter)
    ensures m.CFHeaders? ==> Payload(m) == WriteFilterHeaders(m.filterHeaders)
    ensures m.Ping? || m.Pong? ==> |Payload(m)| == 8 && Number(Payload(m), 0, 8, m.nonce)
    ensures m.GetAddr? || m.Mempool? || m.SendHeaders? || m.Verack? ==> Payload(m) == []
  {
    hide WriteBlock, WriteTx, WriteInv, WriteHeaders, WriteFilter, WriteFilterHeaders, ToLE, Number, Stands;
    if m.Ping? || m.Pong? {
      Alone(ToLE(m.nonce, 8));
      NumberStands(Payload(m), 0, m.nonce, 8);
    }
  }

  lemma Alone(s: seq<byte>)
    ensures Stands(s, 0, s)
  {}

  /** The name that a message goes by on the wire. */
  ghost function NameOf(m: Message): string
  {
    match m
    case BlockMsg(_) => "block"
    case TxMsg(_) => "tx"
    case GetData(_) => "getdata"
    case InvMsg(_) => "inv"
    case NotFound(_) => "notfound"
    case HeadersMsg(_) => "headers"
    case CFilters(_) => "cfilter"
    case CFHeaders(_) => "cfheaders"
    case Ping(_) => "ping"
    case Pong(_) => "pong"
    case GetAddr => "getaddr"
    case Mempool => "mempool"
    case SendHeaders => "sendheaders"
    case Verack => "verack"
    case Other(_) => ""
  }

  /** The letters of a name, filled up with zeros. */
  ghost predicate Named(s: seq<byte>, at: nat, name: string)
  {
    at + 12 <= |s| && forall i :: 0 <= i < 12 ==> s[at + i] == Letter(name, i)
  }

  ghost function Letter(name: string, i: nat): int { if i < |name| then name[i] as int else 0 }

  lemma CommandIsName(m: Message)
    requires !m.Other?
    ensures |CommandBytes(CommandFor(m))| == 12 && Named(CommandBytes(CommandFor(m)), 0, NameOf(m))
  {
    hide *;
    CommandIsKnown(m);
    CommandRoundTrip(CommandFor(m));
    BareNames();
    ObjectNames();
    FilterNames();
    NamesAre(m, CommandFor(m), NameOf(m));
  }

  lemma CommandIsKnown(m: Message)
    requires !m.Other?
    ensures !CommandFor(m).UnknownCmd?
  {}

  lemma NamesAre(m: Message, c: Command, name: string)
    requires !m.Other? && c == CommandFor(m) && name == NameOf(m)
    requires Named(CommandBytes(GetAddrCmd), 0, "getaddr") && Named(CommandBytes(MempoolCmd), 0, "mempool")
    requires Named(CommandBytes(SendHeadersCmd), 0, "sendheaders") && Named(CommandBytes(VerackCmd), 0, "verack")
    requires Named(CommandBytes(BlockCmd), 0, "block") && Named(CommandBytes(TxCmd), 0, "tx")
    requires Named(CommandBytes(GetDataCmd), 0, "getdata") && Named(CommandBytes(InvCmd), 0, "inv")
    requires Named(CommandBytes(NotFoundCmd), 0, "notfound")
    requires Named(CommandBytes(HeadersCmd), 0, "headers") && Named(CommandBytes(CFiltersCmd), 0, "cfilter")
    requires Named(CommandBytes(CFHeadersCmd), 0, "cfheaders") && Named(CommandBytes(PingCmd), 0, "ping")
    requires Named(CommandBytes(PongCmd), 0, "pong")
    ensures Named(CommandBytes(c), 0, name)
  {
    hide CommandBytes, Named;
  }

  lemma BareNames()
    ensures Named(CommandBytes(GetAddrCmd), 0, "getaddr") && Named(CommandBytes(MempoolCmd), 0, "mempool")
    ensures Named(CommandBytes(SendHeadersCmd), 0, "sendheaders") && Named(CommandBytes(VerackCmd), 0, "verack")
  {}

  lemma ObjectNames()
    ensures Named(CommandBytes(BlockCmd), 0, "block") && Named(CommandBytes(TxCmd), 0, "tx")
    ensures Named(CommandBytes(GetDataCmd), 0, "getdata") && Named(CommandBytes(InvCmd), 0, "inv")
    ensures Named(CommandBytes(NotFoundCmd), 0, "notfound")
  {}

  lemma FilterNames()
    ensures Named(CommandBytes(HeadersCmd), 0, "headers") && Named(CommandBytes(CFiltersCmd), 0, "cfilter")
    ensures Named(CommandBytes(CFHeadersCmd), 0, "cfheaders") && Named(CommandBytes(PingCmd), 0, "ping")
    ensures Named(CommandBytes(PongCmd), 0, "pong")
  {}

  /** A frame: the magic bytes, the name, the size of the payload, the first four bytes of its digest, and
      the payload. Without a payload the last four are 5d f6 e0 e2. */
  ghost predicate Framed(digest: Digest, magic: seq<byte>, m: Message, s: seq<byte>)
  {
    && |s| == 24 + |Payload(m)|
    && Stands(s, 0, magic) && Named(s, 4, NameOf(m)) && Stands(s, 24, Payload(m))
    && (PayloadOk(m) ==> Number(s, 16, 4, |Payload(m)| % 0x1_0000_0000))
    && (HasPayload(m) ==> forall i :: 0 <= i < 4 ==> s[20 + i] == digest(Payload(m))[i])
    && (!HasPayload(m) ==> s[20] == 0x5d && s[21] == 0xf6 && s[22] == 0xe0 && s[23] == 0xe2)
  }

  lemma MessageHeaderLayout(h: MessageHeader)
    requires |h.magic| == 4 && |h.command| == 12 && |h.checksum| == 4
    ensures var s := WriteMessageHeader(h);
      && |s| == 24 && Stands(s, 0, h.magic) && Stands(s, 4, h.command) && Number(s, 16, 4, h.payloadSize)
      && Stands(s, 20, h.checksum)
  {
    hide Number, ToLE, Stands;
    Four(h.magic, h.command, ToLE(h.payloadSize, 4), h.checksum);
    NumberStands(WriteMessageHeader(h), 16, h.payloadSize, 4);
  }

  lemma NamedInside(s: seq<byte>, at: nat, part: seq<byte>, name: string)
    requires Stands(s, at, part) && |part| == 12 && Named(part, 0, name)
    ensures Named(s, at, name)
  {
    forall i | 0 <= i < 12 ensures s[at + i] == Letter(name, i) {
      assert s[at..at + 12][i] == part[0 + i];
    }
  }

  lemma NumberBefore(s: seq<byte>, t: seq<byte>, at: nat, width: nat, n: nat)
    requires Number(s, at, width, n)
    ensures Number(s + t, at, width, n)
  {}

  lemma StandsBefore(s: seq<byte>, t: seq<byte>, at: nat, part: seq<byte>)
    requires Stands(s, at, part)
    ensures Stands(s + t, at, part)
  {
    assert (s + t)[at..at + |part|] == s[at..at + |part|];
  }

  /** Every message that is written is framed so. */
  lemma FrameLayout(digest: Digest, magic: seq<byte>, m: Message)
    requires |magic| == 4 && !m.Other?
    ensures Framed(digest, magic, m, WriteMessage(digest, magic, m))
  {
    hide *;
    var h := HeaderFor(digest, magic, m);
    CommandIsName(m);
    ChecksumStands(digest, magic, m, h);
    SizeStands(digest, magic, m, h);
    MessageHeaderLayout(h);
    HeaderThenPayload(digest, magic, m, h);
    FramedIf(digest, magic, m, h, WriteMessageHeader(h), Payload(m));
  }

  lemma HeaderThenPayload(digest: Digest, magic: seq<byte>, m: Message, h: MessageHeader)
    requires h == HeaderFor(digest, magic, m)
    ensures WriteMessage(digest, magic, m) == WriteMessageHeader(h) + Payload(m)
  {}

  lemma SizeStands(digest: Digest, magic: seq<byte>, m: Message, h: MessageHeader)
    requires h == HeaderFor(digest, magic, m)
    ensures PayloadOk(m) ==> h.payloadSize == |Payload(m)| % 0x1_0000_0000
  {
    hide Payload, PayloadSize, PayloadOk, CommandBytes, CommandFor, Checksum;
    if PayloadOk(m) {
      SizesAgree(m);
      NotOther(m);
    }
  }

  lemma FramedIf(digest: Digest, magic: seq<byte>, m: Message, h: MessageHeader, head: seq<byte>, payload: seq<byte>)
    requires |head| == 24 && Stands(head, 0, magic) && Stands(head, 4, h.command) && Number(head, 16, 4, h.payloadSize)
    requires Stands(head, 20, h.checksum) && |h.checksum| == 4 && |h.command| == 12 && Named(h.command, 0, NameOf(m)) && payload == Payload(m)
    requires PayloadOk(m) ==> h.payloadSize == |payload| % 0x1_0000_0000
    requires HasPayload(m) ==> forall i :: 0 <= i < 4 ==> h.checksum[i] == digest(payload)[i]
    requires !HasPayload(m) ==> h.checksum == [0x5d, 0xf6, 0xe0, 0xe2]
    ensures Framed(digest, magic, m, head + payload)
  {
    hide Stands, Number, Named, NameOf, Payload, PayloadOk, HasPayload;
    StandsBefore(head, payload, 0, magic);
    StandsBefore(head, payload, 4, h.command);
    NamedInside(head + payload, 4, h.command, NameOf(m));
    Two(head, payload);
    NumberBefore(head, payload, 16, 4, h.payloadSize);
    StandsBefore(head, payload, 20, h.checksum);
    FourBytes(head + payload, 20, h.checksum);
  }

  lemma SameAt(s: seq<byte>, t: seq<byte>, at: nat, part: seq<byte>)
    requires Stands(s, at, part) && Stands(t, at, part)
    ensures forall i :: at <= i < at + |part| ==> s[i] == t[i]
  {
    forall i | at <= i < at + |part| ensures s[i] == t[i] {
      assert s[at..at + |part|][i - at] == t[at..at + |part|][i - at];
    }
  }

  lemma SameNumber(s: seq<byte>, t: seq<byte>, at: nat, w: nat, n: nat)
    requires Number(s, at, w, n) && Number(t, at, w, n)
    ensures forall i :: at <= i < at + w ==> s[i] == t[i]
  {
    forall i | at <= i < at + w ensures s[i] == t[i] {
      assert s[i] == Digit(n, i - at) && t[i] == Digit(n, i - at);
    }
  }

  lemma SameName(s: seq<byte>, t: seq<byte>, at: nat, name: string)
    requires Named(s, at, name) && Named(t, at, name)
    ensures forall i :: at <= i < at + 12 ==> s[i] == t[i]
  {
    forall i | at <= i < at + 12 ensures s[i] == t[i] {
      assert s[i] == Letter(name, i - at) && t[i] == Letter(name, i - at);
    }
  }

  lemma SameChecksum(digest: Digest, magic: seq<byte>, m: Message, s: seq<byte>, t: seq<byte>)
    requires Framed(digest, magic, m, s) && Framed(digest, magic, m, t)
    ensures s[20] == t[20] && s[21] == t[21] && s[22] == t[22] && s[23] == t[23]
  {
    hide Payload, PayloadOk, HasPayload, Stands, Number, Named, NameOf;
    if HasPayload(m) {
      var d := digest(Payload(m));
      assert s[20] == d[0] == t[20] && s[21] == d[1] == t[21] && s[22] == d[2] == t[22] && s[23] == d[3] == t[23];
    }
  }

  /** Whoever wrote it: bytes that are laid out so are read as the message. */
  lemma FramedReads(digest: Digest, magic: seq<byte>, m: Message, s: seq<byte>, rest: seq<byte>)
    requires |magic| == 4 && MessageOk(m) && Framed(digest, magic, m, s)
    ensures s == WriteMessage(digest, magic, m) && ReadMessage(digest, s + rest) == Ok(m, rest)
  {
    OkIsPayloadOk(m);
    hide *;
    NotOther(m);
    var t := WriteMessage(digest, magic, m);
    FrameLayout(digest, magic, m);
    MessageRoundTrip(digest, magic, m, rest);
    FramedIsUnique(digest, magic, m, s, t);
  }

  lemma OkIsPayloadOk(m: Message)
    requires MessageOk(m)
    ensures PayloadOk(m)
  {}

  lemma FramedIsUnique(digest: Digest, magic: seq<byte>, m: Message, s: seq<byte>, t: seq<byte>)
    requires |magic| == 4 && PayloadOk(m) && Framed(digest, magic, m, s) && Framed(digest, magic, m, t)
    ensures s == t
  {
    hide Payload, PayloadOk, HasPayload, Stands, Number, Named, NameOf;
    SameAt(s, t, 0, magic);
    SameName(s, t, 4, NameOf(m));
    SameNumber(s, t, 16, 4, |Payload(m)| % 0x1_0000_0000);
    SameChecksum(digest, magic, m, s, t);
    SameAt(s, t, 24, Payload(m));
  }

  lemma FourBytes(s: seq<byte>, at: nat, part: seq<byte>)
    requires Stands(s, at, part) && |part| == 4
    ensures at + 4 <= |s| && forall i :: 0 <= i < 4 ==> s[at + i] == part[i]
  {
    forall i | 0 <= i < 4 ensures s[at + i] == part[i] {
      assert s[at..at + 4][i] == part[i];
    }
  }

  lemma ChecksumStands(digest: Digest, magic: seq<byte>, m: Message, h: MessageHeader)
    requires h == HeaderFor(digest, magic, m)
    ensures |h.checksum| == 4 && h.magic == magic && h.command == CommandBytes(CommandFor(m))
    ensures HasPayload(m) ==> forall i :: 0 <= i < 4 ==> h.checksum[i] == digest(Payload(m))[i]
    ensures !HasPayload(m) ==> h.checksum == [0x5d, 0xf6, 0xe0, 0xe2]
  {
    hide Payload, PayloadSize, CommandBytes, CommandFor, HasPayload;
  }

  /** What the reader makes of the 24 bytes of a header. */
  lemma HeaderOfParts(magic: seq<byte>, command: seq<byte>, size: seq<byte>, checksum: seq<byte>, rest: seq<byte>)
    requires |magic| == 4 && |command| == 12 && |size| == 4 && |checksum| == 4
    ensures ReadMessageHeader(magic + (command + (size + (checksum + rest)))) == Ok(MessageHeader(magic, command, FromLE(size), checksum), rest)
  {
    var s := magic + (command + (size + (checksum + rest)));
    hide *;
    Four(magic, command, size, checksum + rest);
    Two(checksum, rest);
    Inner(s, 20, checksum + rest, 0, checksum);
    Inner(s, 20, checksum + rest, 4, rest);
    PartsAre(s, magic, command, size, checksum, rest);
  }

  lemma PartsAre(s: seq<byte>, magic: seq<byte>, command: seq<byte>, size: seq<byte>, checksum: seq<byte>, rest: seq<byte>)
    requires |magic| == 4 && |command| == 12 && |size| == 4 && |checksum| == 4 && |s| == 24 + |rest|
    requires Stands(s, 0, magic) && Stands(s, 4, command) && Stands(s, 16, size) && Stands(s, 20, checksum) && Stands(s, 24, rest)
    ensures ReadMessageHeader(s) == Ok(MessageHeader(magic, command, FromLE(size), checksum), rest)
  {
    hide FromLE;
    assert s[24..] == s[24..24 + |rest|];
  }

  /** The header of a version message as it is seen on the main network. */
  lemma VersionHeader(rest: seq<byte>)
    ensures var magic, size, checksum: seq<byte> := [0xf9, 0xbe, 0xb4, 0xd9], [0x7a, 0, 0, 0], [0x2a, 0x19, 0x57, 0xbb];
      var command: seq<byte> := [118, 101, 114, 115, 105, 111, 110, 0, 0, 0, 0, 0];
      && ReadMessageHeader(magic + (command + (size + (checksum + rest)))) == Ok(MessageHeader(magic, command, 122, checksum), rest)
      && CommandOf(command) == VersionCmd
  {
    var magic, size, checksum: seq<byte> := [0xf9, 0xbe, 0xb4, 0xd9], [0x7a, 0, 0, 0], [0x2a, 0x19, 0x57, 0xbb];
    VersionName();
    FewBytes(122, 0, 0, 0);
    hide CommandBytes, CommandOf, FromLE, ReadMessageHeader;
    CommandRoundTrip(VersionCmd);
    HeaderOfParts(magic, CommandBytes(VersionCmd), size, checksum, rest);
  }

  lemma VersionName()
    ensures CommandBytes(VersionCmd) == [118, 101, 114, 115, 105, 111, 110, 0, 0, 0, 0, 0]
  {}

  /** Four bytes as a number, the lowest first. */
  lemma FewBytes(a: byte, b: byte, c: byte, d: byte)
    ensures FromLE([a, b, c, d]) == a + 256 * b + 256 * 256 * c + 256 * 256 * 256 * d
  {
    assert [a, b, c, d][1..] == [b, c, d] && [b, c, d][1..] == [c, d] && [c, d][1..] == [d] && [d][1..] == [];
    assert FromLE([d]) == d && FromLE([c, d]) == c + 256 * FromLE([d]) && FromLE([b, c, d]) == b + 256 * FromLE([c, d]);
  }

  /** A command that comes without a payload is refused with one, and one that is not known is passed over
      with its payload, if that has the digest the header says. */
  lemma UnexpectedPayloads(digest: Digest, h: MessageHeader, s: seq<byte>)
    requires h.payloadSize > 0 && |h.checksum| == 4
    ensures h.command in [CommandBytes(GetAddrCmd), CommandBytes(MempoolCmd), CommandBytes(SendHeadersCmd), CommandBytes(VerackCmd)] ==>
      ReadPartial(digest, h, s) == Err
    ensures CommandOf(h.command).UnknownCmd? ==>
      ReadPartial(digest, h, s) ==
        if h.payloadSize <= |s| && (forall i :: 0 <= i < 4 ==> h.checksum[i] == digest(s[..h.payloadSize])[i])
        then Ok(Other(CommandOf(h.command)), s[h.payloadSize..]) else Err
  {
    hide CommandBytes, CommandOf;
    CommandRoundTrip(GetAddrCmd);
    CommandRoundTrip(MempoolCmd);
    CommandRoundTrip(SendHeadersCmd);
    CommandRoundTrip(VerackCmd);
    ChecksumIs(digest, h, s);
  }

  /** What a payload holds behind its message is passed over with it. */
  lemma TrailingIsDropped(digest: Digest, h: MessageHeader, m: Message, extra: seq<byte>, rest: seq<byte>)
    requires PayloadOk(m) && HasPayload(m) && h.command == CommandBytes(CommandFor(m)) && |h.checksum| == 4
    requires h.payloadSize == |Payload(m) + extra|
    requires forall i :: 0 <= i < 4 ==> h.checksum[i] == digest(Payload(m) + extra)[i]
    ensures ReadPartial(digest, h, Payload(m) + extra + rest) == Ok(m, rest)
  {
    PayloadIsBare(m);
    hide CommandBytes, CommandOf, Payload, PayloadOk, HasPayload, ParsePayload, CommandFor;
    var payload := Payload(m) + extra;
    NotOther(m);
    CommandRoundTrip(CommandFor(m));
    assert (payload + rest)[..|payload|] == payload && (payload + rest)[|payload|..] == rest;
    ChecksumIs(digest, h, payload + rest);
    PayloadParses(m, extra);
  }

  lemma PayloadIsBare(m: Message)
    requires HasPayload(m)
    ensures BareMessage(CommandFor(m)).None?
  {}

  /** Comparing the checksum is comparing four bytes with those at the front of the digest. */
  lemma ChecksumIs(digest: Digest, h: MessageHeader, s: seq<byte>)
    requires |h.checksum| == 4
    ensures h.payloadSize <= |s| ==>
      (Checksum(digest, s[..h.payloadSize]) == h.checksum <==> forall i :: 0 <= i < 4 ==> h.checksum[i] == digest(s[..h.payloadSize])[i])
  {
    if h.payloadSize <= |s| {
      var c := Checksum(digest, s[..h.payloadSize]);
      assert |c| == 4 && forall i :: 0 <= i < 4 ==> c[i] == digest(s[..h.payloadSize])[i];
    }
  }
}
