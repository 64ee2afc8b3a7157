/** The framing of messages of node/src/messages/message.rs and message_header.rs: a header with the
    command, the payload size and a checksum, then the payload. The double SHA-256 is given. */
module Framing {
  import opened Basics
  import opened Bytes
  import opened Header
  import opened Wire
  import opened Messages

  // ----- commands -----

  /** The commands that the reader tells apart, in the order in which it compares them. */
  datatype Command =
    | BlockCmd
    | GetAddrCmd
    | GetDataCmd
    | HeadersCmd
    | CFiltersCmd
    | CFHeadersCmd
    | InvCmd
    | MempoolCmd
    | NotFoundCmd
    | PingCmd
    | PongCmd
    | RejectCmd
    | SendHeadersCmd
    | TxCmd
    | VersionCmd
    | VerackCmd
    | UnknownCmd(name: seq<byte>)

  function CommandBytes(c: Command): seq<byte>
  {
    match c
    case BlockCmd => [98, 108, 111, 99, 107, 0, 0, 0, 0, 0, 0, 0]
    case GetAddrCmd => [103, 101, 116, 97, 100, 100, 114, 0, 0, 0, 0, 0]
    case GetDataCmd => [103, 101, 116, 100, 97, 116, 97, 0, 0, 0, 0, 0]
    case HeadersCmd => [104, 101, 97, 100, 101, 114, 115, 0, 0, 0, 0, 0]
    case CFiltersCmd => [99, 102, 105, 108, 116, 101, 114, 0, 0, 0, 0, 0]
    case CFHeadersCmd => [99, 102, 104, 101, 97, 100, 101, 114, 115, 0, 0, 0]
    case InvCmd => [105, 110, 118, 0, 0, 0, 0, 0, 0, 0, 0, 0]
    case MempoolCmd => [109, 101, 109, 112, 111, 111, 108, 0, 0, 0, 0, 0]
    case NotFoundCmd => [110, 111, 116, 102, 111, 117, 110, 100, 0, 0, 0, 0]
    case PingCmd => [112, 105, 110, 103, 0, 0, 0, 0, 0, 0, 0, 0]
    case PongCmd => [112, 111, 110, 103, 0, 0, 0, 0, 0, 0, 0, 0]
    case RejectCmd => [114, 101, 106, 101, 99, 116, 0, 0, 0, 0, 0, 0]
    case SendHeadersCmd => [115, 101, 110, 100, 104, 101, 97, 100, 101, 114, 115, 0]
    case TxCmd => [116, 120, 0, 0, 0, 0, 0, 0, 0, 0, 0, 0]
    case VersionCmd => [118, 101, 114, 115, 105, 111, 110, 0, 0, 0, 0, 0]
    case VerackCmd => [118, 101, 114, 97, 99, 107, 0, 0, 0, 0, 0, 0]
    case UnknownCmd(name) => name
  }

  const COMMANDS: seq<Command> :=
    [BlockCmd, GetAddrCmd, GetDataCmd, HeadersCmd, CFiltersCmd, CFHeadersCmd, InvCmd, MempoolCmd,
     NotFoundCmd, PingCmd, PongCmd, RejectCmd, SendHeadersCmd, TxCmd, VersionCmd, VerackCmd]

  /** The first of some commands that goes by a name. */
  function FirstNamed(cs: seq<Command>, name: seq<byte>): Command
  {
    if cs == [] then UnknownCmd(name)
    else if name == CommandBytes(cs[0]) then cs[0]
    else FirstNamed(cs[1..], name)
  }

  function CommandOf(name: seq<byte>): Command { FirstNamed(COMMANDS, name) }

  /** The number that the first four letters of a command stand for. */
  function Tag(c: Command): int
  {
    match c
    case BlockCmd => 1651273571
    case GetAddrCmd => 1734702177
    case GetDataCmd => 1734702180
    case HeadersCmd => 1751474532
    case CFiltersCmd => 1667656044
    case CFHeadersCmd => 1667655781
    case InvCmd => 1768846848
    case MempoolCmd => 1835363696
    case NotFoundCmd => 1852798054
    case PingCmd => 1885957735
    case PongCmd => 1886350951
    case RejectCmd => 1919248997
    case SendHeadersCmd => 1936027236
    case TxCmd => 1954021376
    case VersionCmd => 1986359923
    case VerackCmd => 1986359905
    case UnknownCmd(_) => 0
  }

  lemma TagIsWritten(c: Command)
    requires !c.UnknownCmd?
    ensures var s := CommandBytes(c); |s| == 12 && (((s[0] as int) * 256 + s[1]) * 256 + s[2]) * 256 + s[3] == Tag(c)
  {}

  lemma TagsDiffer(c: Command, d: Command)
    requires !c.UnknownCmd? && !d.UnknownCmd? && Tag(c) == Tag(d)
    ensures c == d
  {}

  lemma {:induction false} FirstNamedIs(cs: seq<Command>, c: Command)
    requires c in cs && forall d <- cs :: !d.UnknownCmd?
    ensures FirstNamed(cs, CommandBytes(c)) == c
  {
    hide CommandBytes, Tag;
    assert cs[0] in cs;
    TagIsWritten(c);
    TagIsWritten(cs[0]);
    if CommandBytes(c) == CommandBytes(cs[0]) {
      TagsDiffer(c, cs[0]);
    } else {
      FirstNamedIs(cs[1..], c);
    }
  }

  lemma CommandRoundTrip(c: Command)
    requires !c.UnknownCmd?
    ensures |CommandBytes(c)| == 12 && CommandOf(CommandBytes(c)) == c
  {
    hide CommandBytes, Tag;
    TagIsWritten(c);
    KnownCommand(c);
    FirstNamedIs(COMMANDS, c);
  }

  lemma KnownCommand(c: Command)
    requires !c.UnknownCmd?
    ensures c in COMMANDS && forall d <- COMMANDS :: !d.UnknownCmd?
  {
    hide CommandBytes, Tag, CommandOf, FirstNamed;
    forall d | d in COMMANDS ensures !d.UnknownCmd? {
      var i :| 0 <= i < |COMMANDS| && COMMANDS[i] == d;
    }
    var i := Position(c);
    assert COMMANDS[i] == c;
  }

  lemma Position(c: Command) returns (i: nat)
    requires !c.UnknownCmd?
    ensures i < |COMMANDS| && COMMANDS[i] == c
  {
    hide CommandBytes, Tag, CommandOf, FirstNamed;
    match c
    case BlockCmd => i := 0;
    case GetAddrCmd => i := 1;
    case GetDataCmd => i := 2;
    case HeadersCmd => i := 3;
    case CFiltersCmd => i := 4;
    case CFHeadersCmd => i := 5;
    case InvCmd => i := 6;
    case MempoolCmd => i := 7;
    case NotFoundCmd => i := 8;
    case PingCmd => i := 9;
    case PongCmd => i := 10;
    case RejectCmd => i := 11;
    case SendHeadersCmd => i := 12;
    case TxCmd => i := 13;
    case VersionCmd => i := 14;
    case VerackCmd => i := 15;
  }

  // ----- headers -----

  datatype MessageHeader = MessageHeader(magic: seq<byte>, command: seq<byte>, payloadSize: nat, checksum: seq<byte>)

  ghost predicate MessageHeaderOk(h: MessageHeader)
  {
    |h.magic| == 4 && |h.command| == 12 && IsU32(h.payloadSize) && |h.checksum| == 4
  }

  function WriteMessageHeader(h: MessageHeader): seq<byte>
  {
    h.magic + (h.command + (ToLE(h.payloadSize, 4) + h.checksum))
  }

  /** All 24 bytes are taken at once, so that a short stream is left alone. */
  function ReadMessageHeader(s: seq<byte>): Read<MessageHeader>
  {
    if |s| < 24 then Err else
    Ok(MessageHeader(s[..4], s[4..16], FromLE(s[16..20]), s[20..24]), s[24..])
  }

  lemma MessageHeaderRoundTrip(h: MessageHeader, rest: seq<byte>)
    requires MessageHeaderOk(h)
    ensures |WriteMessageHeader(h)| == 24
    ensures ReadMessageHeader(WriteMessageHeader(h) + rest) == Ok(h, rest)
  {
    Widths();
    FromToLE(h.payloadSize, 4);
    hide ToLE, FromLE, Pow256;
    var n := ToLE(h.payloadSize, 4);
    var s := WriteMessageHeader(h) + rest;
    Assoc(h.magic, h.command + (n + h.checksum), rest);
    Assoc(h.command, n + h.checksum, rest);
    Assoc(n, h.checksum, rest);
    assert s[..4] == h.magic;
    assert s[4..] == h.command + (n + (h.checksum + rest));
    assert s[4..16] == s[4..][..12] == h.command;
    assert s[16..] == s[4..][12..] == n + (h.checksum + rest);
    assert s[16..20] == s[16..][..4] == n;
    assert s[20..] == s[16..][4..] == h.checksum + rest;
    assert s[20..24] == s[20..][..4] == h.checksum;
    assert s[24..] == s[20..][4..] == rest;
  }

  // ----- messages -----

  datatype Message =
    | BlockMsg(block: Block)
    | TxMsg(tx: Tx)
    | GetData(objects: seq<InvVect>)
    | InvMsg(objects: seq<InvVect>)
    | NotFound(objects: seq<InvVect>)
    | HeadersMsg(headers: seq<BlockHeader>)
    | CFilters(filter: CompactFilter)
    | CFHeaders(filterHeaders: FilterHeaders)
    | Ping(nonce: nat)
    | Pong(nonce: nat)
    | GetAddr
    | Mempool
    | SendHeaders
    | Verack
    | Other(command: Command)  // an unknown command, or one whose payload is not part of this model

  type Digest = seq<byte> -> Hash256

  /** The checksum of an empty payload, as it is written out. */
  const NO_CHECKSUM: seq<byte> := [0x5d, 0xf6, 0xe0, 0xe2]

  function Checksum(digest: Digest, payload: seq<byte>): seq<byte> { digest(payload)[..4] }

  function CommandFor(m: Message): Command
  {
    match m
    case BlockMsg(_) => BlockCmd
    case TxMsg(_) => TxCmd
    case GetData(_) => GetDataCmd
    case InvMsg(_) => InvCmd
    case NotFound(_) => NotFoundCmd
    case HeadersMsg(_) => HeadersCmd
    case CFilters(_) => CFiltersCmd
    case CFHeaders(_) => CFHeadersCmd
    case Ping(_) => PingCmd
    case Pong(_) => PongCmd
    case GetAddr => GetAddrCmd
    case Mempool => MempoolCmd
    case SendHeaders => SendHeadersCmd
    case Verack => VerackCmd
    case Other(c) => c
  }

  predicate HasPayload(m: Message)
  {
    !(m.GetAddr? || m.Mempool? || m.SendHeaders? || m.Verack? || m.Other?)
  }

  function Payload(m: Message): seq<byte>
  {
    match m
    case BlockMsg(b) => WriteBlock(b)
    case TxMsg(t) => WriteTx(t)
    case GetData(vs) => WriteInv(vs)
    case InvMsg(vs) => WriteInv(vs)
    case NotFound(vs) => WriteInv(vs)
    case HeadersMsg(hs) => WriteHeaders(hs)
    case CFilters(f) => WriteFilter(f)
    case CFHeaders(f) => WriteFilterHeaders(f)
    case Ping(nonce) => ToLE(nonce, 8)
    case Pong(nonce) => ToLE(nonce, 8)
    case _ => []
  }

  /** The size that the payload announces for itself, which is what the header carries. */
  function PayloadSize(m: Message): int
  {
    match m
    case BlockMsg(b) => BlockSize(b)
    case TxMsg(t) => TxSize(t)
    case GetData(vs) => InvSize(vs)
    case InvMsg(vs) => InvSize(vs)
    case NotFound(vs) => InvSize(vs)
    case HeadersMsg(hs) => HeadersSize(hs)
    case CFilters(f) => FilterSize(f)
    case CFHeaders(f) => FilterHeadersSize(f)
    case Ping(_) => 8
    case Pong(_) => 8
    case _ => 0
  }

  function HeaderFor(digest: Digest, magic: seq<byte>, m: Message): MessageHeader
  {
    if HasPayload(m) then
      MessageHeader(magic, CommandBytes(CommandFor(m)), PayloadSize(m) % 0x1_0000_0000, Checksum(digest, Payload(m)))
    else
      MessageHeader(magic, CommandBytes(CommandFor(m)), 0, NO_CHECKSUM)
  }

  function WriteMessage(digest: Digest, magic: seq<byte>, m: Message): seq<byte>
  {
    WriteMessageHeader(HeaderFor(digest, magic, m)) + Payload(m)
  }

  /** Takes as many bytes as the header says and compares their checksum. */
  function ReadPayload(digest: Digest, h: MessageHeader, s: seq<byte>): Read<seq<byte>>
  {
    if h.payloadSize > |s| || Checksum(digest, s[..h.payloadSize]) != h.checksum then Err
    else Ok(s[..h.payloadSize], s[h.payloadSize..])
  }

  /** A payload as the message of a command; what is left of the payload is dropped. */
  function ParsePayload(c: Command, payload: seq<byte>): Read<Message>
  {
    match c
    case BlockCmd => var (b, _) :- ReadBlock(payload); Ok(BlockMsg(b), [])
    case TxCmd => var (t, _) :- ReadTx(payload); Ok(TxMsg(t), [])
    case GetDataCmd => var (vs, _) :- ReadInv(payload); Ok(GetData(vs), [])
    case InvCmd => var (vs, _) :- ReadInv(payload); Ok(InvMsg(vs), [])
    case NotFoundCmd => var (vs, _) :- ReadInv(payload); Ok(NotFound(vs), [])
    case HeadersCmd => var (hs, _) :- ReadHeaders(payload); Ok(HeadersMsg(hs), [])
    case CFiltersCmd => var (f, _) :- ReadFilter(payload); Ok(CFilters(f), [])
    case CFHeadersCmd => var (f, _) :- ReadFilterHeaders(payload); Ok(CFHeaders(f), [])
    case PingCmd => var (nonce, _) :- ReadLE(payload, 8); Ok(Ping(nonce), [])
    case PongCmd => var (nonce, _) :- ReadLE(payload, 8); Ok(Pong(nonce), [])
    case _ => Ok(Other(c), [])
  }

  /** The message of a command that comes without a payload. */
  function BareMessage(c: Command): Option<Message>
  {
    match c
    case GetAddrCmd => Some(GetAddr)
    case MempoolCmd => Some(Mempool)
    case SendHeadersCmd => Some(SendHeaders)
    case VerackCmd => Some(Verack)
    case _ => None
  }

  function ReadPartial(digest: Digest, h: MessageHeader, s: seq<byte>): Read<Message>
  {
    var c := CommandOf(h.command);
    match BareMessage(c)
    case Some(m) => if h.payloadSize != 0 then Err else Ok(m, s)
    case None =>
      if c.UnknownCmd? && h.payloadSize == 0 then Ok(Other(c), s) else
      var (payload, s1) :- ReadPayload(digest, h, s);
      var (m, _) :- ParsePayload(c, payload);
      Ok(m, s1)
  }

  function ReadMessage(digest: Digest, s: seq<byte>): Read<Message>
  {
    var (h, s1) :- ReadMessageHeader(s);
    ReadPartial(digest, h, s1)
  }

  // ----- round trips -----

  ghost predicate PayloadOk(m: Message)
  {
    match m
    case BlockMsg(b) => BlockOk(b)
    case TxMsg(t) => TxFieldsOk(t) && TxForm(t)
    case GetData(vs) => InvOk(vs) && |vs| <= MAX_INV_ENTRIES
    case InvMsg(vs) => InvOk(vs) && |vs| <= MAX_INV_ENTRIES
    case NotFound(vs) => InvOk(vs) && |vs| <= MAX_INV_ENTRIES
    case HeadersMsg(hs) => |hs| < Pow256(8) && forall h <- hs :: HeaderOk(h)
    case CFilters(f) => |f.filterBytes| < Pow256(8)
    case CFHeaders(f) => |f.hashes| < Pow256(8)
    case Ping(nonce) => nonce < Pow256(8)
    case Pong(nonce) => nonce < Pow256(8)
    case Other(_) => false
    case _ => true
  }

  /** A message that can be framed: its payload is well formed and its size fits the header. */
  ghost predicate MessageOk(m: Message) { PayloadOk(m) && IsU32(|Payload(m)|) }

  /** What a payload announces as its size is its size. */
  lemma SizesAgree(m: Message)
    requires PayloadOk(m)
    ensures |Payload(m)| == PayloadSize(m)
  {
    hide BlockOk, TxFieldsOk, WriteBlock, BlockSize, WriteTx, TxSize, WriteInv, InvSize, WriteHeaders, HeadersSize,
      WriteFilter, FilterSize, WriteFilterHeaders, FilterHeadersSize, ToLE;
    Widths();
    match m
    case BlockMsg(b) => BlockRoundTrip(b);
    case TxMsg(t) => TxSizeIsRight(t);
    case GetData(vs) => InvRoundTrip(vs, []);
    case InvMsg(vs) => InvRoundTrip(vs, []);
    case NotFound(vs) => InvRoundTrip(vs, []);
    case HeadersMsg(hs) => HeadersRoundTrip(hs);
    case CFilters(f) => FilterRoundTrip(f);
    case CFHeaders(f) => FilterHeadersRoundTrip(f);
    case _ =>
  }

  lemma ReadsBehind<T(!new)>(read: seq<byte> -> Read<T>, write: T -> seq<byte>, x: T, rest: seq<byte>)
    requires RoundTrips(read, write, x)
    ensures read(write(x) + rest) == Ok(x, rest)
  {}

  /** A payload parses to the message it was made from, whatever else it holds behind. */
  lemma PayloadParses(m: Message, extra: seq<byte>)
    requires PayloadOk(m) && HasPayload(m)
    ensures ParsePayload(CommandFor(m), Payload(m) + extra) == Ok(m, [])
  {
    hide BlockOk, TxFieldsOk, TxForm, ReadBlock, WriteBlock, ReadTx, WriteTx, ReadInv, WriteInv, ReadHeaders, WriteHeaders,
      ReadFilter, WriteFilter, ReadFilterHeaders, WriteFilterHeaders, ToLE, ReadLE, RoundTrips, HeaderOk;
    Widths();
    match m
    case BlockMsg(b) => BlockRoundTrip(b); ReadsBehind(ReadBlock, WriteBlock, b, extra);
    case TxMsg(t) => TxReadsBack(t, extra);
    case GetData(vs) => InvRoundTrip(vs, extra);
    case InvMsg(vs) => InvRoundTrip(vs, extra);
    case NotFound(vs) => InvRoundTrip(vs, extra);
    case HeadersMsg(hs) => HeadersRoundTrip(hs); ReadsBehind(ReadHeaders, WriteHeaders, hs, extra);
    case CFilters(f) => FilterRoundTrip(f); ReadsBehind(ReadFilter, WriteFilter, f, extra);
    case CFHeaders(f) => FilterHeadersRoundTrip(f); ReadsBehind(ReadFilterHeaders, WriteFilterHeaders, f, extra);
    case Ping(nonce) => ReadLERoundTrip(nonce, 8, extra);
    case Pong(nonce) => ReadLERoundTrip(nonce, 8, extra);
  }

  /** A framed message reads back, whatever follows it. */
  lemma MessageRoundTrip(digest: Digest, magic: seq<byte>, m: Message, rest: seq<byte>)
    requires |magic| == 4 && MessageOk(m)
    ensures ReadMessage(digest, WriteMessage(digest, magic, m) + rest) == Ok(m, rest)
  {
    hide PayloadOk, Payload, PayloadSize, ParsePayload, CommandBytes, CommandOf, ReadMessageHeader, WriteMessageHeader;
    var h, payload := HeaderFor(digest, magic, m), Payload(m);
    NotOther(m);
    CommandRoundTrip(CommandFor(m));
    SizesAgree(m);
    Assoc(WriteMessageHeader(h), payload, rest);
    MessageHeaderRoundTrip(h, payload + rest);
    if HasPayload(m) {
      PayloadParses(m, []);
      assert payload + [] == payload;
      assert (payload + rest)[..|payload|] == payload && (payload + rest)[|payload|..] == rest;
    } else {
      assert payload == [] && payload + rest == rest;
    }
  }

  lemma NotOther(m: Message)
    requires PayloadOk(m)
    ensures !m.Other? && !CommandFor(m).UnknownCmd?
    ensures !HasPayload(m) ==> Payload(m) == []
  {
    hide BlockOk, TxFieldsOk, TxForm, InvOk, HeaderOk, WriteBlock, WriteTx, WriteInv, WriteHeaders, WriteFilter,
      WriteFilterHeaders, ToLE, Pow256;
  }

  function MessageReader(digest: Digest): seq<byte> -> Read<Message> { (s: seq<byte>) => ReadMessage(digest, s) }

  function MessageWriter(digest: Digest, magic: seq<byte>): Message -> seq<byte> {
    (m: Message) => WriteMessage(digest, magic, m)
  }

  /** Any concatenation of framed messages decodes to the same messages in order. */
  lemma StreamRoundTrip(digest: Digest, magic: seq<byte>, ms: seq<Message>, rest: seq<byte>)
    requires |magic| == 4 && forall m <- ms :: MessageOk(m)
    ensures ReadMany(MessageReader(digest), |ms|, WriteAll(MessageWriter(digest, magic), ms) + rest) == Ok(ms, rest)
  {
    hide MessageOk, ReadMessage, WriteMessage;
    forall m | m in ms ensures RoundTrips(MessageReader(digest), MessageWriter(digest, magic), m) {
      forall rest ensures MessageReader(digest)(MessageWriter(digest, magic)(m) + rest) == Ok(m, rest) {
        MessageRoundTrip(digest, magic, m, rest);
      }
    }
    ManyRoundTrip(MessageReader(digest), MessageWriter(digest, magic), ms, rest);
  }
}
