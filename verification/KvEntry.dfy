/** The on-disk entries of crates/kv/src/entry.rs: a header of timestamp, key size and value size,
    then the key, the value and a tombstone byte. A key is modelled by its serialised bytes. */
module KvEntry {
  import opened Basics
  import opened Bytes

  type Key = seq<byte>
  type Value = seq<byte>

  /** An entry as it is stored: its timestamp is the clock reading, as 32 bits, unless one is kept. */
  datatype Record = Record(key: Key, value: Value, deleted: bool, timestamp: nat)

  /** A record whose sizes and timestamp fit the 32-bit fields of the header. */
  ghost predicate Fits(r: Record)
  {
    |r.key| < Pow256(4) && |r.value| + 1 < Pow256(4) && r.timestamp < Pow256(4)
  }

  function Encode(r: Record): seq<byte>
  {
    ToLE(r.timestamp, 4) + (ToLE(|r.key|, 4) + (ToLE(|r.value| + 1, 4) + Body(r)))
  }

  function Body(r: Record): seq<byte>
  {
    r.key + (r.value + [if r.deleted then 1 else 0])
  }

  lemma EncodedLength(r: Record)
    ensures |Encode(r)| == 13 + |r.key| + |r.value|
  {}

  /** The header holds the timestamp, the size of the key and the size of the value with its tombstone byte, each in
      four bytes with the lowest first; then come the key, the value, and one or zero for a tombstone or a put. */
  lemma EncodeLayout(r: Record)
    requires Fits(r)
    ensures var s, k, v := Encode(r), |r.key|, |r.value|;
      && |s| == 13 + k + v
      && FromLE(s[..4]) == r.timestamp && FromLE(s[4..8]) == k && FromLE(s[8..12]) == v + 1
      && s[12..12 + k] == r.key && s[12 + k..12 + k + v] == r.value && s[12 + k + v] == if r.deleted then 1 else 0
  {
    var s, t, k, v := Encode(r), ToLE(r.timestamp, 4), ToLE(|r.key|, 4), ToLE(|r.value| + 1, 4);
    FromToLE(r.timestamp, 4);
    FromToLE(|r.key|, 4);
    FromToLE(|r.value| + 1, 4);
    HeaderThenBody(t, k, v, Body(r));
    hide FromLE, ToLE, Body;
    BodyLayout(r, s);
  }

  lemma HeaderThenBody(a: seq<byte>, b: seq<byte>, c: seq<byte>, d: seq<byte>)
    requires |a| == |b| == |c| == 4
    ensures var s := a + (b + (c + d)); |s| == 12 + |d| && s[..4] == a && s[4..8] == b && s[8..12] == c && s[12..] == d
  {}

  lemma BodyLayout(r: Record, s: seq<byte>)
    requires |s| >= 12 && s[12..] == Body(r)
    ensures var k, v := |r.key|, |r.value|;
      && |s| == 13 + k + v
      && s[12..12 + k] == r.key && s[12 + k..12 + k + v] == r.value && s[12 + k + v] == if r.deleted then 1 else 0
  {
    var k, v := |r.key|, |r.value|;
    assert s[12..12 + k] == s[12..][..k] == r.key;
    assert s[12 + k..12 + k + v] == s[12..][k..k + v] == r.value;
    assert s[12 + k + v] == s[12..][k + v];
  }

  /** Decodes the entry at the front; none when a slice would run past the end of the content. */
  function Decode(s: seq<byte>): Option<(Record, nat)>
  {
    if |s| < 12 then None else
    var timestamp := ReadLE(s, 4);
    var keySize := ReadLE(timestamp.rest, 4);
    var valueSize := ReadLE(keySize.rest, 4);
    match DecodeBody(valueSize.rest, keySize.value, valueSize.value, timestamp.value)
    case None => None
    case Some(r) => Some((r, 12 + keySize.value + valueSize.value))
  }

  function DecodeBody(s: seq<byte>, keySize: nat, valueSize: nat, timestamp: nat): Option<Record>
  {
    if keySize + valueSize > |s| || valueSize == 0 then None else
    var last := keySize + valueSize - 1;
    Some(Record(s[..keySize], s[keySize..last], s[last] % 2 == 1, timestamp))
  }

  function DecodeAt(content: seq<byte>, offset: nat): Option<(Record, nat)>
  {
    if offset > |content| then None else
    match Decode(content[offset..])
    case None => None
    case Some((r, n)) => Some((r, offset + n))
  }

  lemma BodyRoundTrip(r: Record, after: seq<byte>)
    ensures DecodeBody(Body(r) + after, |r.key|, |r.value| + 1, r.timestamp) == Some(r)
  {
    var s := Body(r) + after;
    assert s[..|r.key|] == r.key;
    assert s[|r.key|..|r.key| + |r.value|] == r.value;
    assert s[|r.key| + |r.value|] == if r.deleted then 1 else 0;
  }

  lemma EncodeRoundTrip(r: Record, after: seq<byte>)
    requires Fits(r)
    ensures Decode(Encode(r) + after) == Some((r, |Encode(r)|))
  {
    hide ReadLE, ToLE, DecodeBody;
    var t, k, v := ToLE(r.timestamp, 4), ToLE(|r.key|, 4), ToLE(|r.value| + 1, 4);
    var s3 := Body(r) + after;
    var s2 := v + s3;
    var s1 := k + s2;
    assert Encode(r) + after == t + s1;
    ReadLERoundTrip(r.timestamp, 4, s1);
    ReadLERoundTrip(|r.key|, 4, s2);
    ReadLERoundTrip(|r.value| + 1, 4, s3);
    BodyRoundTrip(r, after);
  }

  /** An entry reads back wherever it stands, and the next offset is right behind it. */
  lemma DecodeEncoded(before: seq<byte>, r: Record, after: seq<byte>)
    requires Fits(r)
    ensures DecodeAt(before + Encode(r) + after, |before|) == Some((r, |before| + |Encode(r)|))
  {
    hide Decode, Encode;
    EncodeRoundTrip(r, after);
    assert (before + Encode(r) + after)[|before|..] == Encode(r) + after;
  }

  // ----- a log of entries -----

  function EncodeAll(log: seq<Record>): seq<byte>
  {
    if log == [] then [] else EncodeAll(log[..|log| - 1]) + Encode(log[|log| - 1])
  }

  lemma EncodeAllPush(log: seq<Record>, r: Record)
    ensures EncodeAll(log + [r]) == EncodeAll(log) + Encode(r)
  {
    assert (log + [r])[..|log|] == log;
  }

  /** What follows the i-th entry of a log. */
  lemma {:induction false} EncodeAllPrefix(log: seq<Record>, i: nat) returns (after: seq<byte>)
    requires i < |log|
    ensures EncodeAll(log) == EncodeAll(log[..i]) + Encode(log[i]) + after
    decreases |log|
  {
    hide Encode;
    var n := |log| - 1;
    if i == n {
      after := [];
    } else {
      after := EncodeAllPrefix(log[..n], i);
      assert log[..n][..i] == log[..i];
      var before := EncodeAll(log[..i]) + Encode(log[i]);
      assert before + after + Encode(log[n]) == before + (after + Encode(log[n]));
      after := after + Encode(log[n]);
    }
  }

  /** The offset at which the i-th entry of a log starts. */
  ghost function OffsetOf(log: seq<Record>, i: nat): nat
    requires i <= |log|
  {
    |EncodeAll(log[..i])|
  }

  ghost predicate AllFit(log: seq<Record>)
  {
    forall i :: 0 <= i < |log| ==> Fits(log[i])
  }

  /** Reading the bytes of the i-th entry of a log, by its offset and length, gives that entry. */
  lemma ReadBack(log: seq<Record>, i: nat)
    requires i < |log| && AllFit(log)
    ensures var content, o, n := EncodeAll(log), OffsetOf(log, i), |Encode(log[i])|;
      && o + n <= |content|
      && DecodeAt(content[o..o + n], 0) == Some((log[i], n))
      && DecodeAt(content, o) == Some((log[i], o + n))
      && o + n == OffsetOf(log, i + 1)
  {
    hide DecodeAt, Encode, EncodeAll, Fits;
    var after := EncodeAllPrefix(log, i);
    ReadAmong(EncodeAll(log[..i]), log[i], after, EncodeAll(log));
    NextOffset(log, i);
  }

  lemma NextOffset(log: seq<Record>, i: nat)
    requires i < |log|
    ensures OffsetOf(log, i) + |Encode(log[i])| == OffsetOf(log, i + 1)
  {
    hide Encode, EncodeAll;
    assert log[..i + 1] == log[..i] + [log[i]];
    EncodeAllPush(log[..i], log[i]);
  }

  lemma ReadAmong(before: seq<byte>, r: Record, after: seq<byte>, content: seq<byte>)
    requires Fits(r) && content == before + Encode(r) + after
    ensures var o, n := |before|, |Encode(r)|;
      && o + n <= |content|
      && DecodeAt(content[o..o + n], 0) == Some((r, n))
      && DecodeAt(content, o) == Some((r, o + n))
  {
    hide DecodeAt, Encode, Fits;
    DecodeEncoded(before, r, after);
    DecodeAlone(r);
    InTheMiddle(before, Encode(r), after);
  }

  lemma DecodeAlone(r: Record)
    requires Fits(r)
    ensures DecodeAt(Encode(r), 0) == Some((r, |Encode(r)|))
  {
    hide DecodeAt, Encode, Fits;
    DecodeEncoded([], r, []);
    assert [] + Encode(r) + [] == Encode(r);
  }

  lemma InTheMiddle(a: seq<byte>, b: seq<byte>, c: seq<byte>)
    ensures (a + b + c)[|a|..|a| + |b|] == b
  {}

  /** An entry of a whole segment, with where it was found. */
  datatype MappedEntry = MappedEntry(entry: Record, keyOffset: nat, entryLength: nat)

  ghost function MappedLog(log: seq<Record>): seq<MappedEntry>
  {
    seq(|log|, i requires 0 <= i < |log| => MappedEntry(log[i], OffsetOf(log, i), |Encode(log[i])|))
  }

  /** Reads a whole segment: the same entries in order, each with its offset and length. */
  method DecodeMulti(content: seq<byte>, ghost log: seq<Record>) returns (entries: seq<MappedEntry>)
    requires content == EncodeAll(log) && AllFit(log)
    ensures entries == MappedLog(log)
  {
    hide DecodeAt, Encode;
    entries := [];
    var offset := 0;
    ghost var i := 0;
    assert log[..0] == [] && log[..|log|] == log;
    while offset < |content|
      invariant 0 <= i <= |log| && offset == OffsetOf(log, i) <= |content|
      invariant entries == MappedLog(log)[..i]
      decreases |log| - i
    {
      ReadBack(log, i);
      var (entry, end) := DecodeAt(content, offset).value;
      entries := entries + [MappedEntry(entry, offset, end - offset)];
      offset := end;
      i := i + 1;
    }
    if i < |log| {
      ReadBack(log, i);
      EncodedLength(log[i]);
    }
  }
}
