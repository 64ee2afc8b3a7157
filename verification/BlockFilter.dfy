/** The BIP 158 filter matcher of node/src/util/block_filter.rs: Golomb-Rice decoding on top of the
    bit stream reader, and the one-pass scans that answer a query. The encoder is the one the
    "Golomb-Coded Sets" section of BIP 158 describes; the repository only decodes. */
module BlockFilter {
  import opened Basics
  import opened Bytes
  import opened Bits

  const P: nat := 19
  const M: nat := 784931

  // ----- Golomb-Rice codes -----

  function Ones(q: nat): (s: seq<bool>)
    ensures |s| == q
  {
    if q == 0 then [] else [true] + Ones(q - 1)
  }

  /** Quotient by 2^p in unary, then the remainder in p bits. */
  ghost function GolombEncode(x: nat, p: nat): seq<bool>
  {
    Ones(Quotient(x, Pow2(p))) + [false] + ToBits(x % Pow2(p), p)
  }

  /** The number at the front of a bit sequence and what follows it, if it is complete and its remainder
      is of at most 64 bits. */
  ghost function GolombDecode(bits: seq<bool>, p: nat): Option<(nat, seq<bool>)>
  {
    if bits == [] then None
    else if bits[0] then
      match GolombDecode(bits[1..], p)
      case None => None
      case Some((x, rest)) => Some((Pow2(p) + x, rest))
    else if p > 64 || |bits| < 1 + p then None
    else Some((FromBits(bits[1..1 + p]), bits[1 + p..]))
  }

  lemma DecodeOne(bits: seq<bool>, p: nat)
    ensures GolombDecode([true] + bits, p) ==
      match GolombDecode(bits, p)
      case None => None
      case Some((x, rest)) => Some((Pow2(p) + x, rest))
  {
    assert ([true] + bits)[1..] == bits;
  }

  lemma DecodeEnd(r: nat, p: nat, rest: seq<bool>)
    requires r < Pow2(p) && p <= 64
    ensures GolombDecode([false] + ToBits(r, p) + rest, p) == Some((r, rest))
  {
    var bits := [false] + ToBits(r, p) + rest;
    FromToBits(r, p);
    hide ToBits, FromBits, Pow2;
    assert bits[1..1 + p] == ToBits(r, p);
    assert bits[1 + p..] == rest;
  }

  lemma OneMoreTimes(q: nat, d: nat)
    requires q > 0
    ensures q * d == d + (q - 1) * d
  {}

  lemma {:induction false} DecodeUnary(q: nat, r: nat, p: nat, rest: seq<bool>)
    requires r < Pow2(p) && p <= 64
    ensures GolombDecode(Ones(q) + [false] + ToBits(r, p) + rest, p) == Some((q * Pow2(p) + r, rest))
  {
    hide GolombDecode, ToBits, FromBits, Pow2;
    var end := [false] + ToBits(r, p) + rest;
    if q == 0 {
      assert Ones(0) + [false] + ToBits(r, p) + rest == end;
      DecodeEnd(r, p, rest);
    } else {
      DecodeUnary(q - 1, r, p, rest);
      var more := Ones(q - 1) + [false] + ToBits(r, p) + rest;
      assert Ones(q) + [false] + ToBits(r, p) + rest == [true] + more;
      DecodeOne(more, p);
      OneMoreTimes(q, Pow2(p));
    }
  }

  /** Decoding an encoded number gives the number and leaves exactly what follows it. */
  lemma GolombRoundTrip(x: nat, p: nat, rest: seq<bool>)
    requires p <= 64
    ensures GolombDecode(GolombEncode(x, p) + rest, p) == Some((x, rest))
  {
    hide Pow2, GolombDecode, ToBits;
    Parts(x, Pow2(p));
    DecodeUnary(Quotient(x, Pow2(p)), x % Pow2(p), p, rest);
  }

  lemma {:induction false} OnesAre(q: nat, i: nat)
    requires i < q
    ensures Ones(q)[i]
  {
    if i > 0 {
      OnesAre(q - 1, i - 1);
    }
  }

  /** A code bit by bit: as many ones as 2^p goes into the number, a zero, and the remainder in p bits. */
  lemma GolombShape(x: nat, p: nat)
    ensures var c, q := GolombEncode(x, p), x / Pow2(p);
      && |c| == q + 1 + p && (forall i :: 0 <= i < q ==> c[i]) && !c[q]
      && x == q * Pow2(p) + FromBits(c[q + 1..])
  {
    var c, q := GolombEncode(x, p), x / Pow2(p);
    Parts(x, Pow2(p));
    FromToBits(x % Pow2(p), p);
    hide Pow2, FromBits, ToBits;
    forall i | 0 <= i < q ensures c[i] {
      OnesAre(q, i);
    }
    assert c[q + 1..] == ToBits(x % Pow2(p), p);
  }

  lemma EncodeMore(y: nat, p: nat)
    ensures GolombEncode(Pow2(p) + y, p) == [true] + GolombEncode(y, p)
  {
    hide Pow2;
    Parts(y, Pow2(p));
    DivMod(Pow2(p) + y, Pow2(p), Quotient(y, Pow2(p)) + 1, y % Pow2(p));
  }

  lemma EncodeSmall(r: nat, p: nat)
    requires r < Pow2(p)
    ensures GolombEncode(r, p) == [false] + ToBits(r, p)
  {
    DivMod(r, Pow2(p), 0, r);
  }

  /** Whatever decodes is an encoding: a number has one code. */
  lemma {:induction false} GolombIsCanonical(bits: seq<bool>, p: nat)
    ensures GolombDecode(bits, p).Some? ==>
      var (x, rest) := GolombDecode(bits, p).value; bits == GolombEncode(x, p) + rest
  {
    hide GolombEncode, Pow2, ToBits, FromBits;
    if bits != [] && GolombDecode(bits, p).Some? {
      var (x, rest) := GolombDecode(bits, p).value;
      if bits[0] {
        GolombIsCanonical(bits[1..], p);
        EncodeMore(GolombDecode(bits[1..], p).value.0, p);
        assert bits == [true] + bits[1..];
      } else {
        ToFromBits(bits[1..1 + p]);
        FromBitsBound(bits[1..1 + p]);
        EncodeSmall(x, p);
        assert bits == [false] + bits[1..1 + p] + bits[1 + p..];
      }
    }
  }

  /** Decodes the number at the front of the stream; none is a panic, or the error that its caller panics on. */
  method GolombRiceDecode(reader: BitStreamReader, p: nat) returns (x: Option<nat>)
    requires reader.Valid()
    modifies reader
    ensures reader.Valid()
    ensures GolombDecode(old(reader.Remaining()), p) == if x.Some? then Some((x.value, reader.Remaining())) else None
  {
    hide GolombDecode, FromBits, Pow2, BitStreamReader.Remaining;
    ghost var all := reader.Remaining();
    ghost var now := all;
    var q: nat := 0;
    FrontBit(now, p);
    var bit := reader.Read(1);
    while bit == Value(1)
      invariant reader.Valid() && AfterBit(now, bit, reader.Remaining())
      invariant Ahead(all, now, q, p)
      decreases |now|
    {
      OneMore(all, now, q, p);
      q := q + 1;
      now := reader.Remaining();
      FrontBit(now, p);
      bit := reader.Read(1);
    }
    FrontBit(now, p);
    if bit != Value(0) {
      return None;
    }
    var r := reader.Read(p);
    if !r.Value? {
      return None;
    }
    x := Some(ShiftLeft(q, p) + r.bits);
  }

  /** A bit was read off the front of now, or there was none. */
  ghost predicate AfterBit(now: seq<bool>, bit: ReadBits, rest: seq<bool>)
  {
    if now == [] then bit == EndOfStream else bit == Value(if now[0] then 1 else 0) && rest == now[1..]
  }

  /** After q ones, what is left decodes to what is left of the number. */
  ghost predicate Ahead(all: seq<bool>, now: seq<bool>, q: nat, p: nat)
  {
    GolombDecode(all, p) ==
      match GolombDecode(now, p)
      case None => None
      case Some((x, rest)) => Some((ShiftLeft(q, p) + x, rest))
  }

  /** What the front bit says about the number. */
  lemma FrontBit(now: seq<bool>, p: nat)
    ensures Ahead(now, now, 0, p)
    ensures now == [] ==> GolombDecode(now, p).None?
    ensures now != [] ==> FromBits(now[..1]) == if now[0] then 1 else 0
    ensures now != [] && !now[0] ==>
      GolombDecode(now, p) == if p > 64 || |now[1..]| < p then None else Some((FromBits(now[1..][..p]), now[1..][p..]))
  {
    if now != [] {
      assert now[..1] == [now[0]] && [now[0]][..0] == [];
      if !now[0] && |now| >= 1 + p {
        assert now[1..][..p] == now[1..1 + p] && now[1..][p..] == now[1 + p..];
      }
    }
  }

  lemma OneMore(all: seq<bool>, now: seq<bool>, q: nat, p: nat)
    requires now != [] && now[0] && Ahead(all, now, q, p)
    ensures Ahead(all, now[1..], q + 1, p)
  {
    hide GolombDecode, ShiftLeft, Pow2;
    assert now == [true] + now[1..];
    DecodeOne(now[1..], p);
    ShiftOne(q, p);
  }

  lemma ShiftOne(q: nat, p: nat)
    ensures ShiftLeft(q + 1, p) == ShiftLeft(q, p) + Pow2(p)
  {
    OneMoreTimes(q + 1, Pow2(p));
  }

  // ----- Golomb-coded sets -----

  /** The codes of the differences of successive values, from prev on. */
  ghost function EncodeFrom(prev: nat, vals: seq<nat>, p: nat): seq<bool>
    requires Rising(prev, vals)
    decreases |vals|
  {
    if vals == [] then [] else GolombEncode(vals[0] - prev, p) + EncodeFrom(vals[0], vals[1..], p)
  }

  /** Values that start at or above prev and never fall. */
  ghost predicate Rising(prev: nat, vals: seq<nat>)
    decreases |vals|
  {
    vals == [] || (prev <= vals[0] && Rising(vals[0], vals[1..]))
  }

  /** The values whose differences are at the front of a bit sequence, n of them or as many as are complete. */
  ghost function DecodeFrom(prev: nat, bits: seq<bool>, n: nat, p: nat): seq<nat>
    decreases n
  {
    if n == 0 then [] else
      match GolombDecode(bits, p)
      case None => []
      case Some((delta, rest)) => [prev + delta] + DecodeFrom(prev + delta, rest, n - 1, p)
  }

  /** Decoding what was encoded gives the values back, whatever the padding. */
  lemma {:induction false} DecodeEncoded(prev: nat, vals: seq<nat>, p: nat, pad: seq<bool>)
    requires Rising(prev, vals) && p <= 64
    ensures DecodeFrom(prev, EncodeFrom(prev, vals, p) + pad, |vals|, p) == vals
    decreases |vals|
  {
    hide GolombEncode, GolombDecode;
    if vals != [] {
      var code, more := GolombEncode(vals[0] - prev, p), EncodeFrom(vals[0], vals[1..], p);
      assert code + more + pad == code + (more + pad);
      GolombRoundTrip(vals[0] - prev, p, more + pad);
      DecodeEncoded(vals[0], vals[1..], p, pad);
      assert vals == [vals[0]] + vals[1..];
    }
  }

  lemma {:induction false} DecodedIsRising(prev: nat, bits: seq<bool>, n: nat, p: nat)
    ensures |DecodeFrom(prev, bits, n, p)| <= n
    ensures Rising(prev, DecodeFrom(prev, bits, n, p))
    decreases n
  {
    hide GolombDecode;
    if n > 0 && GolombDecode(bits, p).Some? {
      var (delta, rest) := GolombDecode(bits, p).value;
      DecodedIsRising(prev + delta, rest, n - 1, p);
    }
  }

  lemma {:induction false} RisingOrder(prev: nat, vals: seq<nat>, i: nat)
    requires Rising(prev, vals) && i < |vals|
    ensures prev <= vals[i]
    ensures forall j :: i <= j < |vals| ==> vals[i] <= vals[j]
    decreases |vals|
  {
    if i > 0 {
      RisingOrder(vals[0], vals[1..], i - 1);
      assert vals[1..][i - 1] == vals[i];
      forall j | i <= j < |vals| ensures vals[i] <= vals[j] {
        assert vals[1..][j - 1] == vals[j];
      }
    } else {
      forall j | 0 < j < |vals| ensures vals[0] <= vals[j] {
        RisingOrder(vals[0], vals[1..], j - 1);
      }
    }
  }

  // ----- queries -----

  /** A reader of filters: the keyed hash, the Golomb parameter and the inverse false positive rate. */
  datatype GcsFilterReader = GcsFilterReader(hash: seq<byte> -> nat, p: nat, m: nat)

  /** Reduces a 64-bit hash to the range below nm. */
  function MapToRange(hash: nat, nm: nat): int
  {
    ShiftRight(hash * nm, 64)
  }

  /** The place in a range of nm of a hash among all 64-bit numbers: x / nm <= hash / 2^64 < (x + 1) / nm. */
  ghost predicate Reduces(hash: nat, nm: nat, x: int)
  {
    x * Pow2(64) <= hash * nm < (x + 1) * Pow2(64)
  }

  /** A hash is reduced to that place and to no other. */
  lemma MapReduces(hash: nat, nm: nat, x: int)
    ensures Reduces(hash, nm, x) <==> x == MapToRange(hash, nm)
  {
    hide Pow2;
    Parts(hash * nm, Pow2(64));
    if Reduces(hash, nm, x) {
      OnePlace(x, MapToRange(hash, nm), hash * nm, Pow2(64));
    }
  }

  /** The middle hash of a filter of one element, with the parameters of BIP 158. */
  lemma MiddleOfRange()
    ensures MapToRange(Pow2(63), 1 * M) == 392465 && 2 * 392465 + 1 == M && P == 19
  {
    assert Pow2(64) == 2 * Pow2(63);
    assert Reduces(Pow2(63), M, 392465) by {
      hide Pow2;
    }
    MapReduces(Pow2(63), M, 392465);
  }

  lemma MapIsInRange(hash: nat, nm: nat)
    requires hash < Pow2(64) && nm > 0
    ensures 0 <= MapToRange(hash, nm) < nm
  {
    hide Pow2;
    var q := Quotient(hash * nm, Pow2(64));
    Parts(hash * nm, Pow2(64));
    MulOrder(hash, Pow2(64), nm);
    if q >= nm {
      MulOrder(nm - 1, q, Pow2(64));
    }
  }

  /** The number of elements a filter says it has; an unreadable count counts as none. */
  function ElementCount(content: seq<byte>): nat
  {
    match ReadVarInt(content) case Ok(n, _) => n case _ => 0
  }

  /** The values of a filter that its stream holds completely. */
  ghost function ReadableValues(content: seq<byte>, p: nat): seq<nat>
  {
    match ReadVarInt(content)
    case Ok(n, rest) => DecodeFrom(0, BitsOf(rest), n, p)
    case _ => []
  }

  /** The values of the elements of a filter, if its stream is complete. */
  ghost function FilterValues(content: seq<byte>, p: nat): Option<seq<nat>>
  {
    if |ReadableValues(content, p)| == ElementCount(content) then Some(ReadableValues(content, p)) else None
  }

  /** Where the scan stands: at position k of the values, the rest still to be decoded. */
  ghost predicate Scanning(vals: seq<nat>, n: nat, k: nat, data: int, remaining: nat, bits: seq<bool>, p: nat)
  {
    && k < |vals| <= n && data == vals[k] && remaining == n - 1 - k
    && DecodeFrom(vals[k], bits, remaining, p) == vals[k + 1..]
  }

  lemma StartScan(bits: seq<bool>, vals: seq<nat>, n: nat, p: nat)
    requires n > 0 && DecodeFrom(0, bits, n, p) == vals
    ensures GolombDecode(bits, p).None? <==> vals == []
    ensures vals != [] ==> var (first, rest) := GolombDecode(bits, p).value; Scanning(vals, n, 0, first, n - 1, rest, p)
  {
    hide GolombDecode;
    DecodedIsRising(0, bits, n, p);
    if vals != [] {
      var (first, rest) := GolombDecode(bits, p).value;
      assert vals[1..] == DecodeFrom(first, rest, n - 1, p);
    }
  }

  lemma NextScan(vals: seq<nat>, n: nat, k: nat, data: int, remaining: nat, bits: seq<bool>, p: nat)
    requires Scanning(vals, n, k, data, remaining, bits, p) && remaining > 0
    ensures GolombDecode(bits, p).None? <==> k + 1 == |vals|
    ensures k + 1 < |vals| ==>
      var (delta, rest) := GolombDecode(bits, p).value; Scanning(vals, n, k + 1, data + delta, remaining - 1, rest, p)
  {
    hide GolombDecode;
    if k + 1 < |vals| {
      var (delta, rest) := GolombDecode(bits, p).value;
      assert vals[k + 1..][1..] == vals[k + 2..];
      assert vals[k + 1..] == [data + delta] + DecodeFrom(data + delta, rest, remaining - 1, p);
    }
  }

  /** Moves the scan to the first value that is not below the wanted one. Stops short of it when
      the values end before, or panics when the stream does. */
  method Advance(reader: BitStreamReader, p: nat, start: int, left: nat, wanted: int, ghost vals: seq<nat>, ghost n: nat, ghost k0: nat)
    returns (ok: bool, data: int, remaining: nat, ghost k: nat)
    requires reader.Valid() && Scanning(vals, n, k0, start, left, reader.Remaining(), p)
    modifies reader
    ensures reader.Valid() && k0 <= k < |vals| && data == vals[k] && remaining == n - 1 - k
    ensures forall t :: k0 <= t < k ==> vals[t] < wanted
    ensures ok ==> Scanning(vals, n, k, data, remaining, reader.Remaining(), p)
    ensures ok && data < wanted ==> remaining == 0
    ensures !ok ==> data < wanted && k == |vals| - 1 && |vals| < n
  {
    data, remaining, k := start, left, k0;
    while data < wanted && remaining > 0
      invariant reader.Valid() && Scanning(vals, n, k, data, remaining, reader.Remaining(), p)
      invariant k0 <= k && forall t :: k0 <= t < k ==> vals[t] < wanted
      decreases remaining
    {
      NextScan(vals, n, k, data, remaining, reader.Remaining(), p);
      var delta := GolombRiceDecode(reader, p);
      if delta.None? {
        return false, data, remaining, k;
      }
      data, remaining, k := data + delta.value, remaining - 1, k + 1;
    }
    ok := true;
  }

  /** What the place the scan has moved to tells about the wanted value. */
  lemma AdvancedTells(vals: seq<nat>, n: nat, k: nat, data: int, wanted: int)
    requires k < |vals| <= n && data == vals[k] && Rising(0, vals)
    requires forall t :: 0 <= t < k ==> vals[t] < wanted
    requires data < wanted ==> k == |vals| - 1
    ensures data == wanted <==> wanted in vals
    ensures data < wanted ==> forall x <- vals :: x < wanted
    ensures data <= vals[|vals| - 1]
  {
    RisingOrder(0, vals, k);
  }

  ghost predicate Sorted(s: seq<int>) { forall i, j :: 0 <= i < j < |s| ==> s[i] <= s[j] }

  /** The last of the values, if there is one, is above this one. */
  ghost predicate Exceeded(vals: seq<nat>, x: int) { vals != [] && x < vals[|vals| - 1] }

  ghost predicate SomeIn(mapped: seq<int>, vals: seq<nat>) { exists i :: 0 <= i < |mapped| && mapped[i] in vals }

  ghost predicate AllIn(mapped: seq<int>, vals: seq<nat>) { forall i :: 0 <= i < |mapped| ==> mapped[i] in vals }

  ghost predicate AllExceeded(mapped: seq<int>, vals: seq<nat>) { forall i :: 0 <= i < |mapped| ==> Exceeded(vals, mapped[i]) }

  /** One that is not there was gone past. */
  ghost predicate SomeMissed(mapped: seq<int>, vals: seq<nat>)
  {
    exists i :: 0 <= i < |mapped| && mapped[i] !in vals && Exceeded(vals, mapped[i])
  }

  /** One pass over the sorted query and the sorted values finds a common element if there is one. If
      there is none and the stream ends early, it panics unless all of the query is below what was read. */
  method ScanAny(reader: BitStreamReader, p: nat, mapped: seq<int>, n: nat, ghost vals: seq<nat>) returns (r: Option<bool>)
    requires reader.Valid() && n > 0 && Sorted(mapped) && mapped != []
    requires DecodeFrom(0, reader.Remaining(), n, p) == vals
    modifies reader
    ensures r ==
      if SomeIn(mapped, vals) then Some(true) else if |vals| == n || AllExceeded(mapped, vals) then Some(false) else None
  {
    hide Scanning, Rising, DecodeFrom, GolombDecode;
    StartScan(reader.Remaining(), vals, n, p);
    DecodedIsRising(0, reader.Remaining(), n, p);
    var first := GolombRiceDecode(reader, p);
    if first.None? {
      assert !Exceeded(vals, mapped[0]);
      return None;
    }
    var data: int, remaining: nat := first.value, n - 1;
    ghost var k: nat := 0;
    for i := 0 to |mapped|
      invariant reader.Valid() && Scanning(vals, n, k, data, remaining, reader.Remaining(), p)
      invariant forall j :: 0 <= j < i ==> mapped[j] !in vals && Exceeded(vals, mapped[j])
      invariant k < |vals| <= n && (i < |mapped| ==> forall t :: 0 <= t < k ==> vals[t] < mapped[i])
    {
      var ok;
      ok, data, remaining, k := Advance(reader, p, data, remaining, mapped[i], vals, n, k);
      AdvancedTells(vals, n, k, data, mapped[i]);
      if ok && data == mapped[i] {
        return Some(true);
      }
      if data < mapped[i] {
        forall j | i <= j < |mapped| ensures mapped[j] !in vals && !Exceeded(vals, mapped[j]) {
          assert mapped[i] <= mapped[j];
        }
        return if ok then Some(false) else None;
      }
    }
    return Some(false);
  }

  /** The same pass finds whether every element of a strictly sorted query is among the values. If one is
      missing and the stream ends early, it panics unless a missing one is below what was read. */
  method ScanAll(reader: BitStreamReader, p: nat, mapped: seq<int>, n: nat, ghost vals: seq<nat>) returns (r: Option<bool>)
    requires reader.Valid() && n > 0 && mapped != []
    requires forall i, j :: 0 <= i < j < |mapped| ==> mapped[i] < mapped[j]
    requires DecodeFrom(0, reader.Remaining(), n, p) == vals
    modifies reader
    ensures r ==
      if AllIn(mapped, vals) then Some(true) else if |vals| == n || SomeMissed(mapped, vals) then Some(false) else None
  {
    hide Scanning, Rising, DecodeFrom, GolombDecode;
    StartScan(reader.Remaining(), vals, n, p);
    DecodedIsRising(0, reader.Remaining(), n, p);
    var first := GolombRiceDecode(reader, p);
    if first.None? {
      assert mapped[0] !in vals;
      return None;
    }
    var data: int, remaining: nat := first.value, n - 1;
    ghost var k: nat := 0;
    for i := 0 to |mapped|
      invariant reader.Valid() && Scanning(vals, n, k, data, remaining, reader.Remaining(), p)
      invariant forall j :: 0 <= j < i ==> mapped[j] in vals
      invariant k < |vals| <= n && (i < |mapped| ==> forall t :: 0 <= t < k ==> vals[t] < mapped[i])
    {
      var ok;
      ok, data, remaining, k := Advance(reader, p, data, remaining, mapped[i], vals, n, k);
      AdvancedTells(vals, n, k, data, mapped[i]);
      if !ok {
        forall j | i <= j < |mapped| ensures !Exceeded(vals, mapped[j]) {
          assert mapped[i] <= mapped[j];
        }
        return None;
      }
      if data != mapped[i] {
        return Some(false);
      }
    }
    return Some(true);
  }

  function MapAll(f: GcsFilterReader, query: seq<seq<byte>>, nm: nat): seq<int>
  {
    seq(|query|, i requires 0 <= i < |query| => MapToRange(f.hash(query[i]), nm))
  }

  /** The value that an element of a query is looked for under. */
  ghost function Wanted(f: GcsFilterReader, content: seq<byte>, e: seq<byte>): int
  {
    MapToRange(f.hash(e), ElementCount(content) * f.m)
  }

  /** A query element hits a filter when its mapped value is one of the filter's values. */
  ghost predicate Hits(f: GcsFilterReader, content: seq<byte>, e: seq<byte>)
  {
    Wanted(f, content, e) in ReadableValues(content, f.p)
  }

  /** What the stream holds of the filter goes past where the element would be. */
  ghost predicate Passes(f: GcsFilterReader, content: seq<byte>, e: seq<byte>)
  {
    Exceeded(ReadableValues(content, f.p), Wanted(f, content, e))
  }

  ghost predicate Complete(f: GcsFilterReader, content: seq<byte>) { FilterValues(content, f.p).Some? }

  /** The mapped query holds exactly the values that the elements of the query are looked for under. */
  ghost predicate Maps(f: GcsFilterReader, content: seq<byte>, query: seq<seq<byte>>, mapped: seq<int>)
  {
    && (forall i :: 0 <= i < |mapped| ==> LooksFor(f, content, query, mapped[i]))
    && (forall e :: e in query ==> Wanted(f, content, e) in mapped)
  }

  ghost predicate LooksFor(f: GcsFilterReader, content: seq<byte>, query: seq<seq<byte>>, x: int)
  {
    exists e :: e in query && Wanted(f, content, e) == x
  }

  lemma PermutedQuery(f: GcsFilterReader, content: seq<byte>, query: seq<seq<byte>>, mapped: seq<int>)
    requires forall x :: x in mapped <==> x in MapAll(f, query, ElementCount(content) * f.m)
    ensures Maps(f, content, query, mapped)
  {
    var nm := ElementCount(content) * f.m;
    var plain := MapAll(f, query, nm);
    forall i | 0 <= i < |mapped| ensures LooksFor(f, content, query, mapped[i]) {
      assert mapped[i] in mapped;
      var j :| 0 <= j < |plain| && plain[j] == mapped[i];
      assert query[j] in query && Wanted(f, content, query[j]) == mapped[i];
    }
    forall e | e in query ensures Wanted(f, content, e) in mapped {
      var j :| 0 <= j < |query| && query[j] == e;
      assert plain[j] in plain && plain[j] in mapped;
    }
  }

  /** What the scans say of the mapped query, said of the query. */
  ghost predicate AnyHits(f: GcsFilterReader, content: seq<byte>, query: seq<seq<byte>>) { exists e :: e in query && Hits(f, content, e) }

  ghost predicate AllHit(f: GcsFilterReader, content: seq<byte>, query: seq<seq<byte>>) { forall e :: e in query ==> Hits(f, content, e) }

  ghost predicate AllPass(f: GcsFilterReader, content: seq<byte>, query: seq<seq<byte>>) { forall e :: e in query ==> Passes(f, content, e) }

  ghost predicate AnyMissed(f: GcsFilterReader, content: seq<byte>, query: seq<seq<byte>>)
  {
    exists e :: e in query && !Hits(f, content, e) && Passes(f, content, e)
  }

  lemma ScanAnyMeans(f: GcsFilterReader, content: seq<byte>, query: seq<seq<byte>>, mapped: seq<int>)
    requires Maps(f, content, query, mapped)
    ensures SomeIn(mapped, ReadableValues(content, f.p)) <==> AnyHits(f, content, query)
    ensures AllExceeded(mapped, ReadableValues(content, f.p)) <==> AllPass(f, content, query)
  {
    hide ReadableValues, Wanted, Exceeded;
    forall i | 0 <= i < |mapped| ensures exists e :: e in query && Wanted(f, content, e) == mapped[i] {
      assert LooksFor(f, content, query, mapped[i]);
    }
    if AnyHits(f, content, query) {
      var e :| e in query && Hits(f, content, e);
      var i :| 0 <= i < |mapped| && mapped[i] == Wanted(f, content, e);
    }
    if AllExceeded(mapped, ReadableValues(content, f.p)) {
      forall e | e in query ensures Passes(f, content, e) {
        var i :| 0 <= i < |mapped| && mapped[i] == Wanted(f, content, e);
      }
    }
  }

  lemma ScanAllMeans(f: GcsFilterReader, content: seq<byte>, query: seq<seq<byte>>, mapped: seq<int>)
    requires Maps(f, content, query, mapped)
    ensures AllIn(mapped, ReadableValues(content, f.p)) <==> AllHit(f, content, query)
    ensures SomeMissed(mapped, ReadableValues(content, f.p)) <==> AnyMissed(f, content, query)
  {
    hide ReadableValues, Wanted, Exceeded;
    forall i | 0 <= i < |mapped| ensures exists e :: e in query && Wanted(f, content, e) == mapped[i] {
      assert LooksFor(f, content, query, mapped[i]);
    }
    if AnyMissed(f, content, query) {
      var e :| e in query && !Hits(f, content, e) && Passes(f, content, e);
      var i :| 0 <= i < |mapped| && mapped[i] == Wanted(f, content, e);
    }
    if AllIn(mapped, ReadableValues(content, f.p)) {
      forall e | e in query ensures Hits(f, content, e) {
        var i :| 0 <= i < |mapped| && mapped[i] == Wanted(f, content, e);
      }
    }
  }

  /** Whether any element of the query is in the filter; an empty query matches every filter. A panic
      exactly when none is, the stream ends early, and some element may still have come. */
  method MatchAny(f: GcsFilterReader, content: seq<byte>, query: seq<seq<byte>>) returns (r: Option<bool>)
    ensures r ==
      if query == [] || AnyHits(f, content, query) then Some(true)
      else if Complete(f, content) || AllPass(f, content, query) then Some(false)
      else None
  {
    hide AnyHits, AllPass, SomeIn, AllExceeded, Maps, DecodeFrom, BitsOf, ReadVarInt, MapToRange;
    var count := ReadVarInt(content);
    var n := if count.Ok? then count.value else 0;
    var mapped := SortBy((x: int) => x, MapAll(f, query, n * f.m));
    SameElements(mapped, MapAll(f, query, n * f.m));
    if |mapped| == 0 {
      return Some(true);
    }
    PermutedQuery(f, content, query, mapped);
    ScanAnyMeans(f, content, query, mapped);
    if n == 0 {
      NoValues(f, content);
      NoneIn(mapped);
      return Some(false);
    }
    var reader := new BitStreamReader(count.rest);
    SortedByIdentity(mapped);
    r := ScanAny(reader, f.p, mapped, n, ReadableValues(content, f.p));
  }

  /** Whether every element of the query is in the filter. A panic exactly when one is not, the stream ends
      early, and every element that is not in what was read may still have come. */
  method MatchAll(f: GcsFilterReader, content: seq<byte>, query: seq<seq<byte>>) returns (r: Option<bool>)
    ensures r ==
      if AllHit(f, content, query) then Some(true)
      else if Complete(f, content) || AnyMissed(f, content, query) then Some(false)
      else None
  {
    hide AnyMissed, SomeMissed, Maps, DecodeFrom, BitsOf, ReadVarInt, MapToRange, Hits;
    var count := ReadVarInt(content);
    var n := if count.Ok? then count.value else 0;
    var sorted := SortBy((x: int) => x, MapAll(f, query, n * f.m));
    SameElements(sorted, MapAll(f, query, n * f.m));
    SortedByIdentity(sorted);
    var mapped := Dedup(sorted);
    if |mapped| == 0 {
      return Some(true);
    }
    PermutedQuery(f, content, query, mapped);
    ScanAllMeans(f, content, query, mapped);
    if n == 0 {
      NoValues(f, content);
      assert mapped[0] !in ReadableValues(content, f.p);
      return Some(false);
    }
    var reader := new BitStreamReader(count.rest);
    r := ScanAll(reader, f.p, mapped, n, ReadableValues(content, f.p));
  }

  lemma NoneIn(mapped: seq<int>)
    ensures !SomeIn(mapped, [])
  {}

  lemma NoValues(f: GcsFilterReader, content: seq<byte>)
    requires ElementCount(content) == 0
    ensures ReadableValues(content, f.p) == [] && Complete(f, content)
  {}

  /** Content without a readable count holds nothing. */
  lemma UnreadableHoldsNothing(f: GcsFilterReader, content: seq<byte>, e: seq<byte>)
    requires !ReadVarInt(content).Ok?
    ensures ElementCount(content) == 0 && Complete(f, content) && !Hits(f, content, e)
  {}

  lemma SameElements(a: seq<int>, b: seq<int>)
    requires multiset(a) == multiset(b)
    ensures |a| == |b|
    ensures forall x :: x in a <==> x in b
  {
    assert |multiset(a)| == |multiset(b)|;
    forall x ensures x in a <==> x in b {
      assert x in multiset(a) <==> x in multiset(b);
    }
  }

  lemma SortedByIdentity(s: seq<int>)
    requires SortedBy((x: int) => x, s)
    ensures Sorted(s)
  {
    var id := (x: int) => x;
    assert forall i, j :: 0 <= i < j < |s| ==> id(s[i]) <= id(s[j]);
  }

  /** Drops repeated neighbours. */
  method Dedup(s: seq<int>) returns (r: seq<int>)
    requires Sorted(s)
    ensures forall i, j :: 0 <= i < j < |r| ==> r[i] < r[j]
    ensures forall x :: x in r <==> x in s
    ensures r == [] <==> s == []
  {
    r := [];
    for i := 0 to |s|
      invariant forall i, j :: 0 <= i < j < |r| ==> r[i] < r[j]
      invariant forall x :: x in r <==> x in s[..i]
      invariant if i == 0 then r == [] else r != [] && r[|r| - 1] == s[i - 1]
    {
      assert s[..i + 1] == s[..i] + [s[i]];
      assert i > 0 ==> s[i - 1] <= s[i];
      if r == [] || r[|r| - 1] != s[i] {
        r := r + [s[i]];
      }
    }
    assert s[..|s|] == s;
  }

  // ----- a whole filter -----

  function Zeros(n: nat): (s: seq<bool>)
    ensures |s| == n
  {
    if n == 0 then [] else [false] + Zeros(n - 1)
  }

  /** Bits as bytes, the last byte filled up with zero bits. */
  ghost function PackBits(bits: seq<bool>): seq<byte>
    decreases |bits|
  {
    if bits == [] then []
    else if |bits| < 8 then [ToByte(bits + Zeros(8 - |bits|))]
    else [ToByte(bits[..8])] + PackBits(bits[8..])
  }

  ghost function ToByte(bits: seq<bool>): (b: byte)
    requires |bits| == 8
    ensures ToBits(b, 8) == bits
  {
    FromBitsBound(bits);
    ToFromBits(bits);
    assert Pow2(8) == 256;
    FromBits(bits)
  }

  lemma BitsOfPush(b: byte, rest: seq<byte>)
    ensures BitsOf([b] + rest) == ToBits(b, 8) + BitsOf(rest)
  {
    assert ([b] + rest)[1..] == rest;
  }

  lemma NoBytes()
    ensures BitsOf([]) == []
  {}

  lemma {:induction false} PackedBits(bits: seq<bool>)
    ensures exists pad :: BitsOf(PackBits(bits)) == bits + pad
    decreases |bits|
  {
    hide ToBits, FromBits, ToByte, BitsOf, Zeros;
    if bits == [] {
      NoBytes();
      assert BitsOf(PackBits(bits)) == bits + [];
    } else if |bits| < 8 {
      var b := ToByte(bits + Zeros(8 - |bits|));
      BitsOfPush(b, []);
      NoBytes();
      assert [b] + [] == [b] && ToBits(b, 8) + [] == ToBits(b, 8);
      assert BitsOf(PackBits(bits)) == bits + Zeros(8 - |bits|);
    } else {
      PackedBits(bits[8..]);
      var pad :| BitsOf(PackBits(bits[8..])) == bits[8..] + pad;
      BitsOfPush(ToByte(bits[..8]), PackBits(bits[8..]));
      assert bits[..8] + (bits[8..] + pad) == bits + pad;
    }
  }

  /** The filter of a sorted list of values: their number, then the packed codes of their differences. */
  ghost function FilterOf(vals: seq<nat>, p: nat): seq<byte>
    requires Rising(0, vals)
  {
    VarInt(|vals|) + PackBits(EncodeFrom(0, vals, p))
  }

  /** The values of a filter are those it was made from. */
  lemma FilterRoundTrip(vals: seq<nat>, p: nat)
    requires Rising(0, vals) && |vals| < Pow256(8) && p <= 64
    ensures ReadableValues(FilterOf(vals, p), p) == vals && FilterValues(FilterOf(vals, p), p) == Some(vals)
    ensures ElementCount(FilterOf(vals, p)) == |vals|
  {
    var bits := EncodeFrom(0, vals, p);
    VarIntRoundTrip(|vals|, PackBits(bits));
    PackedBits(bits);
    var pad :| BitsOf(PackBits(bits)) == bits + pad;
    DecodeEncoded(0, vals, p, pad);
  }

  lemma SmallCodes()
    ensures GolombEncode(5, 2) == [true, false, false, true] && GolombEncode(4, 2) == [true, false, false, false]
  {
    assert Pow2(2) == 4;
    EncodeMore(1, 2);
    EncodeMore(0, 2);
    EncodeSmall(1, 2);
    EncodeSmall(0, 2);
    assert ToBits(0, 1) == [false];
    assert ToBits(1, 2) == ToBits(0, 1) + [true];
    assert ToBits(0, 2) == ToBits(0, 1) + [false];
  }

  lemma SmallByte()
    ensures PackBits([true, false, false, true, true, false, false, false]) == [0x98]
  {
    var bits := [true, false, false, true, true, false, false, false];
    assert bits[..8] == bits && bits[8..] == [];
    assert bits[..7][..6] == bits[..6] && bits[..6][..5] == bits[..5] && bits[..5][..4] == bits[..4];
    assert bits[..4] == [true, false, false, true];
    assert FromBits([true]) == 1 by {
      assert [true][..0] == [];
    }
    assert FromBits([true, false]) == 2 by {
      assert [true, false][..1] == [true];
    }
    assert FromBits([true, false, false]) == 4 by {
      assert [true, false, false][..2] == [true, false];
    }
    assert FromBits(bits[..4]) == 9 by {
      assert bits[..4][..3] == [true, false, false];
    }
    assert FromBits(bits[..5]) == 19 && FromBits(bits[..6]) == 38 && FromBits(bits[..7]) == 76;
    assert FromBits(bits) == 152;
  }

  /** A whole filter as bytes: two values, 5 and 9, with p = 2. Their number, then the codes of 5 and of 4. */
  lemma SmallFilter()
    ensures Rising(0, [5, 9]) && FilterOf([5, 9], 2) == [2, 0x98]
    ensures ReadableValues([2, 0x98], 2) == [5, 9]
  {
    assert [5, 9][1..] == [9] && [9][1..] == [];
    SmallCodes();
    SmallByte();
    hide GolombEncode, PackBits, FromBits, ToBits, BitsOf, DecodeFrom;
    assert EncodeFrom(9, [], 2) == [];
    assert EncodeFrom(5, [9], 2) == GolombEncode(4, 2) + [];
    assert EncodeFrom(0, [5, 9], 2) == [true, false, false, true] + [true, false, false, false];
    assert [true, false, false, true] + [true, false, false, false] == [true, false, false, true, true, false, false, false];
    Widths();
    FilterRoundTrip([5, 9], 2);
  }

  /** The values of the scripts of a filter, in the order of the scripts. */
  ghost predicate Reduced(f: GcsFilterReader, scripts: seq<seq<byte>>, raw: seq<nat>)
  {
    |raw| == |scripts| && forall i :: 0 <= i < |scripts| ==> Reduces(f.hash(scripts[i]), |scripts| * f.m, raw[i])
  }

  /** Looking up an element is looking for its place in the range among the values. */
  lemma HitsMeans(f: GcsFilterReader, content: seq<byte>, e: seq<byte>, x: int)
    requires Reduces(f.hash(e), ElementCount(content) * f.m, x)
    ensures Hits(f, content, e) <==> x in ReadableValues(content, f.p)
    ensures Passes(f, content, e) <==> Exceeded(ReadableValues(content, f.p), x)
  {
    hide Reduces, MapToRange;
    MapReduces(f.hash(e), ElementCount(content) * f.m, x);
  }

  /** Exactly the scripts that collide with one of the filter's scripts hit it; in particular a
      script that the filter was made from is never missed. */
  lemma ScriptsHit(f: GcsFilterReader, scripts: seq<seq<byte>>, raw: seq<nat>, vals: seq<nat>, e: seq<byte>, x: int)
    requires |scripts| < Pow256(8) && Rising(0, vals) && f.p <= 64
    requires Reduced(f, scripts, raw) && multiset(vals) == multiset(raw)
    requires Reduces(f.hash(e), |scripts| * f.m, x)
    ensures Hits(f, FilterOf(vals, f.p), e) <==> exists s :: s in scripts && Reduces(f.hash(s), |scripts| * f.m, x)
    ensures e in scripts ==> Hits(f, FilterOf(vals, f.p), e)
  {
    hide Reduces, MapToRange, FilterOf, ReadableValues, FilterValues, Rising;
    SameElements(vals, raw);
    FilterRoundTrip(vals, f.p);
    HitsMeans(f, FilterOf(vals, f.p), e, x);
    if x in raw {
      var i :| 0 <= i < |raw| && raw[i] == x;
      assert scripts[i] in scripts;
    }
    forall s | s in scripts && Reduces(f.hash(s), |scripts| * f.m, x) ensures x in raw {
      var i :| 0 <= i < |scripts| && scripts[i] == s;
      MapReduces(f.hash(s), |scripts| * f.m, x);
      MapReduces(f.hash(s), |scripts| * f.m, raw[i]);
    }
  }

  /** The running sum of the scan is always one of the values, and these stay below the range of the
      hash, so with a range that fits in 64 bits nothing overflows. */
  lemma ValuesAreBelow(f: GcsFilterReader, scripts: seq<seq<byte>>, raw: seq<nat>, vals: seq<nat>, k: nat)
    requires Reduced(f, scripts, raw) && multiset(vals) == multiset(raw) && k < |vals|
    requires f.m > 0 && forall s <- scripts :: f.hash(s) < Pow2(64)
    ensures vals[k] < |scripts| * f.m
  {
    hide Pow2, MapToRange, Reduces;
    var nm := |scripts| * f.m;
    SameElements(vals, raw);
    assert vals[k] in raw;
    var i :| 0 <= i < |raw| && raw[i] == vals[k];
    assert scripts[i] in scripts;
    MulOrder(0, |scripts|, f.m);
    MapIsInRange(f.hash(scripts[i]), nm);
    MapReduces(f.hash(scripts[i]), nm, raw[i]);
  }
}
