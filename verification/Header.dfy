/** Block header checks of node/src/messages/block_header.rs and the order on hashes of
    node/src/util/hash256.rs, in terms of the numbers that hashes stand for. */
module Header {
  import opened Basics
  import opened Bytes

  type Hash256 = s: seq<byte> | |s| == 32 witness ToLE(0, 32)

  datatype Ordering = Less | Equal | Greater

  // ----- hashes as little-endian numbers -----

  lemma {:induction false} FromLEAppend(a: seq<byte>, b: seq<byte>)
    ensures FromLE(a + b) == FromLE(a) + Pow256(|a|) * FromLE(b)
  {
    if a == [] {
      assert a + b == b;
    } else {
      assert (a + b)[1..] == a[1..] + b;
      FromLEAppend(a[1..], b);
      MulAssociates(256, Pow256(|a| - 1), FromLE(b));
    }
  }

  lemma FromLELast(s: seq<byte>, k: nat)
    requires k < |s|
    ensures FromLE(s[..k + 1]) == FromLE(s[..k]) + s[k] * Pow256(k)
  {
    assert s[..k + 1] == s[..k] + [s[k]];
    FromLEAppend(s[..k], [s[k]]);
    assert [s[k]][1..] == [];
  }

  /** The highest byte in which two numbers of the same width differ decides between them. */
  lemma HighestByteDecides(a: seq<byte>, b: seq<byte>, k: nat)
    requires k < |a| == |b| && a[k] < b[k] && a[k + 1..] == b[k + 1..]
    ensures FromLE(a) < FromLE(b)
  {
    hide FromLE, Pow256;
    FromLELast(a, k);
    FromLELast(b, k);
    FromLEBound(a[..k]);
    MulOrder(a[k], b[k], Pow256(k));
    FromLEAppend(a[..k + 1], a[k + 1..]);
    FromLEAppend(b[..k + 1], b[k + 1..]);
    assert a == a[..k + 1] + a[k + 1..] && b == b[..k + 1] + b[k + 1..];
  }

  /** Compares hashes byte by byte from the last one down. */
  method Compare(a: Hash256, b: Hash256) returns (o: Ordering)
    ensures o == if FromLE(a) < FromLE(b) then Less else if FromLE(a) > FromLE(b) then Greater else Equal
    ensures o == Equal <==> a == b
  {
    var i := 32;
    while i > 0
      invariant 0 <= i <= 32 && a[i..] == b[i..]
    {
      i := i - 1;
      if a[i] < b[i] {
        HighestByteDecides(a, b, i);
        return Less;
      } else if a[i] > b[i] {
        HighestByteDecides(b, a, i);
        return Greater;
      }
      assert a[i..] == [a[i]] + a[i + 1..] && b[i..] == [b[i]] + b[i + 1..];
    }
    assert a[0..] == a && b[0..] == b;
    return Equal;
  }

  // ----- the difficulty target -----

  /** The exponent and the mantissa of the compact form of a target. */
  function Exponent(bits: nat): nat { bits / 0x100_0000 }

  function Mantissa(bits: nat): nat { bits % 0x100_0000 }

  lemma {:induction false} ZeroBytes(s: seq<byte>)
    requires forall i :: 0 <= i < |s| ==> s[i] == 0
    ensures FromLE(s) == 0
  {
    if s != [] {
      ZeroBytes(s[1..]);
    }
  }

  lemma ThreeBytes(x: byte, y: byte, z: byte)
    ensures FromLE([x, y, z]) == x + 0x100 * y + 0x1_0000 * z
  {
    var s: seq<byte> := [x, y, z];
    assert s[1..] == [y, z] && s[1..][1..] == [z] && s[1..][1..][1..] == [];
    assert FromLE([z]) == z;
    assert FromLE([y, z]) == y + 256 * z;
  }

  /** Three bytes among zeros stand for the number they make, scaled by their place. */
  lemma PlacedBytes(s: seq<byte>, e: nat)
    requires 3 <= e <= |s|
    requires forall i :: 0 <= i < |s| && !(e - 3 <= i < e) ==> s[i] == 0
    ensures FromLE(s) == (s[e - 3] + 0x100 * s[e - 2] + 0x1_0000 * s[e - 1]) * Pow256(e - 3)
  {
    var low, mid, high := s[..e - 3], s[e - 3..e], s[e..];
    ZeroBytes(low);
    ZeroBytes(high);
    hide FromLE, Pow256;
    assert s == low + (mid + high);
    FromLEAppend(low, mid + high);
    FromLEAppend(mid, high);
    assert mid == [s[e - 3], s[e - 2], s[e - 1]];
    ThreeBytes(s[e - 3], s[e - 2], s[e - 1]);
    assert Pow256(|mid|) * 0 == 0;
    Commute(Pow256(e - 3), FromLE(mid));
  }

  lemma MantissaBytes(bits: nat)
    ensures bits % 0x100 + 0x100 * (bits / 0x100 % 0x100) + 0x1_0000 * (bits / 0x1_0000 % 0x100) == Mantissa(bits)
  {
    var a := bits / 0x100;
    var b := a / 0x100;
    assert bits / 0x1_0000 == b && bits / 0x100_0000 == b / 0x100;
    assert bits == 0x100 * a + bits % 0x100;
    assert a == 0x100 * b + a % 0x100;
    assert b == 0x100 * (b / 0x100) + b % 0x100;
  }

  /** The target as a hash, unless its exponent is out of range. */
  method DifficultyTarget(bits: nat) returns (r: Option<Hash256>)
    requires bits < 0x1_0000_0000
    ensures r.Some? <==> 3 <= Exponent(bits) <= 32
    ensures r.Some? ==> FromLE(r.value) == Mantissa(bits) * Pow256(Exponent(bits) - 3)
  {
    hide FromLE, Pow256, Mantissa;
    var exp := bits / 0x100_0000;
    if !(3 <= exp <= 32) {
      return None;
    }
    var high, middle, low: byte := bits / 0x1_0000 % 0x100, bits / 0x100 % 0x100, bits % 0x100;
    MantissaBytes(bits);
    var difficulty := PlaceBytes(exp, high, middle, low);
    PlacedBytes(difficulty, exp);
    r := Some(difficulty);
  }

  /** Fills an array of zeros with three bytes that end at a place. */
  method PlaceBytes(exp: nat, high: byte, middle: byte, low: byte) returns (s: Hash256)
    requires 3 <= exp <= 32
    ensures s[exp - 1] == high && s[exp - 2] == middle && s[exp - 3] == low
    ensures forall i :: 0 <= i < 32 && !(exp - 3 <= i < exp) ==> s[i] == 0
  {
    var difficulty := new byte[32](_ => 0);
    difficulty[exp - 1] := high;
    difficulty[exp - 2] := middle;
    difficulty[exp - 3] := low;
    s := difficulty[..];
  }

  // ----- validation -----

  datatype BlockHeader = BlockHeader(version: nat, prevHash: Hash256, merkleRoot: Hash256, timestamp: nat, bits: nat, nonce: nat)

  datatype Verdict = Valid | TimestampTooOld | ExponentOutOfRange | InvalidPow

  function NotLater(t: int): int -> int { (x: int) => if x <= t then 1 else 0 }

  lemma {:induction false} CountBounds(t: int, s: seq<int>)
    ensures 0 <= SumBy(NotLater(t), s) <= |s|
    ensures (forall x <- s :: x <= t) ==> SumBy(NotLater(t), s) == |s|
    ensures (forall x <- s :: x > t) ==> SumBy(NotLater(t), s) == 0
  {
    if s != [] {
      CountBounds(t, s[1..]);
      assert s[0] in s && forall x <- s[1..] :: x in s;
      assert NotLater(t)(s[0]) == if s[0] <= t then 1 else 0;
    }
  }

  /** In a sorted list, the element at k is not later than t exactly when more than k elements are not. */
  lemma RankInSorted(t: int, s: seq<int>, k: nat)
    requires k < |s| && forall i, j :: 0 <= i < j < |s| ==> s[i] <= s[j]
    ensures s[k] <= t <==> SumBy(NotLater(t), s) > k
  {
    hide SumBy;
    if s[k] <= t {
      CountSplits(t, s, k + 1);
      assert forall i :: 0 <= i <= k ==> s[i] <= s[k];
    } else {
      CountSplits(t, s, k);
      assert forall i :: k <= i < |s| ==> s[k] <= s[i];
    }
  }

  lemma CountSplits(t: int, s: seq<int>, k: nat)
    requires k <= |s|
    ensures SumBy(NotLater(t), s) == SumBy(NotLater(t), s[..k]) + SumBy(NotLater(t), s[k..])
    ensures 0 <= SumBy(NotLater(t), s[k..]) && SumBy(NotLater(t), s[..k]) <= k
    ensures (forall x <- s[..k] :: x <= t) ==> SumBy(NotLater(t), s[..k]) == k
    ensures (forall x <- s[k..] :: x > t) ==> SumBy(NotLater(t), s[k..]) == 0
  {
    SumByAppend(NotLater(t), s[..k], s[k..]);
    assert s == s[..k] + s[k..];
    CountBounds(t, s[..k]);
    CountBounds(t, s[k..]);
  }

  function Timestamps(headers: seq<BlockHeader>): seq<int>
  {
    seq(|headers|, i requires 0 <= i < |headers| => headers[i].timestamp)
  }

  /** The last headers that the timestamp is checked against, at most eleven. */
  function Recent(prev: seq<BlockHeader>): (recent: seq<BlockHeader>)
    ensures |recent| == (if |prev| < 11 then |prev| else 11) && recent == prev[|prev| - |recent|..]
  {
    prev[|prev| - (if |prev| < 11 then |prev| else 11)..]
  }

  /** More than half of the recent headers, rounded down, have timestamps not later than this one. */
  ghost predicate TimestampOk(t: int, prev: seq<BlockHeader>)
  {
    prev == [] || SumBy(NotLater(t), Timestamps(Recent(prev))) > |Recent(prev)| / 2
  }

  /** The hash is at most the target that the header commits to. */
  ghost predicate PowOk(bits: nat, hash: Hash256)
  {
    3 <= Exponent(bits) <= 32 && FromLE(hash) <= Mantissa(bits) * Pow256(Exponent(bits) - 3)
  }

  /** The last eleven headers, or as many as there are, that are not later than t, by position. */
  ghost function NotLaterAmong(t: int, prev: seq<BlockHeader>): set<int>
  {
    set i | 0 <= i < |prev| && |prev| - 11 <= i && prev[i].timestamp <= t
  }

  lemma OneMoreCounted(t: int, s: seq<int>, k: nat)
    requires k < |s|
    ensures SumBy(NotLater(t), s[k..]) == SumBy(NotLater(t), s[k + 1..]) + if s[k] <= t then 1 else 0
  {
    assert s[k..][1..] == s[k + 1..];
  }

  /** The positions from k on that are not later than t. */
  ghost function Counted(t: int, s: seq<int>, k: nat): set<int> { set i | k <= i < |s| && s[i] <= t }

  lemma CountedStep(t: int, s: seq<int>, k: nat)
    requires k < |s|
    ensures |Counted(t, s, k)| == |Counted(t, s, k + 1)| + if s[k] <= t then 1 else 0
  {
    assert Counted(t, s, k) == Counted(t, s, k + 1) + if s[k] <= t then {k} else {};
  }

  lemma {:induction false} CountIsSize(t: int, s: seq<int>, k: nat)
    requires k <= |s|
    ensures SumBy(NotLater(t), s[k..]) == |Counted(t, s, k)|
    decreases |s| - k
  {
    if k < |s| {
      hide SumBy, NotLater, Counted;
      CountIsSize(t, s, k + 1);
      OneMoreCounted(t, s, k);
      CountedStep(t, s, k);
    } else {
      assert Counted(t, s, k) == {};
    }
  }

  /** The timestamp is checked against the positions counted. */
  lemma TimestampCounts(t: int, prev: seq<BlockHeader>)
    ensures TimestampOk(t, prev) <==> prev == [] || |NotLaterAmong(t, prev)| > (if |prev| < 11 then |prev| else 11) / 2
  {
    var s, offset := Timestamps(prev), |prev| - |Recent(prev)|;
    assert Timestamps(Recent(prev)) == s[offset..];
    CountIsSize(t, s, offset);
    assert NotLaterAmong(t, prev) == Counted(t, s, offset);
  }

  /** The timestamp is not earlier than the middle one of the last eleven, and the hash is at most the target. */
  method Validate(header: BlockHeader, hash: Hash256, prev: seq<BlockHeader>) returns (v: Verdict)
    requires header.bits < 0x1_0000_0000
    ensures v == Valid <==> TimestampOk(header.timestamp, prev) && PowOk(header.bits, hash)
    ensures v == TimestampTooOld <==> !TimestampOk(header.timestamp, prev)
    ensures v == ExponentOutOfRange <==> TimestampOk(header.timestamp, prev) && !(3 <= Exponent(header.bits) <= 32)
    ensures v == TimestampTooOld <==>
      prev != [] && |NotLaterAmong(header.timestamp, prev)| <= (if |prev| < 11 then |prev| else 11) / 2
    ensures var exponent, mantissa := header.bits / 0x100_0000, header.bits % 0x100_0000;
      v == Valid <==> (v != TimestampTooOld && 3 <= exponent <= 32 && FromLE(hash) <= mantissa * Pow256(exponent - 3))
  {
    TimestampCounts(header.timestamp, prev);
    hide FromLE, Pow256, SumBy, NotLaterAmong;
    if prev != [] {
      var recent := Timestamps(Recent(prev));
      var sorted := SortBy((x: int) => x, recent);
      SortedRank(header.timestamp, recent, sorted);
      if header.timestamp < sorted[|sorted| / 2] {
        return TimestampTooOld;
      }
    }
    var target := DifficultyTarget(header.bits);
    if target.None? {
      return ExponentOutOfRange;
    }
    var order := Compare(hash, target.value);
    if order == Greater {
      return InvalidPow;
    }
    return Valid;
  }

  lemma SortedRank(t: int, recent: seq<int>, sorted: seq<int>)
    requires multiset(recent) == multiset(sorted) && SortedBy((x: int) => x, sorted) && recent != []
    ensures |sorted| == |recent| > |sorted| / 2
    ensures sorted[|sorted| / 2] <= t <==> SumBy(NotLater(t), recent) > |recent| / 2
  {
    var id := (x: int) => x;
    assert |multiset(recent)| == |recent| && |multiset(sorted)| == |sorted|;
    assert forall i, j :: 0 <= i < j < |sorted| ==> id(sorted[i]) <= id(sorted[j]);
    RankInSorted(t, sorted, |sorted| / 2);
    SumByPermutation(NotLater(t), recent, sorted);
  }
}
