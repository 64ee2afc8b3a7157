/** The bit stream reader of node/src/util/block_filter.rs: bytes taken apart most significant bit
    first, and the reader as an object proved to take the next bits of that sequence. */
module Bits {
  import opened Basics
  import opened Bytes

  /** The w low bits of v, most significant first. */
  function ToBits(v: nat, w: nat): (s: seq<bool>)
    ensures |s| == w
  {
    if w == 0 then [] else ToBits(v / 2, w - 1) + [v % 2 == 1]
  }

  /** The number that bits stand for, most significant first. */
  function FromBits(s: seq<bool>): nat
  {
    if s == [] then 0 else 2 * FromBits(s[..|s| - 1]) + if s[|s| - 1] then 1 else 0
  }

  /** The bits of a sequence of bytes. */
  function BitsOf(s: seq<byte>): seq<bool>
  {
    if s == [] then [] else ToBits(s[0], 8) + BitsOf(s[1..])
  }

  lemma {:induction false} ToBitsAt(v: nat, w: nat, i: nat)
    requires i < w
    ensures ToBits(v, w)[i] <==> v / Pow2(w - 1 - i) % 2 == 1
  {
    if i < w - 1 {
      ToBitsAt(v / 2, w - 1, i);
      DivideTwice(v, 2, Pow2(w - 2 - i));
    }
  }

  /** The bits of bytes: the k-th bit of the j-th byte, counted from its most significant one. */
  lemma {:induction false} BitAt(s: seq<byte>, j: nat, k: nat)
    requires j < |s| && k < 8
    ensures |BitsOf(s)| == 8 * |s|
    ensures BitsOf(s)[8 * j + k] <==> s[j] / Pow2(7 - k) % 2 == 1
  {
    BitsLength(s);
    if j == 0 {
      ToBitsAt(s[0], 8, k);
    } else {
      BitsLength(s[1..]);
      BitAt(s[1..], j - 1, k);
      assert BitsOf(s)[8 * j + k] == BitsOf(s[1..])[8 * (j - 1) + k];
    }
  }

  lemma {:induction false} BitsLength(s: seq<byte>)
    ensures |BitsOf(s)| == 8 * |s|
  {
    if s != [] {
      BitsLength(s[1..]);
    }
  }

  lemma {:induction false} FromToBits(v: nat, w: nat)
    requires v < Pow2(w)
    ensures FromBits(ToBits(v, w)) == v
  {
    if w != 0 {
      FromToBits(v / 2, w - 1);
      assert ToBits(v, w)[..w - 1] == ToBits(v / 2, w - 1);
    }
  }

  lemma {:induction false} FromBitsBound(s: seq<bool>)
    ensures FromBits(s) < Pow2(|s|)
  {
    if s != [] {
      FromBitsBound(s[..|s| - 1]);
    }
  }

  lemma {:induction false} ToFromBits(s: seq<bool>)
    ensures ToBits(FromBits(s), |s|) == s
  {
    if s != [] {
      ToFromBits(s[..|s| - 1]);
      assert s == s[..|s| - 1] + [s[|s| - 1]];
    }
  }

  lemma {:induction false} FromBitsAppend(a: seq<bool>, b: seq<bool>)
    ensures FromBits(a + b) == FromBits(a) * Pow2(|b|) + FromBits(b)
  {
    if b == [] {
      assert a + b == a;
    } else {
      var b' := b[..|b| - 1];
      assert (a + b)[..|a + b| - 1] == a + b';
      FromBitsAppend(a, b');
      assert Pow2(|b|) == 2 * Pow2(|b'|);
      assert FromBits(a + b) - 2 * FromBits(a + b') == FromBits(b) - 2 * FromBits(b');
      hide FromBits, Pow2;
      Doubled(FromBits(a), Pow2(|b'|));
    }
  }

  lemma Doubled(x: nat, y: nat)
    ensures x * (2 * y) == 2 * (x * y)
  {}

  // ----- a field inside a byte -----

  /** Quotient and remainder are the only such numbers. */
  lemma DivMod(x: nat, d: nat, q: nat, r: nat)
    requires d > 0 && x == q * d + r && r < d
    ensures x / d == q && x % d == r
  {
    var q', r' := x / d, x % d;
    assert x == q' * d + r';
    if q' < q {
      MulOrder(q', q, d);
    } else if q < q' {
      MulOrder(q, q', d);
    }
  }

  function Quotient(x: nat, d: nat): nat
    requires d > 0
  {
    x / d
  }

  lemma Parts(x: nat, d: nat)
    requires d > 0
    ensures x == (x / d) * d + x % d && x % d < d
  {}

  /** Dropping leading bits keeps the low ones, keeping leading bits divides by what is dropped. */
  lemma {:induction false} BitsTail(v: nat, w: nat, k: nat)
    requires k <= w
    ensures ToBits(v, w)[k..] == ToBits(v, w - k)
  {
    if k < w {
      BitsTail(v / 2, w - 1, k);
    }
  }

  lemma {:induction false} BitsHead(v: nat, w: nat, n: nat)
    requires n <= w
    ensures ToBits(v, w)[..n] == ToBits(v / Pow2(w - n), n)
  {
    if n < w {
      BitsHead(v / 2, w - 1, n);
      SplitHalf(v, Pow2(w - 1 - n));
      assert ToBits(v, w)[..n] == ToBits(v / 2, w - 1)[..n];
    }
  }

  /** Halving first and then splitting at d is splitting at 2 * d. */
  lemma SplitHalf(v: nat, d: nat)
    requires d > 0
    ensures v / (2 * d) == v / 2 / d
    ensures v % (2 * d) == 2 * (v / 2 % d) + v % 2
  {
    var h := v / 2;
    Parts(h, d);
    SplitHalfAt(v, d, h / d, h % d);
  }

  lemma SplitHalfAt(v: nat, d: nat, q: nat, r: nat)
    requires d > 0 && v / 2 == q * d + r && r < d
    ensures v / (2 * d) == q && v % (2 * d) == 2 * r + v % 2
  {
    assert q * (2 * d) == 2 * (q * d);
    DivMod(v, 2 * d, q, 2 * r + v % 2);
  }

  lemma {:induction false} FromBitsOfLow(v: nat, w: nat)
    ensures FromBits(ToBits(v, w)) == v % Pow2(w)
  {
    if w != 0 {
      FromBitsOfLow(v / 2, w - 1);
      assert ToBits(v, w)[..w - 1] == ToBits(v / 2, w - 1);
      SplitHalf(v, Pow2(w - 1));
    }
  }

  /** The shifts that cut n bits out of a byte at an offset: left to push out what came before
      (a byte keeps its low eight bits), right to push out what follows. */
  function Field(b: byte, offset: nat, n: nat): int
    requires offset + n <= 8
  {
    ShiftRight(ShiftLeft(b, offset) % 256, 8 - n)
  }

  function ShiftLeft(x: int, k: nat): int { x * Pow2(k) }

  function ShiftRight(x: int, k: nat): int { x / Pow2(k) }

  lemma Reassociated(x: nat, y: nat, z: nat)
    ensures x * y * z == x * (z * y)
  {}

  lemma BelowProduct(s: nat, m: nat, t: nat, c: nat)
    requires s < m && t < c
    ensures s * c + t < m * c
  {
    MulOrder(s, m, c);
  }

  lemma TimesIsBelow(x: nat, y: nat, a: nat)
    requires x < y && a > 0
    ensures x * a < a * y
  {
    MulOrder(x, y, a);
  }

  lemma SumTimes(x: nat, y: nat, a: nat)
    ensures (x + y) * a == x * a + y * a
  {}

  /** A byte made of three fields, shifted left by the width of the first. */
  lemma ShiftedFields(b: nat, a: nat, m: nat, c: nat, high: nat, s: nat, t: nat)
    requires a > 0 && a * (m * c) == 256 && s < m && t < c
    requires b == high * (m * c) + (s * c + t)
    ensures (s * c + t) * a < 256
    ensures b * a == high * 256 + (s * c + t) * a
    ensures (s * c + t) * a == s * (a * c) + t * a
    ensures t * a < a * c
  {
    BelowProduct(s, m, t, c);
    TimesIsBelow(s * c + t, m * c, a);
    TimesIsBelow(t, c, a);
    SumTimes(high * (m * c), s * c + t, a);
    Reassociated(high, m * c, a);
    SumTimes(s * c, t, a);
    Reassociated(s, c, a);
  }

  lemma FieldArithmetic(b: nat, a: nat, m: nat, c: nat)
    requires a > 0 && m > 0 && c > 0 && a * (m * c) == 256
    ensures a * c > 0 && ((b * a) % 256) / (a * c) == (b / c) % m
  {
    Parts(b, c);
    Parts(b / c, m);
    FieldsArithmetic(b, a, m, c, b / c / m, b / c % m, b % c);
  }

  lemma FieldsArithmetic(b: nat, a: nat, m: nat, c: nat, high: nat, s: nat, t: nat)
    requires a > 0 && a * (m * c) == 256 && s < m && t < c
    requires b == (high * m + s) * c + t
    ensures a * c > 0 && ((b * a) % 256) / (a * c) == s
  {
    Distributed(high, m, s, c);
    ShiftedFields(b, a, m, c, high, s, t);
    TwoSplits(b * a, a * c, high, s, t * a);
  }

  lemma Distributed(high: nat, m: nat, s: nat, c: nat)
    ensures (high * m + s) * c == high * (m * c) + s * c
  {}

  lemma TwoSplits(x: nat, d: nat, high: nat, s: nat, t: nat)
    requires x == high * 256 + (s * d + t) && s * d + t < 256 && t < d
    ensures (x % 256) / d == s
  {
    DivMod(x, 256, high, s * d + t);
    DivMod(s * d + t, d, s, t);
  }

  lemma FieldValue(b: byte, offset: nat, n: nat)
    requires offset + n <= 8
    ensures Field(b, offset, n) == (b / Pow2(8 - offset - n)) % Pow2(n)
  {
    hide Pow2;
    FieldWidths(offset, n);
    FieldArithmetic(b, Pow2(offset), Pow2(n), Pow2(8 - offset - n));
  }

  /** Those shifts give the number that the bits of the byte at those places stand for. */
  lemma FieldIsBits(b: byte, offset: nat, n: nat)
    requires offset + n <= 8
    ensures Field(b, offset, n) == FromBits(ToBits(b, 8)[offset..offset + n])
  {
    hide ToBits, FromBits, Pow2, Field;
    FieldValue(b, offset, n);
    BitsTail(b, 8, offset);
    BitsHead(b, 8 - offset, n);
    assert ToBits(b, 8)[offset..offset + n] == ToBits(b, 8)[offset..][..n];
    FromBitsOfLow(b / Pow2(8 - offset - n), n);
  }

  lemma FieldWidths(offset: nat, n: nat)
    requires offset + n <= 8
    ensures Pow2(offset) * (Pow2(n) * Pow2(8 - offset - n)) == 256
    ensures Pow2(offset) * Pow2(8 - offset - n) == Pow2(8 - n)
  {
    var c := 8 - offset - n;
    Pow2Adds(n, c);
    Pow2Adds(offset, n + c);
    Pow2Adds(offset, c);
    assert Pow2(8) == 256;
  }

  // ----- the reader -----

  /** What a read comes to: a number, an error for more than 64 bits, or a panic at the end of the stream. */
  datatype ReadBits = Value(bits: nat) | TooManyBits | EndOfStream

  class BitStreamReader {
    var buffer: byte
    var offset: nat
    var reader: seq<byte>

    ghost predicate Valid()
      reads this
    {
      offset <= 8
    }

    /** The bits that are still to come. */
    ghost function Remaining(): seq<bool>
      reads this
      requires Valid()
    {
      ToBits(buffer, 8)[offset..] + BitsOf(reader)
    }

    constructor (bytes: seq<byte>)
      ensures Valid() && Remaining() == BitsOf(bytes)
    {
      buffer := 0;
      offset := 8;
      reader := bytes;
      new;
      assert ToBits(0, 8)[8..] == [];
    }

    /** Cuts as many of the wanted bits as the current byte still has, fetching a byte first if
        there is none; no bits at the end of the stream. */
    method ReadChunk(left: nat) returns (bits: nat, field: int)
      requires Valid() && 0 < left
      modifies this
      ensures Valid() && bits <= left && bits <= |old(Remaining())|
      ensures bits == 0 <==> old(Remaining()) == []
      ensures field == FromBits(old(Remaining())[..bits])
      ensures Remaining() == old(Remaining())[bits..]
    {
      ghost var all := Remaining();
      NoBits(all);
      if offset == 8 && reader == [] {
        AllTaken(buffer);
        return 0, 0;
      }
      hide ToBits, BitsOf, FromBits, Field;
      if offset == 8 {
        NextByte(buffer, reader);
        buffer := reader[0];
        reader := reader[1..];
        offset := 0;
      }
      bits := if 8 - offset < left then 8 - offset else left;
      TakeField(all, buffer, offset, bits, reader);
      field := Field(buffer, offset, bits);
      offset := offset + bits;
    }

    /** Takes the next nbits bits as a number, across byte boundaries. */
    method Read(nbits: nat) returns (r: ReadBits)
      requires Valid()
      modifies this
      ensures Valid()
      ensures nbits > 64 ==> r == TooManyBits && Remaining() == old(Remaining())
      ensures nbits <= 64 && nbits > |old(Remaining())| ==> r == EndOfStream
      ensures nbits <= 64 && nbits <= |old(Remaining())| ==>
        && r == Value(FromBits(old(Remaining())[..nbits])) && r.bits < Pow2(64)
        && Remaining() == old(Remaining())[nbits..]
    {
      hide FromBits, ToBits, BitsOf, Pow2, ShiftLeft, BitStreamReader.Remaining;
      if nbits > 64 {
        return TooManyBits;
      }
      ghost var all := Remaining();
      var left, data := nbits, 0;
      NoBits(all);
      while left > 0
        invariant Valid() && 0 <= left <= nbits && nbits - left <= |all|
        invariant Remaining() == all[nbits - left..]
        invariant data == FromBits(all[..nbits - left])
      {
        ghost var done := nbits - left;
        var bits, field := ReadChunk(left);
        if bits == 0 {
          return EndOfStream;
        }
        AppendField(all, done, bits);
        data := ShiftLeft(data, bits) + field;
        left := left - bits;
      }
      FromBitsBound(all[..nbits]);
      Pow2Monotone(nbits, 64);
      r := Value(data);
    }
  }

  lemma AllTaken(buffer: byte)
    ensures ToBits(buffer, 8)[8..] + BitsOf([]) == []
  {}

  lemma NoBits(all: seq<bool>)
    ensures FromBits(all[..0]) == 0 && all[0..] == all
  {}

  /** Taking some bits and then some more is taking them together. */
  lemma AppendField(all: seq<bool>, done: nat, bits: nat)
    requires done + bits <= |all|
    ensures FromBits(all[..done + bits]) == ShiftLeft(FromBits(all[..done]), bits) + FromBits(all[done..][..bits])
    ensures all[done..][bits..] == all[done + bits..]
  {
    assert all[..done + bits] == all[..done] + all[done..][..bits];
    FromBitsAppend(all[..done], all[done..][..bits]);
  }

  /** Moving on to the next byte changes nothing about the bits to come. */
  lemma NextByte(buffer: byte, reader: seq<byte>)
    requires reader != []
    ensures ToBits(buffer, 8)[8..] + BitsOf(reader) == ToBits(reader[0], 8)[0..] + BitsOf(reader[1..])
  {}

  /** Cutting a field out of the current byte takes that many bits off the front. */
  lemma TakeField(all: seq<bool>, buffer: byte, offset: nat, bits: nat, reader: seq<byte>)
    requires offset + bits <= 8
    requires all == ToBits(buffer, 8)[offset..] + BitsOf(reader)
    ensures bits <= |all| && FromBits(all[..bits]) == Field(buffer, offset, bits)
    ensures all[bits..] == ToBits(buffer, 8)[offset + bits..] + BitsOf(reader)
  {
    hide ToBits, BitsOf, FromBits, Field;
    var tail := ToBits(buffer, 8)[offset..];
    assert all[..bits] == tail[..bits] == ToBits(buffer, 8)[offset..offset + bits];
    assert tail[bits..] == ToBits(buffer, 8)[offset + bits..];
    FieldIsBits(buffer, offset, bits);
  }
}
