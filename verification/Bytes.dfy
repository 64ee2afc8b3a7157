/** Bytes, little-endian numbers and the variable-length integers of node/src/util/var_int.rs. */
module Bytes {
  import opened Basics

  type byte = b: int | 0 <= b < 256

  /** What reading from a stream of bytes comes to: a value and the rest of the stream, an error the
      reader returns, or a panic. */
  datatype Read<+T> = Ok(value: T, rest: seq<byte>) | Err | Panic
  {
    predicate IsFailure() { !Ok? }

    function PropagateFailure<U>(): Read<U>
      requires IsFailure()
    {
      if Err? then Err else Panic
    }

    function Extract(): (T, seq<byte>)
      requires !IsFailure()
    {
      (value, rest)
    }
  }

  function Pow256(n: nat): (r: nat)
    ensures r >= 1
  {
    if n == 0 then 1 else 256 * Pow256(n - 1)
  }

  // ----- fixed width -----

  /** The w low bytes of n, least significant first. */
  function ToLE(n: nat, w: nat): (s: seq<byte>)
    ensures |s| == w
  {
    if w == 0 then [] else [n % 256] + ToLE(n / 256, w - 1)
  }

  function FromLE(s: seq<byte>): nat
  {
    if s == [] then 0 else s[0] + 256 * FromLE(s[1..])
  }

  lemma {:induction false} FromToLE(n: nat, w: nat)
    requires n < Pow256(w)
    ensures FromLE(ToLE(n, w)) == n
  {
    if w != 0 {
      FromToLE(n / 256, w - 1);
      assert ToLE(n, w)[1..] == ToLE(n / 256, w - 1);
    }
  }

  lemma {:induction false} FromLEBound(s: seq<byte>)
    ensures FromLE(s) < Pow256(|s|)
  {
    if s != [] {
      FromLEBound(s[1..]);
    }
  }

  lemma {:induction false} ToFromLE(s: seq<byte>)
    ensures ToLE(FromLE(s), |s|) == s
  {
    if s != [] {
      ToFromLE(s[1..]);
      var n := FromLE(s);
      assert n % 256 == s[0] && n / 256 == FromLE(s[1..]);
    }
  }

  function ReadLE(s: seq<byte>, w: nat): Read<nat>
  {
    if |s| < w then Err else Ok(FromLE(s[..w]), s[w..])
  }

  lemma ReadLERoundTrip(n: nat, w: nat, rest: seq<byte>)
    requires n < Pow256(w)
    ensures ReadLE(ToLE(n, w) + rest, w) == Ok(n, rest)
  {
    FromToLE(n, w);
    assert (ToLE(n, w) + rest)[..w] == ToLE(n, w);
    assert (ToLE(n, w) + rest)[w..] == rest;
  }

  lemma Widths()
    ensures Pow256(1) == 0x100 && Pow256(2) == 0x1_0000
    ensures Pow256(4) == 0x1_0000_0000 && Pow256(8) == 0x1_0000_0000_0000_0000
  {
    assert Pow256(4) == 256 * Pow256(3) && Pow256(8) == 256 * (256 * Pow256(6));
    assert Pow256(6) == 256 * (256 * Pow256(4));
  }

  // ----- variable width -----

  function VarIntSize(n: nat): nat
  {
    if n <= 252 then 1 else if n <= 0xffff then 3 else if n <= 0xffff_ffff then 5 else 9
  }

  function VarInt(n: nat): seq<byte>
  {
    if n <= 252 then [n]
    else if n <= 0xffff then [0xfd] + ToLE(n, 2)
    else if n <= 0xffff_ffff then [0xfe] + ToLE(n, 4)
    else [0xff] + ToLE(n, 8)
  }

  function ReadVarInt(s: seq<byte>): Read<nat>
  {
    if s == [] then Err
    else if s[0] == 0xff then ReadLE(s[1..], 8)
    else if s[0] == 0xfe then ReadLE(s[1..], 4)
    else if s[0] == 0xfd then ReadLE(s[1..], 2)
    else Ok(s[0], s[1..])
  }

  /** A variable-length integer reads back, whatever follows it, and takes the bytes it is said to. */
  lemma VarIntRoundTrip(n: nat, rest: seq<byte>)
    requires n < Pow256(8)
    ensures ReadVarInt(VarInt(n) + rest) == Ok(n, rest)
    ensures |VarInt(n)| == VarIntSize(n)
  {
    Widths();
    hide ReadLE, ToLE, Pow256;
    if n > 252 {
      var w, tag: byte := if n <= 0xffff then 2 else if n <= 0xffff_ffff then 4 else 8,
                          if n <= 0xffff then 0xfd else if n <= 0xffff_ffff then 0xfe else 0xff;
      BehindTag(tag, ToLE(n, w), rest);
      ReadLERoundTrip(n, w, rest);
    } else {
      assert (VarInt(n) + rest)[1..] == rest;
    }
  }

  lemma BehindTag(tag: byte, s: seq<byte>, rest: seq<byte>)
    ensures ([tag] + s + rest)[0] == tag && ([tag] + s + rest)[1..] == s + rest
  {}
}
