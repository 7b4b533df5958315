/** Little-endian two's-complement encoding of fixed-width integers into bytes,
    the layout `std::memcpy` produces for `int`, `long` and `double`-sized words
    on the little-endian machines the framework targets. */
module Bytes {

  newtype byte = x: int | 0 <= x < 256

  function Pow256(k: nat): (r: nat)
    ensures r >= 1
  {
    if k == 0 then 1 else 256 * Pow256(k - 1)
  }

  /** The unsigned value `u` as `k` little-endian bytes; bits above `8k` are dropped. */
  function EncodeUnsigned(u: nat, k: nat): (r: seq<byte>)
    ensures |r| == k
  {
    if k == 0 then [] else [(u % 256) as byte] + EncodeUnsigned(u / 256, k - 1)
  }

  function DecodeUnsigned(b: seq<byte>): (r: nat)
    ensures r < Pow256(|b|)
  {
    if |b| == 0 then 0 else b[0] as nat + 256 * DecodeUnsigned(b[1..])
  }

  lemma {:induction false} UnsignedRoundTrip(u: nat, k: nat)
    requires u < Pow256(k)
    ensures DecodeUnsigned(EncodeUnsigned(u, k)) == u
  {
    if k > 0 {
      var e := EncodeUnsigned(u, k);
      assert e[1..] == EncodeUnsigned(u / 256, k - 1);
      UnsignedRoundTrip(u / 256, k - 1);
    }
  }

  /** Whether `x` fits a signed integer of `k` bytes. */
  predicate InSigned(x: int, k: nat) {
    k > 0 && -(Pow256(k) / 2) <= x < Pow256(k) / 2
  }

  /** A signed integer as `k` bytes: the two's-complement bit pattern, i.e. the
      value modulo 256^k (out-of-range values wrap, as a narrowing cast would). */
  function EncodeSigned(x: int, k: nat): (r: seq<byte>)
    ensures |r| == k
  {
    EncodeUnsigned(x % Pow256(k), k)
  }

  function DecodeSigned(b: seq<byte>): (r: int)
    requires |b| > 0
    ensures InSigned(r, |b|)
  {
    var u := DecodeUnsigned(b);
    if u < Pow256(|b|) / 2 then u else u - Pow256(|b|)
  }

  lemma SignedRoundTrip(x: int, k: nat)
    requires InSigned(x, k)
    ensures DecodeSigned(EncodeSigned(x, k)) == x
  {
    var p := Pow256(k);
    var h := p / 2;
    assert p == 256 * Pow256(k - 1);
    assert p == 2 * h;
    var u := x % p;
    if x >= 0 {
      ModOfSmall(x, p);
    } else {
      ModOfNegative(x, p);
    }
    UnsignedRoundTrip(u, k);
    assert DecodeUnsigned(EncodeSigned(x, k)) == u;
  }

  lemma ModOfSmall(x: int, p: int)
    requires 0 <= x < p
    ensures x % p == x
  {
  }

  lemma ModOfNegative(x: int, p: int)
    requires 0 < p && -p <= x < 0
    ensures x % p == x + p
  {
  }

  /** Every byte pattern decodes to a value that encodes back to it. */
  lemma {:induction false} UnsignedEncodeDecode(b: seq<byte>)
    ensures EncodeUnsigned(DecodeUnsigned(b), |b|) == b
  {
    if |b| > 0 {
      UnsignedEncodeDecode(b[1..]);
      var u := DecodeUnsigned(b);
      assert u % 256 == b[0] as nat;
      assert u / 256 == DecodeUnsigned(b[1..]);
    }
  }

  /** `int` is four bytes (`sizeof(int)` in the framing code). */
  const IntBytes: nat := 4
  /** Real (double) and `long` words are eight bytes. */
  const WordBytes: nat := 8

  function EncodeInt32(x: int): (r: seq<byte>)
    ensures |r| == IntBytes
  {
    EncodeSigned(x, IntBytes)
  }

  function DecodeInt32(b: seq<byte>): (r: int)
    requires |b| == IntBytes
    ensures InSigned(r, IntBytes)
  {
    DecodeSigned(b)
  }

  predicate IsInt32(x: int) {
    InSigned(x, IntBytes)
  }

  lemma Int32RoundTrip(x: int)
    requires IsInt32(x)
    ensures DecodeInt32(EncodeInt32(x)) == x
  {
    SignedRoundTrip(x, IntBytes);
  }
}
