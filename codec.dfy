/**
 * The frame codec: fixed-width unsigned big-endian integers, as both ends of
 * the link use them (Python's `int.to_bytes(n, w, 'big')` and
 * `int.from_bytes(bs, 'big')`).
 */
module Codec {
  import opened Wrappers

  /** One octet on the wire. */
  type uint8 = b: int | 0 <= b < 256

  /** `to_bytes` refuses a value that does not fit (Python's OverflowError). */
  datatype CodecError = OverflowError

  /** 256 to the power `w`: the number of values `w` bytes can hold. */
  function Pow256(w: nat): (p: nat)
    ensures p >= 1
  {
    if w == 0 then 1 else 256 * Pow256(w - 1)
  }

  /**
   * The unsigned big-endian value of `bs`. The empty sequence decodes to 0,
   * as `int.from_bytes(b'', 'big')` does; no sign is ever extended.
   */
  function FromBytes(bs: seq<uint8>): (n: nat)
    ensures n < Pow256(|bs|)
  {
    if bs == [] then 0
    else
      var high := FromBytes(bs[..|bs| - 1]);
      ScaleBound(high, bs[|bs| - 1], Pow256(|bs| - 1));
      high * 256 + bs[|bs| - 1]
  }

  /** More bytes hold at least as many values. */
  lemma {:induction false} Pow256Monotone(a: nat, b: nat)
    requires a <= b
    ensures Pow256(a) <= Pow256(b)
    decreases b
  {
    if a < b {
      Pow256Monotone(a, b - 1);
    }
  }

  lemma ScaleBound(x: nat, b: uint8, p: nat)
    requires x < p
    ensures x * 256 + b < 256 * p
  {
    assert x * 256 <= (p - 1) * 256;
  }

  /** The `w` low-order base-256 digits of `n`, most significant first. */
  function Digits(n: nat, w: nat): (bs: seq<uint8>)
    ensures |bs| == w
  {
    if w == 0 then [] else Digits(n / 256, w - 1) + [n % 256]
  }

  /**
   * `n.to_bytes(width, 'big')`: exactly `width` bytes when `n` fits, and
   * an overflow error otherwise (a negative `n` included).
   */
  function ToBytes(n: int, width: nat): (r: Result<seq<uint8>, CodecError>)
    ensures r.Success? <==> 0 <= n < Pow256(width)
    ensures r.Success? ==> |r.value| == width && FromBytes(r.value) == n
  {
    if 0 <= n < Pow256(width) then
      DigitsDecode(n, width);
      Success(Digits(n, width))
    else
      Failure(OverflowError)
  }

  /** Decoding the digits of a value that fits gives the value back. */
  lemma {:induction false} DigitsDecode(n: nat, w: nat)
    requires n < Pow256(w)
    ensures FromBytes(Digits(n, w)) == n
  {
    if w > 0 {
      assert n / 256 < Pow256(w - 1);
      DigitsDecode(n / 256, w - 1);
      var d := Digits(n, w);
      assert d[..|d| - 1] == Digits(n / 256, w - 1);
    }
  }

  /** Re-encoding a decoded value at the same width gives the bytes back. */
  lemma {:induction false} DecodeEncode(bs: seq<uint8>)
    ensures ToBytes(FromBytes(bs), |bs|) == Success(bs)
  {
    DecodeDigits(bs);
  }

  lemma {:induction false} DecodeDigits(bs: seq<uint8>)
    ensures Digits(FromBytes(bs), |bs|) == bs
  {
    if bs != [] {
      var high := bs[..|bs| - 1];
      var v := FromBytes(bs);
      assert v == FromBytes(high) * 256 + bs[|bs| - 1];
      assert v / 256 == FromBytes(high);
      assert v % 256 == bs[|bs| - 1];
      DecodeDigits(high);
      assert bs == high + [bs[|bs| - 1]];
    }
  }

  /** The three-byte image-size field holds 0 through 16,777,215 and nothing else. */
  lemma SizeFieldRange(n: int)
    ensures ToBytes(n, 3).Success? <==> 0 <= n < 0x100_0000
  {
    assert Pow256(3) == 0x100_0000;
  }

  /** 12345 travels as 00 30 39. */
  lemma SizeExample()
    ensures ToBytes(12345, 3) == Success([0x00, 0x30, 0x39])
  {
    assert Pow256(3) == 0x100_0000;
    assert Digits(0, 1) == [0x00];
    assert Digits(48, 2) == Digits(0, 1) + [0x30];
    assert Digits(12345, 3) == Digits(48, 2) + [0x39];
    var bs: seq<uint8> := [0x00, 0x30, 0x39];
    assert Digits(12345, 3) == bs;
    assert ToBytes(12345, 3) == Success(Digits(12345, 3));
  }
}
