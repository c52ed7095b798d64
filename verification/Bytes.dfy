/** Bytes and fixed-width unsigned integers in either byte order. */
module Bytes {

  type Byte = n: nat | n < 256

  const U16_END := 0x1_0000
  const U32_END := 0x1_0000_0000

  datatype Order = Little | Big

  function Pair(order: Order, x: Byte, y: Byte): nat {
    if order == Big then x * 256 + y else y * 256 + x
  }

  function GetU16(order: Order, b: seq<Byte>, off: nat): (n: nat)
    requires off + 2 <= |b|
    ensures n < U16_END
  {
    Pair(order, b[off], b[off + 1])
  }

  function PutU16(order: Order, n: nat): (b: seq<Byte>)
    requires n < U16_END
    ensures |b| == 2
  {
    if order == Big then [n / 256, n % 256] else [n % 256, n / 256]
  }

  function GetU32(order: Order, b: seq<Byte>, off: nat): (n: nat)
    requires off + 4 <= |b|
    ensures n < U32_END
  {
    var first, second := GetU16(order, b, off), GetU16(order, b, off + 2);
    if order == Big then first * U16_END + second else second * U16_END + first
  }

  function PutU32(order: Order, n: nat): (b: seq<Byte>)
    requires n < U32_END
    ensures |b| == 4
  {
    if order == Big then PutU16(order, n / U16_END) + PutU16(order, n % U16_END)
    else PutU16(order, n % U16_END) + PutU16(order, n / U16_END)
  }

  /** What was put is got back, wherever it lies. */
  lemma U16RoundTrip(order: Order, before: seq<Byte>, n: nat, after: seq<Byte>)
    requires n < U16_END
    ensures GetU16(order, before + PutU16(order, n) + after, |before|) == n
  {
    var b := before + PutU16(order, n) + after;
    assert b[|before|] == PutU16(order, n)[0] && b[|before| + 1] == PutU16(order, n)[1];
  }

  lemma U32RoundTrip(order: Order, before: seq<Byte>, n: nat, after: seq<Byte>)
    requires n < U32_END
    ensures GetU32(order, before + PutU32(order, n) + after, |before|) == n
  {
    var p := PutU32(order, n);
    var b := before + p + after;
    assert b == before + p[..2] + (p[2..] + after);
    assert b == (before + p[..2]) + p[2..] + after;
    if order == Big {
      assert p[..2] == PutU16(order, n / U16_END) && p[2..] == PutU16(order, n % U16_END);
      U16RoundTrip(order, before, n / U16_END, p[2..] + after);
      U16RoundTrip(order, before + p[..2], n % U16_END, after);
    } else {
      assert p[..2] == PutU16(order, n % U16_END) && p[2..] == PutU16(order, n / U16_END);
      U16RoundTrip(order, before, n % U16_END, p[2..] + after);
      U16RoundTrip(order, before + p[..2], n / U16_END, after);
    }
  }

  function Zeros(n: nat): seq<Byte> {
    seq(n, _ => 0)
  }
}
