/** SHA-256 as FIPS 180-4 defines it: sections 3.2, 4.1.2, 5.1.1, 5.2.1, 5.3.3 and 6.2.2. */
module Sha256Spec {

  type Byte = bv8
  type Word = bv32

  type Hash = s: seq<Word> | |s| == 8 witness [0, 0, 0, 0, 0, 0, 0, 0]
  type Block = s: seq<Byte> | |s| == 64 witness seq(64, _ => 0)

  // Section 5.3.3
  const H0: Hash := [0x6a09e667, 0xbb67ae85, 0x3c6ef372, 0xa54ff53a, 0x510e527f, 0x9b05688c, 0x1f83d9ab, 0x5be0cd19]

  // Section 4.2.2
  const K: seq<Word> :=
    [0x428a2f98, 0x71374491, 0xb5c0fbcf, 0xe9b5dba5, 0x3956c25b, 0x59f111f1, 0x923f82a4, 0xab1c5ed5] +
    [0xd807aa98, 0x12835b01, 0x243185be, 0x550c7dc3, 0x72be5d74, 0x80deb1fe, 0x9bdc06a7, 0xc19bf174] +
    [0xe49b69c1, 0xefbe4786, 0x0fc19dc6, 0x240ca1cc, 0x2de92c6f, 0x4a7484aa, 0x5cb0a9dc, 0x76f988da] +
    [0x983e5152, 0xa831c66d, 0xb00327c8, 0xbf597fc7, 0xc6e00bf3, 0xd5a79147, 0x06ca6351, 0x14292967] +
    [0x27b70a85, 0x2e1b2138, 0x4d2c6dfc, 0x53380d13, 0x650a7354, 0x766a0abb, 0x81c2c92e, 0x92722c85] +
    [0xa2bfe8a1, 0xa81a664b, 0xc24b8b70, 0xc76c51a3, 0xd192e819, 0xd6990624, 0xf40e3585, 0x106aa070] +
    [0x19a4c116, 0x1e376c08, 0x2748774c, 0x34b0bcb5, 0x391c0cb3, 0x4ed8aa4a, 0x5b9cca4f, 0x682e6ff3] +
    [0x748f82ee, 0x78a5636f, 0x84c87814, 0x8cc70208, 0x90befffa, 0xa4506ceb, 0xbef9a3f7, 0xc67178f2]

  // Section 2.2.2: the operations on words.
  function Plus(x: Word, y: Word): Word { x + y }

  function Sum4(w: Word, x: Word, y: Word, z: Word): Word { w + x + y + z }

  function Xor(x: Word, y: Word): Word { x ^ y }

  function And(x: Word, y: Word): Word { x & y }

  function Not(x: Word): Word { !x }

  function Shr(x: Word, n: Word): Word
    requires n <= 32
  {
    x >> n
  }

  // Section 3.2: the rotation, as two shifts.
  function Rotr(x: Word, n: Word): Word
    requires n < 32
  {
    (x >> n) | (x << (32 - n))
  }

  // Section 4.1.2
  function Ch(x: Word, y: Word, z: Word): Word { Xor(And(x, y), And(Not(x), z)) }

  function Maj(x: Word, y: Word, z: Word): Word { Xor(Xor(And(x, y), And(x, z)), And(y, z)) }

  function BigSigma0(x: Word): Word { Xor(Xor(Rotr(x, 2), Rotr(x, 13)), Rotr(x, 22)) }

  function BigSigma1(x: Word): Word { Xor(Xor(Rotr(x, 6), Rotr(x, 11)), Rotr(x, 25)) }

  function SmallSigma0(x: Word): Word { Xor(Xor(Rotr(x, 7), Rotr(x, 18)), Shr(x, 3)) }

  function SmallSigma1(x: Word): Word { Xor(Xor(Rotr(x, 17), Rotr(x, 19)), Shr(x, 10)) }

  // Section 5.2.1, and section 3.1 for the order of the bytes.
  function BigEndian(b0: Byte, b1: Byte, b2: Byte, b3: Byte): Word {
    ((b0 as Word) << 24) | ((b1 as Word) << 16) | ((b2 as Word) << 8) | (b3 as Word)
  }

  function WordAt(block: Block, t: nat): Word
    requires t < 16
  {
    BigEndian(block[4 * t], block[4 * t + 1], block[4 * t + 2], block[4 * t + 3])
  }

  // Section 6.2.2, step 1
  function W(block: Block, t: nat): Word
    requires t < 64
  {
    if t < 16 then WordAt(block, t)
    else Sum4(SmallSigma1(W(block, t - 2)), W(block, t - 7), SmallSigma0(W(block, t - 15)), W(block, t - 16))
  }

  datatype Registers = Registers(a: Word, b: Word, c: Word, d: Word, e: Word, f: Word, g: Word, h: Word)

  // Section 6.2.2, step 3
  function Round(r: Registers, k: Word, w: Word): Registers {
    var t1 := Plus(Plus(Plus(Plus(r.h, BigSigma1(r.e)), Ch(r.e, r.f, r.g)), k), w);
    var t2 := Plus(BigSigma0(r.a), Maj(r.a, r.b, r.c));
    Registers(Plus(t1, t2), r.a, r.b, r.c, Plus(r.d, t1), r.e, r.f, r.g)
  }

  function Rounds(r: Registers, block: Block, t: nat): Registers
    requires t <= 64
  {
    if t == 0 then r else Round(Rounds(r, block, t - 1), K[t - 1], W(block, t - 1))
  }

  // Section 6.2.2, steps 2 and 4
  function Loaded(h: Hash): Registers {
    Registers(h[0], h[1], h[2], h[3], h[4], h[5], h[6], h[7])
  }

  function Added(h: Hash, r: Registers): Hash {
    [Plus(h[0], r.a), Plus(h[1], r.b), Plus(h[2], r.c), Plus(h[3], r.d),
     Plus(h[4], r.e), Plus(h[5], r.f), Plus(h[6], r.g), Plus(h[7], r.h)]
  }

  function Compress(h: Hash, block: Block): Hash {
    Added(h, Rounds(Loaded(h), block, 64))
  }

  function FoldBlocks(h: Hash, m: seq<Byte>): Hash
    requires |m| % 64 == 0
  {
    if m == [] then h else Compress(FoldBlocks(h, m[..|m| - 64]), m[|m| - 64..])
  }

  // Section 5.1.1
  function ZeroBytes(n: nat): (z: seq<Byte>)
    ensures |z| == n
  {
    seq(n, _ => 0)
  }

  predicate LeavesEight(length: nat, zeros: nat) {
    (length + 1 + zeros) % 64 == 56
  }

  /** The smallest number of zero bytes that leaves eight to the end of a block. */
  function PadZeros(length: nat): (k: nat)
    ensures LeavesEight(length, k) && forall j: nat | j < k :: !LeavesEight(length, j)
  {
    (55 - length) % 64
  }

  function Power256(j: nat): nat {
    if j == 0 then 1 else 256 * Power256(j - 1)
  }

  function LengthByte(bits: nat, j: nat): Byte {
    PowerPositive(j);
    (bits / Power256(j) % 256) as Byte
  }

  lemma PowerPositive(j: nat)
    ensures 0 < Power256(j)
  {
  }

  /** Eight bytes, the most significant first. */
  function Length64(bits: nat): (r: seq<Byte>)
    ensures |r| == 8
  {
    seq(8, i requires 0 <= i < 8 => LengthByte(bits, 7 - i))
  }

  function Padded(m: seq<Byte>): (p: seq<Byte>)
    ensures |p| % 64 == 0
  {
    m + [0x80] + ZeroBytes(PadZeros(|m|)) + Length64(8 * |m|)
  }

  function Sha256(m: seq<Byte>): Hash {
    FoldBlocks(H0, Padded(m))
  }

  // The digest as text: each word big-endian, each byte as two lower-case hexadecimal digits.
  function HashByte(h: Hash, i: nat): Byte
    requires i < 32
  {
    ((h[i / 4] >> (24 - 8 * (i % 4))) & 0xff) as Byte
  }

  function Digest(h: Hash): (d: seq<Byte>)
    ensures |d| == 32
  {
    seq(32, i requires 0 <= i < 32 => HashByte(h, i))
  }

  const HEX_DIGITS := "0123456789abcdef"

  function HexByte(b: Byte): (s: string)
    ensures |s| == 2
  {
    [HEX_DIGITS[b as int / 16], HEX_DIGITS[b as int % 16]]
  }

  function Hex(d: seq<Byte>): string {
    if d == [] then "" else Hex(d[..|d| - 1]) + HexByte(d[|d| - 1])
  }
}
