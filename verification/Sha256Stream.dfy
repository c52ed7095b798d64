/** The streaming hasher of tools/model-reference/sha256.h. */
module Sha256Stream {
  import opened Sha256Spec

  const TWO_64: nat := 0x1_0000_0000_0000_0000

  // ---------------------------------------------------------------------------------------
  // `transform`
  // ---------------------------------------------------------------------------------------

  lemma WordsReverse(a: Word, b: Word, c: Word, d: Word)
    ensures a + b + c + d == d + c + b + a
  {
  }

  /** The hasher adds the schedule's terms in the other order. */
  lemma SumReverses(a: Word, b: Word, c: Word, d: Word)
    ensures Sum4(a, b, c, d) == Sum4(d, c, b, a)
  {
    WordsReverse(a, b, c, d);
  }

  lemma ScheduleStep(block: Block, t: nat)
    requires 16 <= t < 64
    ensures Sum4(W(block, t - 16), SmallSigma0(W(block, t - 15)), W(block, t - 7), SmallSigma1(W(block, t - 2)))
              == W(block, t)
  {
    hide Sum4, SmallSigma0, SmallSigma1, WordAt;
    SumReverses(W(block, t - 16), SmallSigma0(W(block, t - 15)), W(block, t - 7), SmallSigma1(W(block, t - 2)));
  }

  lemma FirstWords(block: Block, t: nat)
    requires t < 16
    ensures W(block, t) == BigEndian(block[t * 4], block[t * 4 + 1], block[t * 4 + 2], block[t * 4 + 3])
  {
    hide BigEndian;
  }

  method Schedule(chunk: Block) returns (w: array<Word>)
    ensures fresh(w) && w.Length == 64 && forall t | 0 <= t < 64 :: w[t] == W(chunk, t)
  {
    hide BigEndian, Sum4, Xor, Rotr, Shr, W;
    w := new Word[64](_ => 0);
    for i := 0 to 16
      invariant forall t | 0 <= t < i :: w[t] == W(chunk, t)
    {
      FirstWords(chunk, i);
      w[i] := BigEndian(chunk[i * 4], chunk[i * 4 + 1], chunk[i * 4 + 2], chunk[i * 4 + 3]);
    }
    for i := 16 to 64
      invariant forall t | 0 <= t < i :: w[t] == W(chunk, t)
    {
      var s0 := Xor(Xor(Rotr(w[i - 15], 7), Rotr(w[i - 15], 18)), Shr(w[i - 15], 3));
      var s1 := Xor(Xor(Rotr(w[i - 2], 17), Rotr(w[i - 2], 19)), Shr(w[i - 2], 10));
      ScheduleStep(chunk, i);
      w[i] := Sum4(w[i - 16], s0, w[i - 7], s1);
    }
  }

  method MixIn(start: Hash, chunk: Block, w: array<Word>) returns (r: Registers)
    requires w.Length == 64 && forall t | 0 <= t < 64 :: w[t] == W(chunk, t)
    ensures r == Rounds(Loaded(start), chunk, 64)
  {
    hide W, Plus, Xor, And, Not, Rotr;
    var a, b, c, d := start[0], start[1], start[2], start[3];
    var e, f, g, h := start[4], start[5], start[6], start[7];
    for i := 0 to 64
      invariant Registers(a, b, c, d, e, f, g, h) == Rounds(Loaded(start), chunk, i)
    {
      var s1 := Xor(Xor(Rotr(e, 6), Rotr(e, 11)), Rotr(e, 25));
      var ch := Xor(And(e, f), And(Not(e), g));
      var temp1 := Plus(Plus(Plus(Plus(h, s1), ch), K[i]), w[i]);
      var s0 := Xor(Xor(Rotr(a, 2), Rotr(a, 13)), Rotr(a, 22));
      var maj := Xor(Xor(And(a, b), And(a, c)), And(b, c));
      var temp2 := Plus(s0, maj);
      h := g;
      g := f;
      f := e;
      e := Plus(d, temp1);
      d := c;
      c := b;
      b := a;
      a := Plus(temp1, temp2);
    }
    r := Registers(a, b, c, d, e, f, g, h);
  }

  method Transform(state: array<Word>, chunk: Block)
    requires state.Length == 8
    modifies state
    ensures state[..] == Compress(old(state[..]), chunk)
  {
    hide Added, Rounds, Loaded, W;
    var w := Schedule(chunk);
    var r := MixIn(state[..], chunk, w);
    AddInto(state, r);
  }

  method AddInto(state: array<Word>, r: Registers)
    requires state.Length == 8
    modifies state
    ensures state[..] == Added(old(state[..]), r)
  {
    hide Plus;
    ghost var h: Hash := state[..];
    AddFour(state, 0, r.a, r.b, r.c, r.d);
    AddFour(state, 4, r.e, r.f, r.g, r.h);
    assert state[0] == Plus(h[0], r.a) && state[1] == Plus(h[1], r.b);
    assert state[2] == Plus(h[2], r.c) && state[3] == Plus(h[3], r.d);
    assert state[4] == Plus(h[4], r.e) && state[5] == Plus(h[5], r.f);
    assert state[6] == Plus(h[6], r.g) && state[7] == Plus(h[7], r.h);
  }

  method AddFour(state: array<Word>, at: nat, p: Word, q: Word, r: Word, s: Word)
    requires state.Length == 8 && at <= 4
    modifies state
    ensures state[at] == Plus(old(state[at]), p) && state[at + 1] == Plus(old(state[at + 1]), q)
    ensures state[at + 2] == Plus(old(state[at + 2]), r) && state[at + 3] == Plus(old(state[at + 3]), s)
    ensures forall i | 0 <= i < 8 && !(at <= i < at + 4) :: state[i] == old(state[i])
  {
    hide Plus;
    state[at] := Plus(state[at], p);
    state[at + 1] := Plus(state[at + 1], q);
    state[at + 2] := Plus(state[at + 2], r);
    state[at + 3] := Plus(state[at + 3], s);
  }

  // ---------------------------------------------------------------------------------------
  // `Sha256`
  // ---------------------------------------------------------------------------------------

  /** The hasher after absorbing `message`: the state is the fold over its full blocks and the
      buffer starts with what is left of it. */
  ghost predicate Holds(message: seq<Byte>, state: seq<Word>, buffer: seq<Byte>, bufferLen: nat, bitLen: nat) {
    && |buffer| == 64 && bufferLen == |message| % 64
    && state == FoldBlocks(H0, message[..|message| - bufferLen])
    && buffer[..bufferLen] == message[|message| - bufferLen..]
    && bitLen == 8 * (|message| - bufferLen) % TWO_64
  }

  class Hasher {
    const state: array<Word>
    const buffer: array<Byte>
    var bufferLen: nat
    var bitLen: nat
    ghost var message: seq<Byte>

    ghost predicate Valid()
      reads this, state, buffer
    {
      && state.Length == 8 && buffer.Length == 64
      && Holds(message, state[..], buffer[..], bufferLen, bitLen)
    }

    constructor ()
      ensures Valid() && message == [] && fresh(state) && fresh(buffer)
    {
      state := new Word[8](i requires 0 <= i < 8 => H0[i]);
      buffer := new Byte[64](_ => 0);
      bufferLen := 0;
      bitLen := 0;
      message := [];
      new;
      assert state[..] == H0;
    }

    method Update(data: seq<Byte>)
      requires Valid()
      modifies this, state, buffer
      ensures Valid() && message == old(message) + data
    {
      for i := 0 to |data|
        invariant Valid() && message == old(message) + data[..i]
      {
        UpdateByte(data[i]);
        assert data[..i + 1] == data[..i] + [data[i]];
      }
      assert data[..|data|] == data;
    }

    /** One pass of the loop of `update`. */
    method UpdateByte(b: Byte)
      requires Valid()
      modifies this, state, buffer
      ensures Valid() && message == old(message) + [b]
    {
      hide Compress, FoldBlocks;
      ghost var before := buffer[..];
      buffer[bufferLen] := b;
      bufferLen := bufferLen + 1;
      message := message + [b];
      assert buffer[..bufferLen] == before[..bufferLen - 1] + [b];
      if bufferLen == 64 {
        BlockFilled(old(message), b, old(state[..]), before, old(bitLen), buffer[..]);
        Transform(state, buffer[..]);
        bitLen := (bitLen + 512) % TWO_64;
        bufferLen := 0;
      } else {
        ByteBuffered(old(message), b, state[..], before, bufferLen - 1, bitLen, buffer[..]);
      }
    }

    /** Pads, finishes and prints. It uses the hasher up: the buffer and the length no longer
        belong to the message. */
    method Hexdigest() returns (out: string)
      requires Valid() && |message| < 0x2000_0000_0000_0000
      modifies this, state, buffer
      ensures message == old(message)
      ensures state[..] == Sha256(message) && out == Hex(Digest(Sha256(message)))
    {
      hide Compress, FoldBlocks, Sha256, Digest, Hex, Length64, ZeroBytes;
      ghost var tail := buffer[..bufferLen];
      if bufferLen < 56 {
        FillFrom(buffer, bufferLen, 56);
        assert buffer[..56] == Marked(tail, 56);
      } else {
        FillFrom(buffer, bufferLen, 64);
        assert buffer[..] == Marked(tail, 64);
        Transform(state, buffer[..]);
        Clear(buffer);
      }
      bitLen := (bitLen + bufferLen * 8) % TWO_64;
      BitLength(|message|, bufferLen);
      PutLength(buffer, bitLen);
      ghost var last := buffer[..];
      Transform(state, buffer[..]);
      FinishIsPadding(message, bufferLen, last);
      out := Print(state);
    }
  }

  /** The rest of the message, the marker bit and zeros up to `n`. */
  ghost function Marked(tail: seq<Byte>, n: nat): seq<Byte>
    requires |tail| < n
  {
    tail + [0x80] + ZeroBytes(n - |tail| - 1)
  }

  method FillFrom(buffer: array<Byte>, len: nat, n: nat)
    requires len < n <= buffer.Length == 64
    modifies buffer
    ensures buffer[..n] == Marked(old(buffer[..len]), n)
  {
    var i := len;
    buffer[i] := 0x80;
    i := i + 1;
    while i < n
      invariant len < i <= n
      invariant buffer[..len] == old(buffer[..len]) && buffer[len] == 0x80
      invariant forall j | len < j < i :: buffer[j] == 0
    {
      buffer[i] := 0;
      i := i + 1;
    }
  }

  method Clear(buffer: array<Byte>)
    requires buffer.Length == 64
    modifies buffer
    ensures buffer[..56] == ZeroBytes(56)
  {
    for j := 0 to 56
      invariant forall i | 0 <= i < j :: buffer[i] == 0
    {
      buffer[j] := 0;
    }
  }

  method PutLength(buffer: array<Byte>, bits: nat)
    requires buffer.Length == 64
    modifies buffer
    ensures buffer[..] == old(buffer[..56]) + Length64(bits)
  {
    hide LengthByte;
    for j := 0 to 8
      invariant buffer[..56] == old(buffer[..56])
      invariant forall i | 0 <= i < j :: buffer[63 - i] == LengthByte(bits, i)
    {
      buffer[63 - j] := LengthByte(bits, j);
    }
    forall i | 56 <= i < 64 ensures buffer[i] == Length64(bits)[i - 56] {
      assert buffer[63 - (63 - i)] == LengthByte(bits, 63 - i);
    }
  }

  method Print(state: array<Word>) returns (out: string)
    requires state.Length == 8
    ensures out == Hex(Digest(state[..]))
  {
    hide HashByte, HexByte;
    var hash := new Byte[32](_ => 0);
    ghost var h: Hash := state[..];
    for j := 0 to 4
      invariant forall i | 0 <= i < 32 && i % 4 < j :: hash[i] == HashByte(h, i)
    {
      for k := 0 to 8
        invariant forall i | 0 <= i < 32 && (i % 4 < j || (i % 4 == j && i / 4 < k)) :: hash[i] == HashByte(h, i)
      {
        hash[k * 4 + j] := HashByte(state[..], k * 4 + j);
      }
    }
    assert hash[..] == Digest(h);
    out := "";
    for i := 0 to 32
      invariant out == Hex(hash[..i]) && hash[..] == Digest(h)
    {
      assert hash[..i + 1][..i] == hash[..i];
      out := out + HexByte(hash[i]);
    }
    assert hash[..32] == hash[..];
  }

  lemma BitLength(length: nat, len: nat)
    requires length < 0x2000_0000_0000_0000 && len == length % 64
    ensures (8 * (length - len) % TWO_64 + len * 8) % TWO_64 == 8 * length
  {
  }

  /** One last block or two, what the hasher finishes with is the padding of section 5.1.1. */
  lemma FinishIsPadding(m: seq<Byte>, len: nat, last: seq<Byte>)
    requires len == |m| % 64 && |last| == 64
    requires last[56..] == Length64(8 * |m|)
    requires len < 56 ==> last[..56] == Marked(m[|m| - len..], 56)
    requires 56 <= len ==> last[..56] == ZeroBytes(56)
    ensures var full := FoldBlocks(H0, m[..|m| - len]);
            Sha256(m) ==
            if len < 56 then Compress(full, last)
            else Compress(Compress(full, Marked(m[|m| - len..], 64)), last)
  {
    hide Compress, Length64, Padded, FoldBlocks, ZeroBytes;
    var front, tail := m[..|m| - len], m[|m| - len..];
    if len < 56 {
      PaddingInOneBlock(m, len, last);
      Appended(front, last);
    } else {
      var first := Marked(tail, 64);
      PaddingInTwoBlocks(m, len, last);
      Appended(front, first);
      Appended(front + first, last);
    }
  }

  lemma PaddingInOneBlock(m: seq<Byte>, len: nat, last: seq<Byte>)
    requires len == |m| % 64 && |last| == 64 && len < 56
    requires last[56..] == Length64(8 * |m|) && last[..56] == Marked(m[|m| - len..], 56)
    ensures Padded(m) == m[..|m| - len] + last
  {
    hide Length64;
    assert m == m[..|m| - len] + m[|m| - len..];
    assert PadZeros(|m|) == 55 - len;
    assert last == last[..56] + last[56..];
  }

  lemma PaddingInTwoBlocks(m: seq<Byte>, len: nat, last: seq<Byte>)
    requires len == |m| % 64 && |last| == 64 && 56 <= len
    requires last[56..] == Length64(8 * |m|) && last[..56] == ZeroBytes(56)
    ensures Padded(m) == m[..|m| - len] + Marked(m[|m| - len..], 64) + last
  {
    hide Length64;
    assert m == m[..|m| - len] + m[|m| - len..];
    assert PadZeros(|m|) == (63 - len) + 56;
    assert ZeroBytes(PadZeros(|m|)) == ZeroBytes(63 - len) + ZeroBytes(56);
    assert last == last[..56] + last[56..];
  }

  lemma Appended(m: seq<Byte>, block: seq<Byte>)
    requires |m| % 64 == 0 && |block| == 64
    ensures FoldBlocks(H0, m + block) == Compress(FoldBlocks(H0, m), block)
  {
    assert (m + block)[..|m|] == m && (m + block)[|m|..] == block;
  }

  function Joined(chunks: seq<seq<Byte>>): seq<Byte> {
    if chunks == [] then [] else Joined(chunks[..|chunks| - 1]) + chunks[|chunks| - 1]
  }

  /** However a message is cut into updates, the digest is that of the whole message. */
  method HashInChunks(chunks: seq<seq<Byte>>) returns (out: string)
    requires |Joined(chunks)| < 0x2000_0000_0000_0000
    ensures out == Hex(Digest(Sha256(Joined(chunks))))
  {
    hide Holds, Sha256, Hex, Digest;
    var hasher := new Hasher();
    for i := 0 to |chunks|
      invariant hasher.Valid() && hasher.message == Joined(chunks[..i])
      invariant fresh(hasher) && fresh(hasher.state) && fresh(hasher.buffer)
    {
      assert chunks[..i + 1][..i] == chunks[..i];
      hasher.Update(chunks[i]);
    }
    assert chunks[..|chunks|] == chunks;
    out := hasher.Hexdigest();
  }

  /** `sha256_hex`. */
  method Sha256Hex(data: seq<Byte>) returns (out: string)
    requires |data| < 0x2000_0000_0000_0000
    ensures out == Hex(Digest(Sha256(data)))
  {
    hide Holds, Sha256, Hex, Digest;
    var hasher := new Hasher();
    hasher.Update(data);
    assert [] + data == data;
    out := hasher.Hexdigest();
  }

  lemma TailGrows(length: nat)
    ensures if length % 64 < 63 then (length + 1) % 64 == length % 64 + 1 else (length + 1) % 64 == 0
    ensures (length - length % 64) % 64 == 0
  {
  }

  lemma ByteBuffered(m: seq<Byte>, b: Byte, state: seq<Word>, before: seq<Byte>, len: nat, bitLen: nat,
                     after: seq<Byte>)
    requires Holds(m, state, before, len, bitLen) && len < 63
    requires |after| == 64 && after[..len + 1] == before[..len] + [b]
    ensures Holds(m + [b], state, after, len + 1, bitLen)
  {
    hide FoldBlocks;
    var n, at := m + [b], |m| - len;
    TailGrows(|m|);
    assert |n| - (len + 1) == at;
    assert n[..at] == m[..at];
    assert n[at..] == m[at..] + [b];
  }

  lemma BitsAdd(bytes: nat)
    ensures (8 * bytes % TWO_64 + 512) % TWO_64 == 8 * (bytes + 64) % TWO_64
  {
  }

  lemma BlockFilled(m: seq<Byte>, b: Byte, state: seq<Word>, before: seq<Byte>, bitLen: nat, after: seq<Byte>)
    requires Holds(m, state, before, 63, bitLen) && |state| == 8
    requires |after| == 64 && after == before[..63] + [b]
    ensures Holds(m + [b], Compress(state, after), after, 0, (bitLen + 512) % TWO_64)
  {
    hide Compress, FoldBlocks;
    var at := |m| - 63;
    var n, front := m + [b], m[..at];
    TailGrows(|m|);
    assert m == front + m[at..];
    assert n == front + after;
    Appended(front, after);
    BitsAdd(at);
    assert n[..|n| - 0] == n && n[|n| - 0..] == [] && after[..0] == [];
  }
}
