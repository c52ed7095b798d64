/** The capture formats in bytes and numbers: the magic numbers, the headers the writers put down, and
    exactly which blocks the pcapng reader stops at or refuses. */
module PcapBytes {
  import opened Bytes
  import opened Wrappers
  import opened PcapReader
  import opened PcapWriter

  // ---------------------------------------------------------------------------------------
  // Magic numbers and headers
  // ---------------------------------------------------------------------------------------

  /** The classic magic numbers, in either byte order, of microseconds and of nanoseconds. */
  lemma MagicNumbers(order: Order)
    ensures FlavourOf(PutU32(order, 0xa1b2c3d4)) == Some(Flavour(order, 1000))
    ensures FlavourOf(PutU32(order, 0xa1b23c4d)) == Some(Flavour(order, 1))
  {
    if order == Big {
      assert PutU32(order, 0xa1b2c3d4) == [0xa1, 0xb2, 0xc3, 0xd4];
      assert PutU32(order, 0xa1b23c4d) == [0xa1, 0xb2, 0x3c, 0x4d];
    } else {
      assert PutU32(order, 0xa1b2c3d4) == [0xd4, 0xc3, 0xb2, 0xa1];
      assert PutU32(order, 0xa1b23c4d) == [0x4d, 0x3c, 0xb2, 0xa1];
    }
  }

  /** And no others are. */
  lemma NoOtherMagic(m: seq<Byte>)
    requires FlavourOf(m).Some?
    ensures var order := FlavourOf(m).value.order;
            |m| == 4 && (m == PutU32(order, 0xa1b2c3d4) || m == PutU32(order, 0xa1b23c4d))
  {
    MagicNumbers(Big);
    MagicNumbers(Little);
    assert PutU32(Big, 0xa1b2c3d4) == [0xa1, 0xb2, 0xc3, 0xd4] && PutU32(Big, 0xa1b23c4d) == [0xa1, 0xb2, 0x3c, 0x4d];
    assert PutU32(Little, 0xa1b2c3d4) == [0xd4, 0xc3, 0xb2, 0xa1];
    assert PutU32(Little, 0xa1b23c4d) == [0x4d, 0x3c, 0xb2, 0xa1];
  }

  lemma LittleWords()
    ensures PutU32(Little, 0) == [0, 0, 0, 0] && PutU32(Little, 1) == [1, 0, 0, 0]
    ensures PutU32(Little, 28) == [28, 0, 0, 0] && PutU32(Little, 32) == [32, 0, 0, 0]
    ensures PutU32(Little, 262144) == [0, 0, 4, 0]
  {
  }

  lemma SectionWord()
    ensures PutU32(Little, 0x0a0d0d0a) == [0x0a, 0x0d, 0x0d, 0x0a]
  {
  }

  lemma BigWords()
    ensures PutU32(Big, 0) == [0, 0, 0, 0] && PutU32(Big, 262144) == [0, 4, 0, 0]
  {
  }

  lemma SmallWords(n: nat)
    requires n < 256
    ensures PutU32(Little, n) == [n, 0, 0, 0] && PutU32(Big, n) == [0, 0, 0, n]
    ensures PutU16(Little, n) == [n, 0] && PutU16(Big, n) == [0, n]
  {
  }

  /** The file header, little endian and in microseconds: magic, version 2.4, no zone, no precision,
      262144 bytes at most, link type. */
  lemma LittleHeaderBytes(linktype: nat)
    requires linktype < 256
    ensures PcapHeader(Little, false, linktype) ==
            [0xd4, 0xc3, 0xb2, 0xa1] + [2, 0] + [4, 0] + [0, 0, 0, 0] + [0, 0, 0, 0] + [0, 0, 4, 0] +
            [linktype, 0, 0, 0]
  {
    LittleWords();
    SmallWords(2);
    SmallWords(4);
    SmallWords(linktype);
    hide PutU16, PutU32;
  }

  /** And big endian, in nanoseconds. */
  lemma BigHeaderBytes(linktype: nat)
    requires linktype < 256
    ensures PcapHeader(Big, true, linktype) ==
            [0xa1, 0xb2, 0x3c, 0x4d] + [0, 2] + [0, 4] + [0, 0, 0, 0] + [0, 0, 0, 0] + [0, 4, 0, 0] +
            [0, 0, 0, linktype]
  {
    BigWords();
    SmallWords(2);
    SmallWords(4);
    SmallWords(linktype);
    hide PutU16, PutU32;
  }

  /** The section block: byte order, version 1.0, length unknown. */
  lemma SectionBlockBytes()
    ensures BlockOf(0x0a0d0d0a, SECTION_BODY) ==
            [0x0a, 0x0d, 0x0d, 0x0a] + [28, 0, 0, 0] +
            [0x4d, 0x3c, 0x2b, 0x1a, 1, 0, 0, 0, 0xff, 0xff, 0xff, 0xff, 0xff, 0xff, 0xff, 0xff] + [28, 0, 0, 0]
  {
    hide PutU32;
    LittleWords();
    SectionWord();
    assert Padded(SECTION_BODY) == SECTION_BODY;
  }

  /** The interface block: link type, 262144 bytes at most, the resolution as its one option. */
  lemma InterfaceBlockBytes(linktype: nat, tsresol: Byte)
    requires linktype < 256
    ensures BlockOf(1, InterfaceBody(linktype, tsresol)) ==
            [1, 0, 0, 0] + [32, 0, 0, 0] +
            ([linktype, 0] + [0, 0] + [0, 0, 4, 0] + [9, 0, 1, 0, tsresol, 0, 0, 0] + [0, 0, 0, 0]) + [32, 0, 0, 0]
  {
    hide PutU16, PutU32;
    LittleWords();
    SmallWords(0);
    SmallWords(linktype);
    var body := InterfaceBody(linktype, tsresol);
    assert Padded(body) == body;
  }

  // ---------------------------------------------------------------------------------------
  // What the reader refuses
  // ---------------------------------------------------------------------------------------

  predicate IsSection(b: seq<Byte>) {
    8 <= |b| && b[..4] == [0x0a, 0x0d, 0x0d, 0x0a]
  }

  /** The byte order a section header gives, if it gives one. */
  function SectionOrder(b: seq<Byte>): Option<Order>
    requires 12 <= |b|
  {
    if b[8..12] == [0x4d, 0x3c, 0x2b, 0x1a] then Some(Little)
    else if b[8..12] == [0x1a, 0x2b, 0x3c, 0x4d] then Some(Big) else None
  }

  /** A block of `size` bytes that is all there. */
  predicate IsWhole(order: Order, b: seq<Byte>) {
    8 <= |b| && !IsSection(b) && 12 <= GetU32(order, b, 4) <= |b|
  }

  /** The block is too short for the fields its type has. */
  predicate LacksFields(btype: nat, size: nat, anyInterface: bool) {
    (btype == 1 && size < 14) || (btype == 6 && size < 32) || (btype == 3 && anyInterface && size < 16)
  }

  ghost predicate HasEmptyResolution(order: Order, b: seq<Byte>)
    requires IsWhole(order, b)
  {
    var options := OptionsFrom(order, From(b[8..GetU32(order, b, 4) - 4], 8), 0);
    9 in options && options[9] == []
  }

  /** The pcapng reader stops quietly exactly at a block that is not all there. */
  lemma StopsExactly(order: Order, ifaces: seq<Interface>, b: seq<Byte>)
    ensures NextTurn(order, ifaces, b).Stop? <==>
            || |b| < 8
            || (IsSection(b) && |b| < 12)
            || (8 <= |b| && !IsSection(b) && 12 <= GetU32(order, b, 4) && |b| < GetU32(order, b, 4))
  {
    hide GetU32, OptionsFrom;
  }

  /** It raises exactly on these: a byte order that is none, a length below the least of its kind, a
      block too short for its fields, and an empty resolution. */
  lemma RaisesExactly(order: Order, ifaces: seq<Interface>, b: seq<Byte>)
    ensures var t := NextTurn(order, ifaces, b);
            && (t == Raise(BadByteOrder) <==> IsSection(b) && 12 <= |b| && SectionOrder(b).None?)
            && (t == Raise(BadSectionLength) <==>
                  IsSection(b) && 12 <= |b| && SectionOrder(b).Some? && GetU32(SectionOrder(b).value, b, 4) < 16)
            && (t == Raise(BadBlockLength) <==> 8 <= |b| && !IsSection(b) && GetU32(order, b, 4) < 12)
            && (t == Raise(ShortBlock) <==>
                  IsWhole(order, b) && LacksFields(GetU32(order, b, 0), GetU32(order, b, 4), ifaces != []))
            && (t == Raise(EmptyResolution) <==>
                  && IsWhole(order, b) && GetU32(order, b, 0) == 1 && 14 <= GetU32(order, b, 4)
                  && HasEmptyResolution(order, b))
            && (t.Raise? ==> !t.failure.TooShort? && !t.failure.UnknownMagic? && !t.failure.TruncatedHeader?)
  {
    hide GetU32, OptionsFrom, TicksToNanos, OffsetOf;
  }

  /** And every other block is passed by its own length. */
  lemma PassesTheBlock(order: Order, ifaces: seq<Interface>, b: seq<Byte>)
    ensures var t := NextTurn(order, ifaces, b);
            t.Consume? ==>
              && 8 <= |b| && t.size == GetU32(t.order, b, 4)
              && (if IsSection(b) then 12 <= |b| && SectionOrder(b) == Some(t.order) && t.ifaces == [] && t.packet.None?
                  else t.order == order && ifaces <= t.ifaces && |t.ifaces| <= |ifaces| + 1
                       && (|t.ifaces| == |ifaces| + 1 <==> GetU32(order, b, 0) == 1)
                       && (t.packet.Some? ==> GetU32(order, b, 0) == 6 || GetU32(order, b, 0) == 3))
  {
    hide GetU32, OptionsFrom, TicksToNanos, OffsetOf;
  }
}
