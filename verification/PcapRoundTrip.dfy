/** What the readers make of what the writers write, whole or cut short. */
module PcapRoundTrip {
  import opened Bytes
  import opened Wrappers
  import opened PcapReader
  import opened PcapWriter

  // ---------------------------------------------------------------------------------------
  // Fields in place
  // ---------------------------------------------------------------------------------------

  lemma WordPut(order: Order, b: seq<Byte>, off: nat, n: nat)
    requires n < U32_END && off + 4 <= |b| && b[off..off + 4] == PutU32(order, n)
    ensures GetU32(order, b, off) == n
  {
    hide GetU32, PutU32;
    U32RoundTrip(order, b[..off], n, b[off + 4..]);
    assert b == b[..off] + PutU32(order, n) + b[off + 4..];
  }

  lemma HalfPut(order: Order, b: seq<Byte>, off: nat, n: nat)
    requires n < U16_END && off + 2 <= |b| && b[off..off + 2] == PutU16(order, n)
    ensures GetU16(order, b, off) == n
  {
    hide GetU16, PutU16;
    U16RoundTrip(order, b[..off], n, b[off + 2..]);
    assert b == b[..off] + PutU16(order, n) + b[off + 2..];
  }

  /** Where the parts of a concatenation of four-byte fields lie. */
  lemma FieldsInFront(a: seq<Byte>, b: seq<Byte>, c: seq<Byte>, d: seq<Byte>, e: seq<Byte>, rest: seq<Byte>)
    requires |a| == |b| == |c| == |d| == 4 && |e| == 4
    ensures var s := a + b + c + d + e + rest;
            && s[0..4] == a && s[4..8] == b && s[8..12] == c && s[12..16] == d
            && s[16..20] == e && s[20..] == rest
  {
    var s := a + b + c + d + e + rest;
    assert s == (a + b) + (c + d + e + rest) == (a + b + c + d) + (e + rest);
    assert s[0..4] == (a + b)[0..4] == a && s[4..8] == (a + b)[4..8] == b;
    assert s[8..12] == (c + d + e + rest)[0..4] == c && s[12..16] == (c + d + e + rest)[4..8] == d;
    assert s[16..20] == (e + rest)[0..4] == e && s[20..] == (e + rest)[4..] == rest;
  }

  lemma FourFields(a: seq<Byte>, b: seq<Byte>, c: seq<Byte>, d: seq<Byte>)
    requires |a| == |b| == |c| == |d| == 4
    ensures var s := a + b + c + d; s[0..4] == a && s[4..8] == b && s[8..12] == c && s[12..16] == d
  {
    var s := a + b + c + d;
    assert s == (a + b) + (c + d);
    assert s[0..4] == (a + b)[0..4] == a && s[4..8] == (a + b)[4..8] == b;
    assert s[8..12] == (c + d)[0..4] == c && s[12..16] == (c + d)[4..8] == d;
  }

  /** `b` begins with `block`, or is the beginning of it. */
  ghost predicate Begins(b: seq<Byte>, block: seq<Byte>) {
    if |b| < |block| then b == block[..|b|] else b[..|block|] == block
  }

  lemma BeginsWithTwo(b: seq<Byte>, first: seq<Byte>, second: seq<Byte>)
    requires Begins(b, first + second)
    ensures Begins(b, first) && (|first| <= |b| ==> Begins(b[|first|..], second))
  {
    var both := first + second;
    if |first| <= |b| {
      if |b| < |both| {
        assert b[..|first|] == both[..|first|] == first;
        assert b[|first|..] == both[|first|..][..|b| - |first|] == second[..|b| - |first|];
      } else {
        assert b[..|first|] == b[..|both|][..|first|] == first;
        assert b[|first|..][..|second|] == b[..|both|][|first|..] == second;
      }
    } else {
      assert b == both[..|b|] == first[..|b|];
    }
  }

  lemma CutInTwo(first: seq<Byte>, second: seq<Byte>, n: nat)
    requires n <= |first + second|
    ensures var b := (first + second)[..n];
            Begins(b, first) && (|first| <= n ==> b[..|first|] == first && b[|first|..] == second[..n - |first|])
  {
  }

  // ---------------------------------------------------------------------------------------
  // Classic pcap
  // ---------------------------------------------------------------------------------------

  function FlavourFor(order: Order, nano: bool): Flavour {
    Flavour(order, if nano then 1 else 1000)
  }

  /** A time floored to the resolution of the file. */
  function FlooredTo(ts: nat, unit: nat): (t: nat)
    requires 0 < unit
    ensures t <= ts
  {
    ts / unit * unit
  }

  /** The packet a frame comes back as. */
  function PacketOf(frame: Frame, linktype: nat, unit: nat): Packet
    requires 0 < unit
  {
    Packet(FlooredTo(frame.ts, unit), linktype, frame.data, |frame.data|)
  }

  function PacketsOf(frames: seq<Frame>, linktype: nat, unit: nat): (p: seq<Packet>)
    requires 0 < unit
    ensures |p| == |frames|
  {
    seq(|frames|, i requires 0 <= i < |frames| => PacketOf(frames[i], linktype, unit))
  }

  lemma OneMorePacket(frames: seq<Frame>, linktype: nat, unit: nat, k: nat)
    requires 0 < unit && frames != [] && k < |frames|
    ensures PacketsOf(frames, linktype, unit)[..1 + k]
         == [PacketOf(frames[0], linktype, unit)] + PacketsOf(frames[1..], linktype, unit)[..k]
  {
    hide PacketOf;
  }

  /** How many of the frames' records lie wholly in the first `n` bytes of them. */
  ghost function WholeRecords(frames: seq<Frame>, n: nat): (k: nat)
    ensures k <= |frames|
  {
    if frames == [] || n < 16 + |frames[0].data| then 0 else 1 + WholeRecords(frames[1..], n - 16 - |frames[0].data|)
  }

  lemma TimeRoundTrip(ts: nat, nano: bool)
    ensures ts / NANOS * NANOS + Fraction(ts, nano) * (if nano then 1 else 1000)
              == FlooredTo(ts, if nano then 1 else 1000)
  {
    if !nano {
      var sec, rest := ts / NANOS, ts % NANOS;
      assert ts == (sec * 1_000_000) * 1000 + rest;
      assert ts / 1000 == sec * 1_000_000 + rest / 1000;
    }
  }

  lemma HeaderRead(order: Order, nano: bool, frame: Frame, linktype: nat)
    requires FitsPcap(frame)
    ensures var header := RecordHeader(order, nano, frame);
            && GetU32(order, header, 8) == |frame.data|
            && RecordPacket(FlavourFor(order, nano), linktype, header, frame.data)
               == PacketOf(frame, linktype, if nano then 1 else 1000)
  {
    hide GetU32, PutU32, Fraction, FlooredTo;
    var h, len := RecordHeader(order, nano, frame), |frame.data|;
    FourFields(PutU32(order, frame.ts / NANOS), PutU32(order, Fraction(frame.ts, nano)), PutU32(order, len),
               PutU32(order, len));
    WordPut(order, h, 0, frame.ts / NANOS);
    WordPut(order, h, 4, Fraction(frame.ts, nano));
    WordPut(order, h, 8, len);
    WordPut(order, h, 12, len);
    TimeRoundTrip(frame.ts, nano);
  }

  lemma RecordBytes(header: seq<Byte>, data: seq<Byte>, rest: seq<Byte>, n: nat)
    requires |header| == 16 && 16 <= n <= |header + data + rest|
    ensures var b := (header + data + rest)[..n];
            && b[..16] == header
            && (16 + |data| <= n ==> b[16..16 + |data|] == data && b[16 + |data|..] == rest[..n - 16 - |data|])
  {
    assert header + data + rest == header + (data + rest);
    CutInTwo(header, data + rest, n);
    CutInTwo(header + data, rest, n);
    CutInTwo(data, rest, n - 16);
  }

  /** Reading the first `n` bytes of written records gives exactly the frames that are whole. */
  lemma {:induction false} CutRecords(order: Order, nano: bool, linktype: nat, frames: seq<Frame>, n: nat)
    requires AllFitPcap(frames) && n <= |RecordsOf(order, nano, frames)|
    ensures Records(FlavourFor(order, nano), linktype, RecordsOf(order, nano, frames)[..n])
         == PacketsOf(frames, linktype, if nano then 1 else 1000)[..WholeRecords(frames, n)]
    decreases |frames|
  {
    hide GetU32, RecordPacket, RecordHeader, PacketOf, PacketsOf;
    var f, b := FlavourFor(order, nano), RecordsOf(order, nano, frames)[..n];
    if frames != [] && 16 <= n {
      var header, data := RecordHeader(order, nano, frames[0]), frames[0].data;
      HeaderRead(order, nano, frames[0], linktype);
      RecordBytes(header, data, RecordsOf(order, nano, frames[1..]), n);
      if 16 + |data| <= n {
        CutRecords(order, nano, linktype, frames[1..], n - 16 - |data|);
        OneMorePacket(frames, linktype, if nano then 1 else 1000, WholeRecords(frames[1..], n - 16 - |data|));
      }
    }
  }

  lemma {:induction false} AllWhole(order: Order, nano: bool, frames: seq<Frame>)
    requires AllFitPcap(frames)
    ensures WholeRecords(frames, |RecordsOf(order, nano, frames)|) == |frames|
  {
    hide RecordHeader;
    if frames != [] {
      AllWhole(order, nano, frames[1..]);
    }
  }

  lemma HeaderFields(order: Order, nano: bool, linktype: nat, file: seq<Byte>)
    requires linktype < U32_END && 24 <= |file| && file[..24] == PcapHeader(order, nano, linktype)
    ensures FlavourOf(file[..4]) == Some(FlavourFor(order, nano)) && GetU32(order, file, 20) == linktype
  {
    hide GetU32, PutU32, PutU16;
    assert file[..4] == file[..24][..4] == MagicOf(order, nano);
    assert file[20..24] == file[..24][20..] == PutU32(order, linktype);
    WordPut(order, file, 20, linktype);
  }

  ghost function PcapFile(order: Order, nano: bool, linktype: nat, frames: seq<Frame>): seq<Byte>
    requires AllFitPcap(frames) && linktype < U32_END
  {
    PcapHeader(order, nano, linktype) + RecordsOf(order, nano, frames)
  }

  /** A pcap file cut anywhere past its header reads as the frames whose records are whole,
      and raises nothing. */
  lemma CutPcapFile(order: Order, nano: bool, linktype: nat, frames: seq<Frame>, n: nat)
    requires AllFitPcap(frames) && linktype < U32_END
    requires 24 <= n <= |PcapFile(order, nano, linktype, frames)|
    ensures CaptureOf(PcapFile(order, nano, linktype, frames)[..n])
         == Capture(PacketsOf(frames, linktype % U16_END, if nano then 1 else 1000)[..WholeRecords(frames, n - 24)],
                    None)
  {
    hide GetU32, RecordsOf, Records, FlavourOf, PcapHeader, PacketsOf;
    var header, records := PcapHeader(order, nano, linktype), RecordsOf(order, nano, frames);
    var b := (header + records)[..n];
    assert b[..24] == header && b[24..] == records[..n - 24];
    HeaderFields(order, nano, linktype, b);
    CutRecords(order, nano, linktype % U16_END, frames, n - 24);
  }

  /** Both byte orders and both units: every packet comes back, in order, its time floored. */
  lemma PcapRoundTrips(order: Order, nano: bool, linktype: nat, frames: seq<Frame>)
    requires AllFitPcap(frames) && linktype < U32_END
    ensures CaptureOf(PcapFile(order, nano, linktype, frames))
         == Capture(PacketsOf(frames, linktype % U16_END, if nano then 1 else 1000), None)
  {
    hide CaptureOf, RecordsOf, PcapHeader;
    var file := PcapFile(order, nano, linktype, frames);
    CutPcapFile(order, nano, linktype, frames, |file|);
    AllWhole(order, nano, frames);
    assert file[..|file|] == file;
  }

  // ---------------------------------------------------------------------------------------
  // pcapng
  // ---------------------------------------------------------------------------------------

  lemma PowersMultiply(m: nat, n: nat)
    ensures Power(10, m + n) == Power(10, m) * Power(10, n)
  {
    if m > 0 {
      PowersMultiply(m - 1, n);
    }
  }

  lemma NineZeros()
    ensures Power(10, 9) == NANOS
  {
    assert Power(10, 3) == 1000;
    PowersMultiply(3, 3);
    PowersMultiply(6, 3);
  }

  lemma Multiple(k: int, scale: nat)
    ensures 0 <= k * scale < scale ==> k == 0
  {
    if 1 <= k {
      assert scale <= k * scale;
    } else if k <= -1 {
      assert -k * scale >= scale;
    }
  }

  lemma Quotient(n: nat, x: nat, scale: nat)
    requires 0 < scale && n == x * scale
    ensures n / scale == x
  {
    var q := n / scale;
    assert n == q * scale + n % scale;
    Multiple(x - q, scale);
  }

  lemma DivideOut(ticks: nat, unit: nat, scale: nat)
    requires 0 < scale
    ensures ticks * (scale * unit) / scale == ticks * unit
  {
    calc {
      ticks * (scale * unit);
      ticks * (unit * scale);
      (ticks * unit) * scale;
    }
    Quotient(ticks * unit * scale, ticks * unit, scale);
  }

  lemma TicksRoundTrip(ts: nat, tsresol: Byte)
    requires tsresol <= 9
    ensures TicksToNanos(ts / Unit(tsresol), tsresol) == FlooredTo(ts, Unit(tsresol))
  {
    hide Power;
    NineZeros();
    PowersMultiply(tsresol, 9 - tsresol);
    DivideOut(ts / Unit(tsresol), Unit(tsresol), Power(10, tsresol));
  }

  /** A block as the reader takes it apart. */
  lemma BlockFields(btype: nat, body: seq<Byte>, b: seq<Byte>)
    requires btype < U32_END && 12 + |Padded(body)| < U32_END
    requires 8 <= |b| && Begins(b, BlockOf(btype, body))
    ensures b[..4] == PutU32(Little, btype) && GetU32(Little, b, 0) == btype
    ensures GetU32(Little, b, 4) == |BlockOf(btype, body)|
    ensures |BlockOf(btype, body)| <= |b| ==> b[8..|BlockOf(btype, body)| - 4] == Padded(body)
  {
    hide GetU32, PutU32, Padding, Zeros;
    var block := BlockOf(btype, body);
    var size := PutU32(Little, |block|);
    assert block == PutU32(Little, btype) + (size + (Padded(body) + size));
    BeginsWithTwo(b, PutU32(Little, btype), size + (Padded(body) + size));
    BeginsWithTwo(b[4..], size, Padded(body) + size);
    assert b[0..4] == PutU32(Little, btype) == b[..4];
    assert b[4..8] == b[4..][..4] == size;
    if |block| <= |b| {
      assert b[4..][4..] == b[8..];
      BeginsWithTwo(b[8..], Padded(body), size);
      assert b[8..|block| - 4] == b[8..][..|Padded(body)|];
    }
    WordPut(Little, b, 0, btype);
    WordPut(Little, b, 4, |block|);
  }

  /** The body of an enhanced packet block, as the format lays it out. */
  function EnhancedLayout(order: Order, iface: nat, ticks: nat, data: seq<Byte>, orig: nat,
                          padding: seq<Byte>): seq<Byte>
    requires iface < U32_END && ticks < U32_END * U32_END && |data| < U32_END && orig < U32_END
  {
    PutU32(order, iface) + PutU32(order, ticks / U32_END) + PutU32(order, ticks % U32_END)
      + PutU32(order, |data|) + PutU32(order, orig) + (data + padding)
  }

  /** In either byte order an enhanced packet block yields its data with the time and link type of
      the interface it names, resolution and offset applied, and is passed over if there is none. */
  lemma EnhancedPacket(order: Order, ifaces: seq<Interface>, iface: nat, ticks: nat, data: seq<Byte>, orig: nat,
                       padding: seq<Byte>, size: nat)
    requires iface < U32_END && ticks < U32_END * U32_END && |data| < U32_END && orig < U32_END
    ensures EnhancedTurn(size, order, ifaces, EnhancedLayout(order, iface, ticks, data, orig, padding))
         == Consume(size, order, ifaces,
                    if |ifaces| <= iface then None
                    else Some(Packet(TicksToNanos(ticks, ifaces[iface].tsresol) + ifaces[iface].offset,
                                     ifaces[iface].linktype, data, orig)))
  {
    hide GetU32, PutU32, TicksToNanos;
    var body, len := EnhancedLayout(order, iface, ticks, data, orig, padding), |data|;
    FieldsInFront(PutU32(order, iface), PutU32(order, ticks / U32_END), PutU32(order, ticks % U32_END),
                  PutU32(order, len), PutU32(order, orig), data + padding);
    assert body[20..20 + len] == body[20..][..len] == data;
    WordPut(order, body, 0, iface);
    WordPut(order, body, 4, ticks / U32_END);
    WordPut(order, body, 8, ticks % U32_END);
    WordPut(order, body, 12, len);
    WordPut(order, body, 16, orig);
  }

  /** A simple packet block yields its data at time zero on the first interface, cut to what the
      block holds. */
  lemma SimplePacket(order: Order, ifaces: seq<Interface>, data: seq<Byte>, orig: nat, padding: seq<Byte>, size: nat)
    requires ifaces != [] && |data| <= orig < U32_END && (|data| < orig ==> padding == [])
    ensures SimpleTurn(size, order, ifaces, PutU32(order, orig) + data + padding)
         == Consume(size, order, ifaces, Some(Packet(0, ifaces[0].linktype, data, orig)))
  {
    hide GetU32, PutU32;
    var body := PutU32(order, orig) + data + padding;
    assert body[0..4] == PutU32(order, orig);
    WordPut(order, body, 0, orig);
    assert Slice(body, 4, orig) == data;
  }

  /** A section header sets the byte order and starts the interfaces anew. */
  lemma SectionStartsAnew(order: Order, before: Order, ifaces: seq<Interface>, size: nat, rest: seq<Byte>)
    requires 16 <= size < U32_END
    ensures NextTurn(before, ifaces,
                     SECTION + PutU32(order, size) + (if order == Little then MAGIC_LITTLE else MAGIC_BIG) + rest)
         == Consume(size, order, [], None)
  {
    hide GetU32, PutU32, BlockTurn;
    var magic := if order == Little then MAGIC_LITTLE else MAGIC_BIG;
    var b := SECTION + PutU32(order, size) + magic + rest;
    assert b[..4] == SECTION && b[4..8] == PutU32(order, size) && b[8..12] == magic;
    WordPut(order, b, 4, size);
  }

  lemma Floored(n: nat, unit: nat)
    requires 0 < unit
    ensures n / unit * unit <= n < (n / unit + 1) * unit
  {
    assert n == n / unit * unit + n % unit;
  }

  /** The nanoseconds of a tick count, floored, for either kind of resolution. */
  lemma TicksAreFloored(ticks: nat, tsresol: Byte)
    ensures var unit := if 128 <= tsresol then Power(2, tsresol - 128) else Power(10, tsresol);
            TicksToNanos(ticks, tsresol) * unit <= ticks * NANOS < (TicksToNanos(ticks, tsresol) + 1) * unit
  {
    hide Power;
    Floored(ticks * NANOS, if 128 <= tsresol then Power(2, tsresol - 128) else Power(10, tsresol));
  }

  lemma EnhancedFields(frame: Frame, tsresol: Byte, linktype: nat, size: nat)
    requires tsresol <= 9 && FitsPcapng(frame, tsresol)
    ensures EnhancedTurn(size, Little, [Interface(linktype, tsresol, 0)], EnhancedBody(frame, tsresol))
         == Consume(size, Little, [Interface(linktype, tsresol, 0)], Some(PacketOf(frame, linktype, Unit(tsresol))))
  {
    hide PutU32, EnhancedTurn, Unit, TicksToNanos, FlooredTo;
    EnhancedPacket(Little, [Interface(linktype, tsresol, 0)], 0, frame.ts / Unit(tsresol), frame.data, |frame.data|,
                   Zeros(Padding(|frame.data|)), size);
    TicksRoundTrip(frame.ts, tsresol);
  }

  /** A body that needs no padding. */
  lemma AlreadyPadded(body: seq<Byte>)
    requires |body| % 4 == 0
    ensures Padded(body) == body
  {
  }

  /** The turn over a written packet block, or over what is left of one. */
  lemma EnhancedRead(frame: Frame, tsresol: Byte, linktype: nat, b: seq<Byte>)
    requires tsresol <= 9 && FitsPcapng(frame, tsresol)
    requires Begins(b, EnhancedBlock(frame, tsresol))
    ensures NextTurn(Little, [Interface(linktype, tsresol, 0)], b)
         == if |b| < |EnhancedBlock(frame, tsresol)| then Stop
            else Consume(|EnhancedBlock(frame, tsresol)|, Little, [Interface(linktype, tsresol, 0)],
                         Some(PacketOf(frame, linktype, Unit(tsresol))))
  {
    hide GetU32, EnhancedTurn, InterfaceTurn, SimpleTurn, EnhancedBody, Padded, PacketOf;
    var body := EnhancedBody(frame, tsresol);
    AlreadyPadded(body);
    if 8 <= |b| {
      BlockFields(6, body, b);
      assert PutU32(Little, 6) == [6, 0, 0, 0];
      EnhancedFields(frame, tsresol, linktype, |EnhancedBlock(frame, tsresol)|);
    }
  }

  /** How many of the frames' blocks lie wholly in the first `n` bytes of them. */
  ghost function WholeBlocks(frames: seq<Frame>, n: nat): (k: nat)
    ensures k <= |frames|
  {
    if frames == [] || n < 32 + |Padded(frames[0].data)| then 0
    else 1 + WholeBlocks(frames[1..], n - 32 - |Padded(frames[0].data)|)
  }

  lemma BlockSize(frame: Frame, tsresol: nat)
    requires tsresol <= 9 && FitsPcapng(frame, tsresol)
    ensures |EnhancedBlock(frame, tsresol)| == 32 + |Padded(frame.data)|
  {
    hide EnhancedBody, Padded;
    AlreadyPadded(EnhancedBody(frame, tsresol));
  }

  lemma {:induction false} CutBlocks(tsresol: Byte, linktype: nat, frames: seq<Frame>, n: nat)
    requires tsresol <= 9 && AllFitPcapng(frames, tsresol) && n <= |EnhancedBlocks(frames, tsresol)|
    ensures Blocks(Little, [Interface(linktype, tsresol, 0)], EnhancedBlocks(frames, tsresol)[..n])
         == Capture(PacketsOf(frames, linktype, Unit(tsresol))[..WholeBlocks(frames, n)], None)
    decreases |frames|
  {
    hide NextTurn, EnhancedBlock, PacketOf, PacketsOf, Padded, FitsPcapng, Unit, Begins;
    var ifaces, b := [Interface(linktype, tsresol, 0)], EnhancedBlocks(frames, tsresol)[..n];
    if frames == [] {
      NothingThere(ifaces);
    } else {
      var block := EnhancedBlock(frames[0], tsresol);
      BlockSize(frames[0], tsresol);
      CutInTwo(block, EnhancedBlocks(frames[1..], tsresol), n);
      EnhancedRead(frames[0], tsresol, linktype, b);
      if |block| <= n {
        CutBlocks(tsresol, linktype, frames[1..], n - |block|);
        OneMorePacket(frames, linktype, Unit(tsresol), WholeBlocks(frames[1..], n - |block|));
      }
    }
  }

  lemma NothingThere(ifaces: seq<Interface>)
    ensures NextTurn(Little, ifaces, []) == Stop
  {
  }

  lemma {:induction false} AllBlocksWhole(tsresol: nat, frames: seq<Frame>)
    requires tsresol <= 9 && AllFitPcapng(frames, tsresol)
    ensures WholeBlocks(frames, |EnhancedBlocks(frames, tsresol)|) == |frames|
  {
    hide EnhancedBlock, Padded, FitsPcapng;
    if frames != [] {
      BlockSize(frames[0], tsresol);
      AllBlocksWhole(tsresol, frames[1..]);
    }
  }

  lemma SectionRead(b: seq<Byte>)
    requires 8 <= |b| && Begins(b, BlockOf(0x0a0d0d0a, SECTION_BODY))
    ensures NextTurn(Little, [], b) == if |b| < 12 then Stop else Consume(28, Little, [], None)
  {
    hide GetU32, PutU32, BlockTurn;
    var block := BlockOf(0x0a0d0d0a, SECTION_BODY);
    assert PutU32(Little, 0x0a0d0d0a) == SECTION by {
      SectionType();
    }
    BlockFields(0x0a0d0d0a, SECTION_BODY, b);
    if 12 <= |b| {
      assert b[8..12] == block[8..12] == SECTION_BODY[..4];
    }
  }

  lemma SectionType()
    ensures PutU32(Little, 0x0a0d0d0a) == SECTION
  {
  }

  lemma InterfaceOptions(order: Order, tsresol: Byte)
    requires order == Little
    ensures OptionsFrom(order, [9, 0, 1, 0, tsresol, 0, 0, 0, 0, 0, 0, 0], 0) == map[9 := [tsresol]]
  {
    var body := [9, 0, 1, 0, tsresol, 0, 0, 0, 0, 0, 0, 0];
    assert GetU16(order, body, 0) == 9 && GetU16(order, body, 2) == 1 && GetU16(order, body, 8) == 0;
    assert Slice(body, 4, 1) == [tsresol];
    assert OptionsFrom(order, body, 8) == map[];
  }

  lemma InterfaceFields(linktype: nat, tsresol: Byte, size: nat)
    requires linktype < U16_END
    ensures InterfaceTurn(size, Little, [], InterfaceBody(linktype, tsresol))
         == Consume(size, Little, [Interface(linktype, tsresol, 0)], None)
  {
    hide GetU16, PutU16, PutU32, OptionsFrom;
    var body := InterfaceBody(linktype, tsresol);
    assert body[0..2] == PutU16(Little, linktype);
    HalfPut(Little, body, 0, linktype);
    assert From(body, 8) == [9, 0, 1, 0, tsresol, 0, 0, 0, 0, 0, 0, 0];
    InterfaceOptions(Little, tsresol);
  }

  lemma InterfaceRead(linktype: nat, tsresol: Byte, b: seq<Byte>)
    requires linktype < U16_END
    requires Begins(b, BlockOf(1, InterfaceBody(linktype, tsresol)))
    ensures NextTurn(Little, [], b) ==
            if |b| < 32 then Stop else Consume(32, Little, [Interface(linktype, tsresol, 0)], None)
  {
    hide GetU32, EnhancedTurn, InterfaceTurn, SimpleTurn, InterfaceBody, Padded;
    var body := InterfaceBody(linktype, tsresol);
    AlreadyPadded(body);
    if 8 <= |b| {
      BlockFields(1, body, b);
      assert PutU32(Little, 1) == [1, 0, 0, 0];
      InterfaceFields(linktype, tsresol, 32);
    }
  }

  ghost function PcapngFile(linktype: nat, tsresol: Byte, frames: seq<Frame>): seq<Byte>
    requires linktype < U16_END && tsresol <= 9 && AllFitPcapng(frames, tsresol)
  {
    PcapngHeader(linktype, tsresol) + EnhancedBlocks(frames, tsresol)
  }

  lemma HeaderSize(linktype: nat, tsresol: Byte)
    requires linktype < U16_END
    ensures |BlockOf(0x0a0d0d0a, SECTION_BODY)| == 28 && |BlockOf(1, InterfaceBody(linktype, tsresol))| == 32
    ensures |PcapngHeader(linktype, tsresol)| == 60
  {
    hide InterfaceBody;
  }

  /** Past the two blocks of the header the reader is at the packets. */
  lemma HeaderBlocks(linktype: nat, tsresol: Byte, b: seq<Byte>)
    requires linktype < U16_END && 8 <= |b|
    requires Begins(b, PcapngHeader(linktype, tsresol))
    ensures Blocks(Little, [], b)
         == if |b| < 60 then Capture([], None) else Blocks(Little, [Interface(linktype, tsresol, 0)], b[60..])
  {
    hide NextTurn, BlockOf, InterfaceBody, Begins;
    var section, interface := BlockOf(0x0a0d0d0a, SECTION_BODY), BlockOf(1, InterfaceBody(linktype, tsresol));
    HeaderSize(linktype, tsresol);
    BeginsWithTwo(b, section, interface);
    SectionRead(b);
    if 28 <= |b| {
      var rest := b[28..];
      InterfaceRead(linktype, tsresol, rest);
      if 32 <= |rest| {
        assert rest[32..] == b[60..];
      }
    } else {
      NothingThere([]);
    }
  }

  /** A pcapng file cut anywhere past its first four bytes reads as the frames whose blocks are
      whole, and raises nothing. */
  lemma CutPcapngFile(linktype: nat, tsresol: Byte, frames: seq<Frame>, n: nat)
    requires linktype < U16_END && tsresol <= 9 && AllFitPcapng(frames, tsresol)
    requires 4 <= n <= |PcapngFile(linktype, tsresol, frames)|
    ensures CaptureOf(PcapngFile(linktype, tsresol, frames)[..n])
         == Capture(PacketsOf(frames, linktype, Unit(tsresol))[..if n < 60 then 0 else WholeBlocks(frames, n - 60)],
                    None)
  {
    hide Blocks, EnhancedBlocks, PcapngHeader, PacketsOf, Unit;
    var header, blocks := PcapngHeader(linktype, tsresol), EnhancedBlocks(frames, tsresol);
    var b := (header + blocks)[..n];
    HeaderSize(linktype, tsresol);
    assert b[..4] == header[..4];
    StartsSection(linktype, tsresol);
    if n < 8 {
      ShortStops(b);
    } else {
      CutInTwo(header, blocks, n);
      HeaderBlocks(linktype, tsresol, b);
      if 60 <= n {
        CutBlocks(tsresol, linktype, frames, n - 60);
      }
    }
  }

  lemma ShortStops(b: seq<Byte>)
    requires |b| < 8
    ensures Blocks(Little, [], b) == Capture([], None)
  {
  }

  lemma StartsSection(linktype: nat, tsresol: Byte)
    requires linktype < U16_END
    ensures |PcapngHeader(linktype, tsresol)| == 60 && PcapngHeader(linktype, tsresol)[..4] == SECTION
  {
    hide PutU32, InterfaceBody;
    SectionType();
  }

  /** Every resolution from seconds to nanoseconds: every packet comes back, in order, its time
      floored. */
  lemma PcapngRoundTrips(linktype: nat, tsresol: Byte, frames: seq<Frame>)
    requires linktype < U16_END && tsresol <= 9 && AllFitPcapng(frames, tsresol)
    ensures CaptureOf(PcapngFile(linktype, tsresol, frames))
              == Capture(PacketsOf(frames, linktype, Unit(tsresol)), None)
  {
    hide CaptureOf, EnhancedBlocks, PcapngHeader, Unit;
    var file := PcapngFile(linktype, tsresol, frames);
    HeaderSize(linktype, tsresol);
    CutPcapngFile(linktype, tsresol, frames, |file|);
    AllBlocksWhole(tsresol, frames);
    assert file[..|file|] == file;
  }

  // ---------------------------------------------------------------------------------------
  // Option lists, and the options no writer here emits
  // ---------------------------------------------------------------------------------------

  datatype Opt = Opt(code: nat, val: seq<Byte>)

  predicate OptFits(o: Opt) {
    0 < o.code < U16_END && |o.val| < U16_END
  }

  function OptBytes(order: Order, o: Opt): seq<Byte>
    requires OptFits(o)
  {
    PutU16(order, o.code) + PutU16(order, |o.val|) + o.val + Zeros(Padding(|o.val|))
  }

  ghost predicate AllOptsFit(list: seq<Opt>) {
    forall i | 0 <= i < |list| :: OptFits(list[i])
  }

  ghost function OptList(order: Order, list: seq<Opt>): seq<Byte>
    requires AllOptsFit(list)
  {
    if list == [] then [] else OptBytes(order, list[0]) + OptList(order, list[1..])
  }

  /** The value of a code is that of its first option. */
  ghost function FirstOf(list: seq<Opt>): OptionMap {
    if list == [] then map[] else FirstOf(list[1..])[list[0].code := list[0].val]
  }

  /** A list ends with the end-of-options code, or where four bytes no longer fit. */
  predicate EndsList(order: Order, tail: seq<Byte>) {
    |tail| < 4 || tail[..2] == PutU16(order, 0)
  }

  lemma OneOption(order: Order, front: seq<Byte>, o: Opt, rest: seq<Byte>)
    requires OptFits(o)
    ensures var body, off := front + OptBytes(order, o) + rest, |front|;
            && off + 4 <= |body| && GetU16(order, body, off) == o.code && GetU16(order, body, off + 2) == |o.val|
            && Slice(body, off + 4, |o.val|) == o.val
            && off + 4 + |o.val| + Padding(|o.val|) == |front + OptBytes(order, o)|
  {
    hide PutU16, GetU16, Zeros, Padding;
    var code, length, pad := PutU16(order, o.code), PutU16(order, |o.val|), Zeros(Padding(|o.val|));
    var body := front + OptBytes(order, o) + rest;
    assert body == front + code + (length + (o.val + (pad + rest)));
    assert body == (front + code) + length + (o.val + (pad + rest));
    assert body == (front + code + length) + o.val + (pad + rest);
    U16RoundTrip(order, front, o.code, length + (o.val + (pad + rest)));
    U16RoundTrip(order, front + code, |o.val|, o.val + (pad + rest));
    ZerosLength(Padding(|o.val|));
  }

  lemma ZerosLength(n: nat)
    ensures |Zeros(n)| == n
  {
  }

  lemma Regroup(a: seq<Byte>, b: seq<Byte>, c: seq<Byte>, d: seq<Byte>)
    ensures a + (b + c) + d == a + b + (c + d) == a + b + c + d
  {
  }

  /** An option list reads back as it was written, in either byte order; an option given again is
      ignored. */
  lemma {:induction false} OptionsRoundTrip(order: Order, front: seq<Byte>, list: seq<Opt>, tail: seq<Byte>)
    requires AllOptsFit(list) && EndsList(order, tail)
    ensures OptionsFrom(order, front + OptList(order, list) + tail, |front|) == FirstOf(list)
    decreases |list|
  {
    hide PutU16, GetU16, OptBytes, Slice, Padding;
    var body := front + OptList(order, list) + tail;
    if list == [] {
      assert body == front + tail;
      if 4 <= |tail| {
        assert body[|front|..|front| + 2] == tail[..2];
        HalfPut(order, body, |front|, 0);
      }
    } else {
      var next := front + OptBytes(order, list[0]);
      var rest := OptList(order, list[1..]) + tail;
      Regroup(front, OptBytes(order, list[0]), OptList(order, list[1..]), tail);
      OneOption(order, front, list[0], rest);
      OptionsRoundTrip(order, next, list[1..], tail);
    }
  }

  /** `struct.pack("q")` */
  function PutI64(order: Order, n: int): (b: seq<Byte>)
    requires -0x8000_0000_0000_0000 <= n < 0x8000_0000_0000_0000
    ensures |b| == 8
  {
    var u := if n < 0 then n + 0x1_0000_0000_0000_0000 else n;
    if order == Big then PutU32(order, u / U32_END) + PutU32(order, u % U32_END)
    else PutU32(order, u % U32_END) + PutU32(order, u / U32_END)
  }

  lemma I64RoundTrip(order: Order, n: int)
    requires -0x8000_0000_0000_0000 <= n < 0x8000_0000_0000_0000
    ensures GetI64(order, PutI64(order, n)) == n
  {
    hide PutU32, GetU32;
    var b, u := PutI64(order, n), if n < 0 then n + 0x1_0000_0000_0000_0000 else n;
    if order == Big {
      assert b[0..4] == PutU32(order, u / U32_END) && b[4..8] == PutU32(order, u % U32_END);
      WordPut(order, b, 0, u / U32_END);
      WordPut(order, b, 4, u % U32_END);
    } else {
      assert b[0..4] == PutU32(order, u % U32_END) && b[4..8] == PutU32(order, u / U32_END);
      WordPut(order, b, 0, u % U32_END);
      WordPut(order, b, 4, u / U32_END);
    }
  }

  /** An interface that states any resolution and a whole-second offset, before or behind the
      epoch, in either byte order, is read with both. */
  lemma InterfaceWithOptions(order: Order, linktype: nat, reserved: seq<Byte>, tsresol: Byte, seconds: int,
                             size: nat, ifaces: seq<Interface>)
    requires linktype < U16_END && |reserved| == 6
    requires -0x8000_0000_0000_0000 <= seconds < 0x8000_0000_0000_0000
    ensures var list := [Opt(9, [tsresol]), Opt(14, PutI64(order, seconds))];
            InterfaceTurn(size, order, ifaces, PutU16(order, linktype) + reserved + OptList(order, list))
            == Consume(size, order, ifaces + [Interface(linktype, tsresol, seconds * NANOS)], None)
  {
    hide OptionsFrom, PutU16, GetU16, OptList, GetI64, PutI64;
    var options := PutI64(order, seconds);
    var list := [Opt(9, [tsresol]), Opt(14, options)];
    var body := PutU16(order, linktype) + reserved + OptList(order, list);
    assert body[0..2] == PutU16(order, linktype);
    HalfPut(order, body, 0, linktype);
    assert From(body, 8) == OptList(order, list);
    OptionsRoundTrip(order, [], list, []);
    assert [] + OptList(order, list) + [] == OptList(order, list);
    assert list[1..] == [Opt(14, options)] && list[1..][1..] == [];
    assert FirstOf([]) == map[];
    assert FirstOf(list[1..]) == map[14 := options];
    assert FirstOf(list) == map[14 := options, 9 := [tsresol]];
    I64RoundTrip(order, seconds);
    assert options[..8] == options;
  }

  // ---------------------------------------------------------------------------------------
  // Any file at all, cut anywhere
  // ---------------------------------------------------------------------------------------

  lemma {:induction false} RecordsOfACut(f: Flavour, linktype: nat, b: seq<Byte>, n: nat)
    requires n <= |b|
    ensures Records(f, linktype, b[..n]) <= Records(f, linktype, b)
    decreases |b|
  {
    hide GetU32, RecordPacket;
    if 16 <= n {
      assert b[..n][..16] == b[..16];
      var incl := GetU32(f.order, b[..16], 8);
      if 16 + incl <= n {
        assert b[..n][16..16 + incl] == b[16..16 + incl];
        assert b[..n][16 + incl..] == b[16 + incl..][..n - 16 - incl];
        RecordsOfACut(f, linktype, b[16 + incl..], n - 16 - incl);
      }
    }
  }

  lemma SliceOfACut(b: seq<Byte>, n: nat, i: nat, j: nat)
    requires i <= j <= n <= |b|
    ensures b[..n][i..j] == b[i..j] && (i == 0 ==> b[..n][..j] == b[..j])
  {
  }

  /** A turn over a cut stops, or does what the turn over the whole does. */
  lemma TurnOfACut(order: Order, ifaces: seq<Interface>, b: seq<Byte>, n: nat)
    requires n <= |b|
    ensures NextTurn(order, ifaces, b[..n]) == Stop || NextTurn(order, ifaces, b[..n]) == NextTurn(order, ifaces, b)
  {
    hide GetU32, InterfaceTurn, EnhancedTurn, SimpleTurn;
    var cut := b[..n];
    if 8 <= n {
      SliceOfACut(b, n, 0, 4);
      SliceOfACut(b, n, 4, 8);
      SameWord(order, cut, 0, b, 0);
      SameWord(order, cut, 4, b, 4);
      SameWord(Little, cut, 4, b, 4);
      SameWord(Big, cut, 4, b, 4);
      var size := GetU32(order, b, 4);
      if 12 <= n {
        SliceOfACut(b, n, 8, 12);
      }
      if 12 <= size <= n {
        SliceOfACut(b, n, 8, size - 4);
      }
    }
  }

  ghost predicate CutShort(cut: Capture, whole: Capture) {
    cut.packets <= whole.packets && (cut.failure.None? || cut == whole)
  }

  lemma {:induction false} BlocksOfACut(order: Order, ifaces: seq<Interface>, b: seq<Byte>, n: nat)
    requires n <= |b|
    ensures CutShort(Blocks(order, ifaces, b[..n]), Blocks(order, ifaces, b))
    decreases |b|
  {
    hide NextTurn;
    TurnOfACut(order, ifaces, b, n);
    var t := NextTurn(order, ifaces, b[..n]);
    if t.Consume? {
      if t.size <= n {
        assert b[..n][t.size..] == From(b, t.size)[..n - t.size];
        BlocksOfACut(t.order, t.ifaces, From(b, t.size), n - t.size);
      } else {
        assert From(b[..n], t.size) == From(b, t.size)[..0];
        BlocksOfACut(t.order, t.ifaces, From(b, t.size), 0);
      }
    }
  }

  /** Whatever the file, a cut of it reads as a prefix of its packets, and raises nothing the
      file does not, but for one too short for a file header. */
  lemma CutOfAnyFile(file: seq<Byte>, n: nat)
    requires n <= |file|
    ensures var cut, whole := CaptureOf(file[..n]), CaptureOf(file);
            CutShort(cut, whole) || cut == Capture([], Some(if n < 4 then TooShort else TruncatedHeader))
  {
    hide Records, Blocks, GetU32;
    var cut := file[..n];
    if 4 <= n {
      assert cut[..4] == file[..4];
      var flavour := FlavourOf(file[..4]);
      if flavour.Some? && 24 <= n {
        assert cut[20..24] == file[20..24] && cut[24..] == file[24..][..n - 24];
        SameWord(flavour.value.order, cut, 20, file, 20);
        RecordsOfACut(flavour.value, GetU32(flavour.value.order, file, 20) % U16_END, file[24..], n - 24);
      } else if flavour.None? && file[..4] == SECTION {
        BlocksOfACut(Little, [], file, n);
      }
    }
  }
}
