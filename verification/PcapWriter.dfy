/** The capture file writers of bench/fer-capture/fer_capture/selftest.py. */
module PcapWriter {
  import opened Bytes
  import opened PcapReader

  datatype Frame = Frame(ts: nat, data: seq<Byte>)

  const SNAPLEN := 262144

  function MagicOf(order: Order, nano: bool): (m: seq<Byte>)
    ensures |m| == 4
  {
    match (order, nano)
    case (Little, false) => MICROS_LITTLE
    case (Big, false) => MICROS_BIG
    case (Little, true) => NANOS_LITTLE
    case (Big, true) => NANOS_BIG
  }

  /** What `struct.pack` demands of a frame. */
  predicate FitsPcap(frame: Frame) {
    frame.ts / NANOS < U32_END && |frame.data| < U32_END
  }

  function PcapHeader(order: Order, nano: bool, linktype: nat): (h: seq<Byte>)
    requires linktype < U32_END
    ensures |h| == 24
  {
    MagicOf(order, nano) + PutU16(order, 2) + PutU16(order, 4) + PutU32(order, 0) + PutU32(order, 0)
      + PutU32(order, SNAPLEN) + PutU32(order, linktype)
  }

  function Fraction(ts: nat, nano: bool): (n: nat)
    ensures n < NANOS
  {
    if nano then ts % NANOS else ts % NANOS / 1000
  }

  function RecordHeader(order: Order, nano: bool, frame: Frame): (h: seq<Byte>)
    requires FitsPcap(frame)
    ensures |h| == 16
  {
    PutU32(order, frame.ts / NANOS) + PutU32(order, Fraction(frame.ts, nano))
      + PutU32(order, |frame.data|) + PutU32(order, |frame.data|)
  }

  function RecordOf(order: Order, nano: bool, frame: Frame): seq<Byte>
    requires FitsPcap(frame)
  {
    RecordHeader(order, nano, frame) + frame.data
  }

  ghost predicate AllFitPcap(frames: seq<Frame>) {
    forall i | 0 <= i < |frames| :: FitsPcap(frames[i])
  }

  ghost function RecordsOf(order: Order, nano: bool, frames: seq<Frame>): seq<Byte>
    requires AllFitPcap(frames)
  {
    if frames == [] then [] else RecordOf(order, nano, frames[0]) + RecordsOf(order, nano, frames[1..])
  }

  method WritePcap(frames: seq<Frame>, order: Order, nano: bool, linktype: nat) returns (file: seq<Byte>)
    requires AllFitPcap(frames) && linktype < U32_END
    ensures file == PcapHeader(order, nano, linktype) + RecordsOf(order, nano, frames)
  {
    hide PcapHeader, RecordOf;
    file := PcapHeader(order, nano, linktype);
    for i := 0 to |frames|
      invariant file + RecordsOf(order, nano, frames[i..]) ==
                PcapHeader(order, nano, linktype) + RecordsOf(order, nano, frames)
    {
      assert frames[i..][1..] == frames[i + 1..];
      var bytes := RecordOf(order, nano, frames[i]);
      assert file + (bytes + RecordsOf(order, nano, frames[i + 1..]))
          == file + bytes + RecordsOf(order, nano, frames[i + 1..]);
      file := file + bytes;
    }
  }

  // ---------------------------------------------------------------------------------------
  // pcapng
  // ---------------------------------------------------------------------------------------

  /** `10 ** (9 - tsresol)`: the nanoseconds of one tick. */
  function Unit(tsresol: nat): (u: nat)
    requires tsresol <= 9
    ensures 0 < u
  {
    Power(10, 9 - tsresol)
  }

  function Padded(body: seq<Byte>): (p: seq<Byte>)
    ensures |p| % 4 == 0 && |body| <= |p| == |body| + Padding(|body|)
  {
    body + Zeros(Padding(|body|))
  }

  function BlockOf(btype: nat, body: seq<Byte>): (b: seq<Byte>)
    requires btype < U32_END && 12 + |Padded(body)| < U32_END
    ensures |b| == 12 + |Padded(body)|
  {
    PutU32(Little, btype) + PutU32(Little, 12 + |Padded(body)|) + Padded(body) + PutU32(Little, 12 + |Padded(body)|)
  }

  /** The body of the section header: the byte order, version 1.0, and an unknown length. */
  const SECTION_BODY: seq<Byte> :=
    [0x4d, 0x3c, 0x2b, 0x1a, 1, 0, 0, 0, 0xff, 0xff, 0xff, 0xff, 0xff, 0xff, 0xff, 0xff]

  function InterfaceBody(linktype: nat, tsresol: Byte): (b: seq<Byte>)
    requires linktype < U16_END
    ensures |b| == 20
  {
    PutU16(Little, linktype) + PutU16(Little, 0) + PutU32(Little, SNAPLEN)
      + [9, 0, 1, 0, tsresol, 0, 0, 0] + [0, 0, 0, 0]
  }

  predicate FitsPcapng(frame: Frame, tsresol: nat)
    requires tsresol <= 9
  {
    frame.ts / Unit(tsresol) < U32_END * U32_END && 32 + |Padded(frame.data)| < U32_END
  }

  function EnhancedBody(frame: Frame, tsresol: nat): (b: seq<Byte>)
    requires tsresol <= 9 && FitsPcapng(frame, tsresol)
    ensures |b| == 20 + |Padded(frame.data)|
  {
    var ticks := frame.ts / Unit(tsresol);
    PutU32(Little, 0) + PutU32(Little, ticks / U32_END) + PutU32(Little, ticks % U32_END)
      + PutU32(Little, |frame.data|) + PutU32(Little, |frame.data|) + Padded(frame.data)
  }

  ghost predicate AllFitPcapng(frames: seq<Frame>, tsresol: nat)
    requires tsresol <= 9
  {
    forall i | 0 <= i < |frames| :: FitsPcapng(frames[i], tsresol)
  }

  function EnhancedBlock(frame: Frame, tsresol: nat): seq<Byte>
    requires tsresol <= 9 && FitsPcapng(frame, tsresol)
  {
    BlockOf(6, EnhancedBody(frame, tsresol))
  }

  ghost function EnhancedBlocks(frames: seq<Frame>, tsresol: nat): seq<Byte>
    requires tsresol <= 9 && AllFitPcapng(frames, tsresol)
  {
    if frames == [] then [] else EnhancedBlock(frames[0], tsresol) + EnhancedBlocks(frames[1..], tsresol)
  }

  function PcapngHeader(linktype: nat, tsresol: Byte): seq<Byte>
    requires linktype < U16_END
  {
    BlockOf(0x0a0d0d0a, SECTION_BODY) + BlockOf(1, InterfaceBody(linktype, tsresol))
  }

  method WritePcapng(frames: seq<Frame>, linktype: nat, tsresol: nat) returns (file: seq<Byte>)
    requires linktype < U16_END && tsresol <= 9 && AllFitPcapng(frames, tsresol)
    ensures file == PcapngHeader(linktype, tsresol) + EnhancedBlocks(frames, tsresol)
  {
    hide PcapngHeader, EnhancedBlock;
    file := PcapngHeader(linktype, tsresol);
    for i := 0 to |frames|
      invariant file + EnhancedBlocks(frames[i..], tsresol)
                  == PcapngHeader(linktype, tsresol) + EnhancedBlocks(frames, tsresol)
    {
      assert frames[i..][1..] == frames[i + 1..];
      var block := EnhancedBlock(frames[i], tsresol);
      assert file + (block + EnhancedBlocks(frames[i + 1..], tsresol))
          == file + block + EnhancedBlocks(frames[i + 1..], tsresol);
      file := file + block;
    }
  }
}
