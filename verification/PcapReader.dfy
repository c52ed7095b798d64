/** The capture file readers of bench/fer-capture/fer_capture/pcap.py. A generator that yields
    packets and then returns or raises is the list of its packets and the exception, if any. */
module PcapReader {
  import opened Bytes
  import opened Wrappers

  const NANOS := 1_000_000_000

  datatype Packet = Packet(ts: int, linktype: nat, data: seq<Byte>, orig: nat)

  /** `ShortBlock` is the `struct.error` of a body too short for its fields, and
      `EmptyResolution` the `IndexError` of an empty `if_tsresol`. */
  datatype Failure =
    | TooShort | UnknownMagic | TruncatedHeader
    | BadByteOrder | BadSectionLength | BadBlockLength | ShortBlock | EmptyResolution

  datatype Capture = Capture(packets: seq<Packet>, failure: Option<Failure>)

  function Prepended(packet: Option<Packet>, c: Capture): Capture {
    if packet.None? then c else Capture([packet.value] + c.packets, c.failure)
  }

  /** `body[off:off + n]`, which stops at the end of `b`. */
  function Slice(b: seq<Byte>, off: nat, n: nat): (r: seq<Byte>)
    ensures |r| <= n
  {
    var from := if off < |b| then off else |b|;
    var to := if off + n < |b| then off + n else |b|;
    b[from..to]
  }

  function From(b: seq<Byte>, off: nat): seq<Byte> {
    if off <= |b| then b[off..] else []
  }

  /** Reading at a cursor is slicing what the cursor has not passed. */
  lemma SliceAt(file: seq<Byte>, pos: nat, off: nat, n: nat)
    ensures var b := From(file, pos);
            if off + n <= |b| then Slice(file, pos + off, n) == b[off..off + n]
            else n == 0 || |Slice(file, pos + off, n)| < n
  {
  }

  // ---------------------------------------------------------------------------------------
  // Classic pcap
  // ---------------------------------------------------------------------------------------

  const MICROS_LITTLE: seq<Byte> := [0xd4, 0xc3, 0xb2, 0xa1]
  const MICROS_BIG: seq<Byte> := [0xa1, 0xb2, 0xc3, 0xd4]
  const NANOS_LITTLE: seq<Byte> := [0x4d, 0x3c, 0xb2, 0xa1]
  const NANOS_BIG: seq<Byte> := [0xa1, 0xb2, 0x3c, 0x4d]

  datatype Flavour = Flavour(order: Order, mult: nat)

  function FlavourOf(magic: seq<Byte>): Option<Flavour> {
    if magic == MICROS_LITTLE then Some(Flavour(Little, 1000))
    else if magic == MICROS_BIG then Some(Flavour(Big, 1000))
    else if magic == NANOS_LITTLE then Some(Flavour(Little, 1))
    else if magic == NANOS_BIG then Some(Flavour(Big, 1))
    else None
  }

  function RecordPacket(f: Flavour, linktype: nat, header: seq<Byte>, data: seq<Byte>): Packet
    requires |header| == 16
  {
    Packet(GetU32(f.order, header, 0) * NANOS + GetU32(f.order, header, 4) * f.mult, linktype, data,
           GetU32(f.order, header, 12))
  }

  /** The records that lie wholly in `b`. */
  ghost function Records(f: Flavour, linktype: nat, b: seq<Byte>): seq<Packet> {
    if |b| < 16 then []
    else
      var incl := GetU32(f.order, b[..16], 8);
      if |b| < 16 + incl then []
      else [RecordPacket(f, linktype, b[..16], b[16..16 + incl])] + Records(f, linktype, b[16 + incl..])
  }

  ghost function ClassicCapture(f: Flavour, file: seq<Byte>): Capture {
    if |file| < 24 then Capture([], Some(TruncatedHeader))
    else Capture(Records(f, GetU32(f.order, file, 20) % U16_END, file[24..]), None)
  }

  lemma NextRecord(f: Flavour, linktype: nat, file: seq<Byte>, pos: nat)
    requires pos + 16 <= |file|
    ensures var end := pos + 16 + GetU32(f.order, file[pos..pos + 16], 8);
            if |file| < end then Records(f, linktype, file[pos..]) == []
            else
              Records(f, linktype, file[pos..]) ==
              [RecordPacket(f, linktype, file[pos..pos + 16], file[pos + 16..end])] + Records(f, linktype, file[end..])
  {
    hide GetU32, RecordPacket;
    var b, incl := file[pos..], GetU32(f.order, file[pos..pos + 16], 8);
    assert b[..16] == file[pos..pos + 16];
    if pos + 16 + incl <= |file| {
      assert b[16..16 + incl] == file[pos + 16..pos + 16 + incl];
      assert b[16 + incl..] == file[pos + 16 + incl..];
    }
  }

  method ReadClassic(file: seq<Byte>, f: Flavour) returns (c: Capture)
    requires 4 <= |file|
    ensures c == ClassicCapture(f, file)
  {
    hide Records, GetU32, RecordPacket;
    var header := Slice(file, 4, 20);
    if |header| < 20 {
      return Capture([], Some(TruncatedHeader));
    }
    var pos := 24;
    var network := GetU32(f.order, header, 16);
    SameWord(f.order, header, 16, file, 20);
    var linktype := network % U16_END;
    var packets: seq<Packet> := [];
    while true
      invariant 24 <= pos <= |file|
      invariant packets + Records(f, linktype, file[pos..]) == Records(f, linktype, file[24..])
      decreases |file| - pos
    {
      var header := Slice(file, pos, 16);
      if |header| < 16 {
        NoRecord(f, linktype, file[pos..]);
        return Capture(packets, None);
      }
      NextRecord(f, linktype, file, pos);
      var incl := GetU32(f.order, header, 8);
      var data := Slice(file, pos + 16, incl);
      if |data| < incl {
        return Capture(packets, None);
      }
      packets := packets + [RecordPacket(f, linktype, header, data)];
      pos := pos + 16 + incl;
    }
  }

  lemma NoRecord(f: Flavour, linktype: nat, b: seq<Byte>)
    requires |b| < 16
    ensures Records(f, linktype, b) == []
  {
  }

  lemma SameWord(order: Order, a: seq<Byte>, i: nat, b: seq<Byte>, j: nat)
    requires i + 4 <= |a| && j + 4 <= |b| && a[i..i + 4] == b[j..j + 4]
    ensures GetU32(order, a, i) == GetU32(order, b, j)
  {
    var x, y := a[i..i + 4], b[j..j + 4];
    assert a[i] == x[0] == y[0] == b[j] && a[i + 1] == x[1] == y[1] == b[j + 1];
    assert a[i + 2] == x[2] == y[2] == b[j + 2] && a[i + 3] == x[3] == y[3] == b[j + 3];
  }

  // ---------------------------------------------------------------------------------------
  // pcapng
  // ---------------------------------------------------------------------------------------

  const SECTION: seq<Byte> := [0x0a, 0x0d, 0x0d, 0x0a]
  const MAGIC_LITTLE: seq<Byte> := [0x4d, 0x3c, 0x2b, 0x1a]
  const MAGIC_BIG: seq<Byte> := [0x1a, 0x2b, 0x3c, 0x4d]

  datatype Interface = Interface(linktype: nat, tsresol: Byte, offset: int)

  function Power(base: nat, n: nat): (p: nat)
    ensures 0 < base ==> 0 < p
  {
    if n == 0 then 1 else base * Power(base, n - 1)
  }

  function TicksToNanos(ticks: nat, tsresol: Byte): nat {
    if 128 <= tsresol then ticks * NANOS / Power(2, tsresol - 128)
    else ticks * NANOS / Power(10, tsresol)
  }

  type OptionMap = map<nat, seq<Byte>>

  function Padding(n: nat): nat {
    (4 - n % 4) % 4
  }

  /** The options from `off` on. An earlier one overrides a later one of the same code. */
  ghost function OptionsFrom(order: Order, body: seq<Byte>, off: nat): OptionMap
    decreases |body| - off
  {
    if |body| < off + 4 || GetU16(order, body, off) == 0 then map[]
    else
      var length := GetU16(order, body, off + 2);
      OptionsFrom(order, body, off + 4 + length + Padding(length))
        [GetU16(order, body, off) := Slice(body, off + 4, length)]
  }

  /** An option already there stands; the rest of the list is the same either way. */
  lemma FirstWins(later: OptionMap, out: OptionMap, code: nat, val: seq<Byte>)
    ensures later[code := val] + out == later + if code in out then out else out[code := val]
  {
  }

  method ParseOptions(body: seq<Byte>, order: Order) returns (out: OptionMap)
    ensures out == OptionsFrom(order, body, 0)
  {
    hide GetU16, Padding, Slice;
    out := map[];
    var off := 0;
    while off + 4 <= |body|
      invariant OptionsFrom(order, body, off) + out == OptionsFrom(order, body, 0)
      decreases |body| - off
    {
      var code, length := GetU16(order, body, off), GetU16(order, body, off + 2);
      off := off + 4;
      if code == 0 {
        break;
      }
      var val := Slice(body, off, length);
      FirstWins(OptionsFrom(order, body, off + length + Padding(length)), out, code, val);
      off := off + length + Padding(length);
      if code !in out {
        out := out[code := val];
      }
    }
  }

  /** `struct.unpack("q")`: eight bytes as a signed number. */
  function GetI64(order: Order, b: seq<Byte>): int
    requires 8 <= |b|
  {
    var first, second := GetU32(order, b, 0), GetU32(order, b, 4);
    var n := if order == Big then first * U32_END + second else second * U32_END + first;
    if n < 0x8000_0000_0000_0000 then n else n - 0x1_0000_0000_0000_0000
  }

  function OffsetOf(options: OptionMap, order: Order): int {
    if 14 in options && 8 <= |options[14]| then GetI64(order, options[14][..8]) * NANOS else 0
  }

  /** What one turn of the loop does: stop quietly, raise, or consume a block, with the byte
      order and the interfaces after it and the packet it yields. */
  datatype Turn =
    | Stop
    | Raise(failure: Failure)
    | Consume(size: nat, order: Order, ifaces: seq<Interface>, packet: Option<Packet>)

  function SectionTurn(b: seq<Byte>): Turn
    requires 8 <= |b|
  {
    if |b| < 12 then Stop
    else if b[8..12] != MAGIC_LITTLE && b[8..12] != MAGIC_BIG then Raise(BadByteOrder)
    else
      var order := if b[8..12] == MAGIC_LITTLE then Little else Big;
      var size := GetU32(order, b, 4);
      if size < 16 then Raise(BadSectionLength) else Consume(size, order, [], None)
  }

  ghost function InterfaceTurn(size: nat, order: Order, ifaces: seq<Interface>, body: seq<Byte>): Turn {
    if |body| < 2 then Raise(ShortBlock)
    else
      var options := OptionsFrom(order, From(body, 8), 0);
      if 9 in options && options[9] == [] then Raise(EmptyResolution)
      else
        var tsresol := if 9 in options then options[9][0] else 6;
        Consume(size, order, ifaces + [Interface(GetU16(order, body, 0), tsresol, OffsetOf(options, order))], None)
  }

  function EnhancedTurn(size: nat, order: Order, ifaces: seq<Interface>, body: seq<Byte>): Turn {
    if |body| < 20 then Raise(ShortBlock)
    else if |ifaces| <= GetU32(order, body, 0) then Consume(size, order, ifaces, None)
    else
      var iface := ifaces[GetU32(order, body, 0)];
      var ticks := GetU32(order, body, 4) * U32_END + GetU32(order, body, 8);
      Consume(size, order, ifaces,
              Some(Packet(TicksToNanos(ticks, iface.tsresol) + iface.offset, iface.linktype,
                          Slice(body, 20, GetU32(order, body, 12)), GetU32(order, body, 16))))
  }

  function SimpleTurn(size: nat, order: Order, ifaces: seq<Interface>, body: seq<Byte>): Turn {
    if ifaces == [] then Consume(size, order, ifaces, None)
    else if |body| < 4 then Raise(ShortBlock)
    else
      var orig := GetU32(order, body, 0);
      Consume(size, order, ifaces, Some(Packet(0, ifaces[0].linktype, Slice(body, 4, orig), orig)))
  }

  ghost function BodyTurn(btype: nat, size: nat, order: Order, ifaces: seq<Interface>, body: seq<Byte>): Turn {
    if btype == 1 then InterfaceTurn(size, order, ifaces, body)
    else if btype == 6 then EnhancedTurn(size, order, ifaces, body)
    else if btype == 3 then SimpleTurn(size, order, ifaces, body)
    else Consume(size, order, ifaces, None)
  }

  ghost function BlockTurn(order: Order, ifaces: seq<Interface>, b: seq<Byte>): Turn
    requires 8 <= |b|
  {
    var size := GetU32(order, b, 4);
    if size < 12 then Raise(BadBlockLength)
    else if |b| < size then Stop
    else BodyTurn(GetU32(order, b, 0), size, order, ifaces, b[8..size - 4])
  }

  ghost function NextTurn(order: Order, ifaces: seq<Interface>, b: seq<Byte>): (t: Turn)
    ensures t.Consume? ==> 12 <= t.size && 8 <= |b|
  {
    if |b| < 8 then Stop
    else if b[..4] == SECTION then SectionTurn(b)
    else BlockTurn(order, ifaces, b)
  }

  ghost function Blocks(order: Order, ifaces: seq<Interface>, b: seq<Byte>): Capture
    decreases |b|
  {
    var t := NextTurn(order, ifaces, b);
    if t.Stop? then Capture([], None)
    else if t.Raise? then Capture([], Some(t.failure))
    else Prepended(t.packet, Blocks(t.order, t.ifaces, From(b, t.size)))
  }

  /** What reading from a cursor yields, with what was yielded before it put first. */
  ghost function Resumed(packets: seq<Packet>, order: Order, ifaces: seq<Interface>, file: seq<Byte>,
                         pos: nat): Capture {
    var c := Blocks(order, ifaces, From(file, pos));
    Capture(packets + c.packets, c.failure)
  }

  lemma Resume(packets: seq<Packet>, order: Order, ifaces: seq<Interface>, file: seq<Byte>, pos: nat)
    ensures var t := NextTurn(order, ifaces, From(file, pos));
            Resumed(packets, order, ifaces, file, pos) ==
            if t.Stop? then Capture(packets, None)
            else if t.Raise? then Capture(packets, Some(t.failure))
            else
              Resumed(if t.packet.None? then packets else packets + [t.packet.value],
                      t.order, t.ifaces, file, pos + t.size)
  {
    hide NextTurn;
    var b := From(file, pos);
    var t := NextTurn(order, ifaces, b);
    if t.Consume? {
      assert From(b, t.size) == From(file, pos + t.size);
      var rest := Blocks(t.order, t.ifaces, From(file, pos + t.size));
      if t.packet.Some? {
        assert packets + ([t.packet.value] + rest.packets) == packets + [t.packet.value] + rest.packets;
      }
    }
  }

  method ReadInterface(size: nat, order: Order, ifaces: seq<Interface>, body: seq<Byte>) returns (t: Turn)
    ensures t == InterfaceTurn(size, order, ifaces, body)
  {
    hide OptionsFrom, GetU16, GetI64;
    if |body| < 2 {
      return Raise(ShortBlock);
    }
    var linktype := GetU16(order, body, 0);
    var options := ParseOptions(From(body, 8), order);
    if 9 in options && options[9] == [] {
      return Raise(EmptyResolution);
    }
    var tsresol := if 9 in options then options[9][0] else 6;
    t := Consume(size, order, ifaces + [Interface(linktype, tsresol, OffsetOf(options, order))], None);
  }

  /** One turn of the loop of `_read_pcapng`, at the cursor `pos`. */
  method ReadBlock(file: seq<Byte>, pos: nat, order: Order, ifaces: seq<Interface>) returns (t: Turn)
    ensures t == NextTurn(order, ifaces, From(file, pos))
  {
    hide SectionTurn, BlockTurn, Slice, From;
    SliceAt(file, pos, 0, 8);
    var head := Slice(file, pos, 8);
    if |head| < 8 {
      return Stop;
    }
    assert head[..4] == From(file, pos)[..4];
    if head[..4] == SECTION {
      t := ReadSection(file, pos, head);
    } else {
      t := ReadOther(file, pos, head, order, ifaces);
    }
  }

  method ReadSection(file: seq<Byte>, pos: nat, head: seq<Byte>) returns (t: Turn)
    requires 8 <= |From(file, pos)| && head == From(file, pos)[..8]
    ensures t == SectionTurn(From(file, pos))
  {
    hide GetU32, Slice, From;
    SliceAt(file, pos, 8, 4);
    var bom := Slice(file, pos + 8, 4);
    if |bom| < 4 {
      return Stop;
    }
    if bom != MAGIC_LITTLE && bom != MAGIC_BIG {
      return Raise(BadByteOrder);
    }
    var order := if bom == MAGIC_LITTLE then Little else Big;
    SameWord(order, head, 4, From(file, pos), 4);
    var length := GetU32(order, head, 4);
    t := if length < 16 then Raise(BadSectionLength) else Consume(length, order, [], None);
  }

  method ReadOther(file: seq<Byte>, pos: nat, head: seq<Byte>, order: Order, ifaces: seq<Interface>) returns (t: Turn)
    requires 8 <= |From(file, pos)| && head == From(file, pos)[..8]
    ensures t == BlockTurn(order, ifaces, From(file, pos))
  {
    hide GetU32, Slice, From, InterfaceTurn, EnhancedTurn, SimpleTurn;
    SameWord(order, head, 0, From(file, pos), 0);
    SameWord(order, head, 4, From(file, pos), 4);
    var btype, length := GetU32(order, head, 0), GetU32(order, head, 4);
    if length < 12 {
      return Raise(BadBlockLength);
    }
    SliceAt(file, pos, 8, length - 12);
    var body := Slice(file, pos + 8, length - 12);
    if |body| < length - 12 {
      return Stop;
    }
    SliceAt(file, pos, length - 4, 4);
    var trailer := Slice(file, pos + (length - 4), 4);
    if |trailer| < 4 {
      return Stop;
    }
    if btype == 1 {
      t := ReadInterface(length, order, ifaces, body);
    } else if btype == 6 {
      t := EnhancedTurn(length, order, ifaces, body);
    } else if btype == 3 {
      t := SimpleTurn(length, order, ifaces, body);
    } else {
      t := Consume(length, order, ifaces, None);
    }
  }

  method ReadPcapng(file: seq<Byte>) returns (c: Capture)
    ensures c == Blocks(Little, [], file)
  {
    hide NextTurn, Blocks, Resumed;
    var pos, order, ifaces, packets := 0, Little, [], [];
    Started(file);
    while true
      invariant Resumed(packets, order, ifaces, file, pos) == Blocks(Little, [], file)
      decreases |file| - pos
    {
      Resume(packets, order, ifaces, file, pos);
      var t := ReadBlock(file, pos, order, ifaces);
      if t.Stop? {
        return Capture(packets, None);
      } else if t.Raise? {
        return Capture(packets, Some(t.failure));
      }
      pos, order, ifaces := pos + t.size, t.order, t.ifaces;
      if t.packet.Some? {
        packets := packets + [t.packet.value];
      }
    }
  }

  lemma Started(file: seq<Byte>)
    ensures Resumed([], Little, [], file, 0) == Blocks(Little, [], file)
  {
    hide Blocks;
  }

  // ---------------------------------------------------------------------------------------
  // `read_packets`
  // ---------------------------------------------------------------------------------------

  ghost function CaptureOf(file: seq<Byte>): Capture {
    if |file| < 4 then Capture([], Some(TooShort))
    else if FlavourOf(file[..4]).Some? then ClassicCapture(FlavourOf(file[..4]).value, file)
    else if file[..4] == SECTION then Blocks(Little, [], file)
    else Capture([], Some(UnknownMagic))
  }

  method ReadPackets(file: seq<Byte>) returns (c: Capture)
    ensures c == CaptureOf(file)
  {
    hide ClassicCapture, Blocks;
    var magic := Slice(file, 0, 4);
    if |magic| < 4 {
      return Capture([], Some(TooShort));
    }
    var flavour := FlavourOf(magic);
    if flavour.Some? {
      c := ReadClassic(file, flavour.value);
    } else if magic == SECTION {
      c := ReadPcapng(file);
    } else {
      c := Capture([], Some(UnknownMagic));
    }
  }
}
