/** IPv4 and UDP packets: the builders of bench/fer-capture/fer_capture/selftest.py and the
    parser of bench/fer-capture/fer_capture/reassembly.py (section 3.1 of RFC 791, RFC 1071). */
module Ipv4 {
  import opened Wrappers
  import opened Bytes

  // ---------------------------------------------------------------------------------------
  // The checksum
  // ---------------------------------------------------------------------------------------

  /** The sum of the big-endian 16-bit words; an odd last byte is the high half of a word. */
  function WordSum(b: seq<Byte>): nat {
    if b == [] then 0
    else if |b| == 1 then b[0] * 256
    else Pair(Big, b[0], b[1]) + WordSum(b[2..])
  }

  /** Carries folded back in until none is left. */
  function Fold(s: nat): nat {
    if s < 0x1_0000 then s else Fold(s % 0x1_0000 + s / 0x1_0000)
  }

  function Checksum(b: seq<Byte>): (ck: nat)
    ensures ck < U16_END
  {
    0xffff - Fold16(WordSum(b))
  }

  function Fold16(s: nat): (r: nat)
    ensures r < 0x1_0000
  {
    FoldMeaning(s);
    Fold(s)
  }

  /** Folding ends below 2^16, keeps the sum modulo 2^16 - 1, and only nothing folds to nothing. */
  lemma {:induction false} FoldMeaning(s: nat)
    ensures Fold(s) < 0x1_0000
    ensures Fold(s) % 0xffff == s % 0xffff
    ensures Fold(s) == 0 <==> s == 0
  {
    if s >= 0x1_0000 {
      var q, r := s / 0x1_0000, s % 0x1_0000;
      assert s == q * 0xffff + (r + q);
      ModuloShift(q, r + q);
      FoldMeaning(r + q);
    }
  }

  lemma ModuloShift(q: nat, t: nat)
    ensures (q * 0xffff + t) % 0xffff == t % 0xffff
  {
    if q > 0 {
      ModuloShift(q - 1, t);
      assert q * 0xffff + t == ((q - 1) * 0xffff + t) + 0xffff;
    }
  }

  lemma FoldOnce(s: nat)
    ensures Fold(s) == if s < 0x1_0000 then s else Fold(s % 0x1_0000 + s / 0x1_0000)
  {
  }

  lemma NextWord(b: seq<Byte>, i: nat)
    requires i + 1 < |b|
    ensures WordSum(b[i..]) == Pair(Big, b[i], b[i + 1]) + WordSum(b[i + 2..])
  {
    assert b[i..][2..] == b[i + 2..];
  }

  lemma NoWords(b: seq<Byte>)
    ensures b == [] ==> WordSum(b) == 0
  {
  }

  /** `_ip_checksum`: pad, sum, fold, complement. */
  method ComputeChecksum(hdr: seq<Byte>) returns (ck: nat)
    ensures ck == Checksum(hdr) < 0x1_0000
  {
    hide WordSum, Fold, Pair;
    var padded := hdr;
    if |hdr| % 2 == 1 {
      padded := hdr + [0];
    }
    PaddingAddsNothing(hdr);
    assert padded[0..] == padded;
    var s: nat := 0;
    var i := 0;
    while i < |padded|
      invariant 0 <= i <= |padded| && i % 2 == 0
      invariant s + WordSum(padded[i..]) == WordSum(hdr)
    {
      NextWord(padded, i);
      s := s + Pair(Big, padded[i], padded[i + 1]);
      i := i + 2;
    }
    NoWords(padded[i..]);
    while s >= 0x1_0000
      invariant 0 <= s && Fold(s) == Fold(WordSum(hdr))
      decreases s
    {
      FoldOnce(s);
      s := s % 0x1_0000 + s / 0x1_0000;
    }
    FoldOnce(s);
    ck := 0xffff - s;
  }

  lemma {:induction false} PaddingAddsNothing(b: seq<Byte>)
    ensures |b| % 2 == 1 ==> WordSum(b + [0]) == WordSum(b)
  {
    if |b| >= 2 {
      PaddingAddsNothing(b[2..]);
      assert (b + [0])[2..] == b[2..] + [0];
    }
  }

  lemma {:induction false} WordSumConcat(a: seq<Byte>, b: seq<Byte>)
    requires |a| % 2 == 0
    ensures WordSum(a + b) == WordSum(a) + WordSum(b)
  {
    if a == [] {
      assert a + b == b;
    } else {
      WordSumConcat(a[2..], b);
      assert (a + b)[2..] == a[2..] + b;
    }
  }

  lemma WordSumOfWord(n: nat)
    requires n < 0x1_0000
    ensures WordSum(PutU16(Big, n)) == n
  {
    var w := PutU16(Big, n);
    assert w[2..] == [];
    assert WordSum(w) == Pair(Big, w[0], w[1]) + WordSum(w[2..]);
  }

  /** A header that carries its own checksum, in any even place, sums to a checksum of zero. */
  lemma ChecksumVerifies(front: seq<Byte>, back: seq<Byte>)
    requires |front| % 2 == 0
    ensures var ck := Checksum(front + PutU16(Big, 0) + back);
            Checksum(front + PutU16(Big, ck) + back) == 0
  {
    hide WordSum, Fold;
    var ck := Checksum(front + PutU16(Big, 0) + back);
    SumWithWord(front, 0, back);
    SumWithWord(front, ck, back);
    var s := WordSum(front) + WordSum(back);
    FoldMeaning(s);
    FoldMeaning(s + ck);
    SumsToZero(s, Fold(s));
    OnlyTheLast(Fold(s + ck));
  }

  lemma SumWithWord(front: seq<Byte>, n: nat, back: seq<Byte>)
    requires |front| % 2 == 0 && n < U16_END
    ensures WordSum(front + PutU16(Big, n) + back) == WordSum(front) + n + WordSum(back)
  {
    WordSumConcat(front + PutU16(Big, n), back);
    WordSumConcat(front, PutU16(Big, n));
    WordSumOfWord(n);
  }

  lemma OnlyTheLast(r: nat)
    requires r % 0xffff == 0 && 0 < r < 0x1_0000
    ensures r == 0xffff
  {
  }

  lemma SumsToZero(s: nat, f: nat)
    requires f < 0x1_0000 && f % 0xffff == s % 0xffff
    ensures (s + (0xffff - f)) % 0xffff == 0
  {
    var a, b := s / 0xffff, f / 0xffff;
    assert s == a * 0xffff + s % 0xffff && f == b * 0xffff + f % 0xffff;
    assert s + (0xffff - f) == (a - b + 1) * 0xffff;
    MultipleIsZero(a - b + 1);
  }

  lemma MultipleIsZero(k: int)
    ensures k * 0xffff % 0xffff == 0
  {
  }

  // ---------------------------------------------------------------------------------------
  // Packets
  // ---------------------------------------------------------------------------------------

  type Address = a: seq<Byte> | |a| == 4 witness [0, 0, 0, 0]

  /** The header up to the checksum, and from the addresses on. */
  function HeaderFront(ident: nat, fragOff: nat, mf: bool, total: nat): (b: seq<Byte>)
    requires ident < U16_END && total < U16_END && fragOff / 8 < 0x2000
    ensures |b| == 10
  {
    [0x45, 0] + PutU16(Big, total) + PutU16(Big, ident) +
    PutU16(Big, (if mf then 0x2000 else 0) + fragOff / 8) + [64, 17]
  }

  /** What `struct.pack` takes: a total length and an offset that fit their fields. */
  predicate Packable(ident: nat, fragOff: nat, payload: seq<Byte>) {
    ident < U16_END && 20 + |payload| < U16_END && fragOff < U16_END
  }

  /** `_ipv4`. */
  function IpPacket(src: Address, dst: Address, ident: nat, fragOff: nat, mf: bool, payload: seq<Byte>): seq<Byte>
    requires Packable(ident, fragOff, payload)
  {
    var front := HeaderFront(ident, fragOff, mf, 20 + |payload|);
    front + PutU16(Big, Checksum(front + PutU16(Big, 0) + src + dst)) + src + dst + payload
  }

  datatype Packet = Packet(src: Address, dst: Address, ident: nat, fragOff: nat, mf: bool, proto: Byte,
                           body: seq<Byte>, truncated: bool)

  /** The head of `Reassembler.add`: `None` is a packet it ignores. */
  function ParseIp(ip: seq<Byte>): Option<Packet> {
    if |ip| < 20 || ip[0] / 16 != 4 then None
    else
      var ihl := ip[0] % 16 * 4;
      if ihl < 20 || |ip| < ihl then None
      else
        var total := GetU16(Big, ip, 2);
        var flags := GetU16(Big, ip, 6);
        var end := if total > |ip| then |ip| else total;
        var body := if total >= ihl then ip[ihl..end] else ip[ihl..];
        var truncated := |body| < total - ihl;
        Some(Packet(ip[12..16], ip[16..20], GetU16(Big, ip, 4), flags % 0x2000 * 8, flags / 0x2000 % 2 == 1, ip[9],
                    if truncated then ip[ihl..] else body, truncated))
  }

  /** Every header `_ipv4` builds checks to zero. */
  lemma HeaderVerifies(src: Address, dst: Address, ident: nat, fragOff: nat, mf: bool, payload: seq<Byte>)
    requires Packable(ident, fragOff, payload)
    ensures |IpPacket(src, dst, ident, fragOff, mf, payload)| == 20 + |payload|
    ensures Checksum(IpPacket(src, dst, ident, fragOff, mf, payload)[..20]) == 0
  {
    var front := HeaderFront(ident, fragOff, mf, 20 + |payload|);
    ChecksumVerifies(front, src + dst);
    assert front + PutU16(Big, 0) + src + dst == front + PutU16(Big, 0) + (src + dst);
    var ck := Checksum(front + PutU16(Big, 0) + src + dst);
    assert IpPacket(src, dst, ident, fragOff, mf, payload)[..20] == front + PutU16(Big, ck) + (src + dst);
  }

  lemma BackFields(front: seq<Byte>, ck: seq<Byte>, src: Address, dst: Address, payload: seq<Byte>, padding: seq<Byte>)
    requires |front| == 10 && |ck| == 2
    ensures var ip := front + ck + src + dst + payload + padding;
            && |ip| == 20 + |payload| + |padding|
            && ip[..10] == front && ip[12..16] == src && ip[16..20] == dst && ip[20..20 + |payload|] == payload
  {
  }

  /** What `_ipv4` builds parses back, link-layer padding and all. */
  lemma PacketRoundTrip(src: Address, dst: Address, ident: nat, fragOff: nat, mf: bool, payload: seq<Byte>,
                        padding: seq<Byte>)
    requires Packable(ident, fragOff, payload) && fragOff % 8 == 0
    ensures ParseIp(IpPacket(src, dst, ident, fragOff, mf, payload) + padding) ==
            Some(Packet(src, dst, ident, fragOff, mf, 17, payload, false))
  {
    var packet := IpPacket(src, dst, ident, fragOff, mf, payload);
    var ip := packet + padding;
    HeaderBytes(src, dst, ident, fragOff, mf, payload);
    ParsedFields(ip);
    hide ParseIp, IpPacket;
    assert forall i | 0 <= i < 10 :: ip[i] == packet[i];
    assert ip[12..16] == packet[12..16] && ip[16..20] == packet[16..20];
    assert ip[20..20 + |payload|] == packet[20..];
  }

  // ---------------------------------------------------------------------------------------
  // UDP
  // ---------------------------------------------------------------------------------------

  /** `_udp`. */
  function UdpDatagram(sport: nat, dport: nat, payload: seq<Byte>): (b: seq<Byte>)
    requires sport < U16_END && dport < U16_END && 8 + |payload| < U16_END
    ensures |b| == 8 + |payload|
  {
    PutU16(Big, sport) + PutU16(Big, dport) + PutU16(Big, 8 + |payload|) + PutU16(Big, 0) + payload
  }

  datatype UdpPorts = UdpPorts(sport: nat, dport: nat, payload: seq<Byte>)

  /** The head of `_finish`. */
  function ParseUdp(udp: seq<Byte>): Option<UdpPorts> {
    if |udp| < 8 then None
    else
      var ulen := GetU16(Big, udp, 4);
      Some(UdpPorts(GetU16(Big, udp, 0), GetU16(Big, udp, 2), if 8 <= ulen <= |udp| then udp[8..ulen] else udp[8..]))
  }

  lemma UdpRoundTrip(sport: nat, dport: nat, payload: seq<Byte>)
    requires sport < U16_END && dport < U16_END && 8 + |payload| < U16_END
    ensures ParseUdp(UdpDatagram(sport, dport, payload)) == Some(UdpPorts(sport, dport, payload))
  {
    var s, d, l, c := PutU16(Big, sport), PutU16(Big, dport), PutU16(Big, 8 + |payload|), PutU16(Big, 0);
    var udp := UdpDatagram(sport, dport, payload);
    assert udp == [] + s + (d + l + c + payload);
    assert udp == s + d + (l + c + payload);
    assert udp == (s + d) + l + (c + payload);
    U16RoundTrip(Big, [], sport, d + l + c + payload);
    U16RoundTrip(Big, s, dport, l + c + payload);
    U16RoundTrip(Big, s + d, 8 + |payload|, c + payload);
    assert udp[8..|udp|] == payload;
  }

  // ---------------------------------------------------------------------------------------
  // Byte by byte
  // ---------------------------------------------------------------------------------------

  /** The header `_ipv4` builds: version 4, five words, no service, the fields, 64 hops, UDP. */
  lemma HeaderBytes(src: Address, dst: Address, ident: nat, fragOff: nat, mf: bool, payload: seq<Byte>)
    requires Packable(ident, fragOff, payload)
    ensures var ip := IpPacket(src, dst, ident, fragOff, mf, payload);
            var total, flag := 20 + |payload|, if mf then 32 else 0;
            && |ip| == total && ip[0] == 0x45 && ip[1] == 0
            && ip[2] == total / 256 && ip[3] == total % 256 && ip[4] == ident / 256 && ip[5] == ident % 256
            && ip[6] == flag + fragOff / 8 / 256 && ip[7] == fragOff / 8 % 256
            && ip[8] == 64 && ip[9] == 17 && ip[12..16] == src && ip[16..20] == dst && ip[20..] == payload
  {
    hide Checksum;
    var front := HeaderFront(ident, fragOff, mf, 20 + |payload|);
    BackFields(front, PutU16(Big, Checksum(front + PutU16(Big, 0) + src + dst)), src, dst, payload, []);
    var ip := IpPacket(src, dst, ident, fragOff, mf, payload);
    assert ip + [] == ip;
    assert forall i | 0 <= i < 10 :: ip[i] == front[i];
    assert ip[20..] == payload;
  }

  /** A packet that is looked at: long enough for its header, and of version 4. */
  predicate HasHeader(ip: seq<Byte>) {
    20 <= |ip| && 64 <= ip[0] < 80 && 5 <= ip[0] % 16 && ip[0] % 16 * 4 <= |ip|
  }

  /** Two bytes, the most significant first. */
  function Word16(b: seq<Byte>, off: nat): nat
    requires off + 2 <= |b|
  {
    b[off] as int * 256 + b[off + 1] as int
  }

  /** Section 3.1 of RFC 791, for any bytes: which packets are looked at, and where each field is. The
      body ends where the length field says, or where the bytes end, which is a truncation; a length
      shorter than the header itself is not believed. */
  lemma ParsedFields(ip: seq<Byte>)
    ensures ParseIp(ip).Some? <==> HasHeader(ip)
    ensures HasHeader(ip) ==>
              var p, head, total := ParseIp(ip).value, ip[0] % 16 * 4, Word16(ip, 2);
              && p.src == ip[12..16] && p.dst == ip[16..20] && p.proto == ip[9] && p.ident == Word16(ip, 4)
              && p.fragOff == Word16(ip, 6) % 0x2000 * 8 && (p.mf <==> ip[6] / 32 % 2 == 1)
              && (p.truncated <==> |ip| < total)
              && p.body == if head <= total <= |ip| then ip[head..total] else ip[head..]
  {
    if HasHeader(ip) {
      FlagBits(ip[6], ip[7]);
    }
  }

  lemma FlagBits(x: int, y: int)
    requires 0 <= x < 256 && 0 <= y < 256
    ensures (x * 256 + y) / 0x2000 % 2 == x / 32 % 2
  {
    assert x == x / 32 * 32 + x % 32;
    assert x * 256 + y == x / 32 * 0x2000 + (x % 32 * 256 + y);
  }

  /** Any eight bytes or more are a UDP datagram; a length field that is too short or too long is not
      believed. */
  lemma ParsedUdp(udp: seq<Byte>)
    ensures ParseUdp(udp).Some? <==> 8 <= |udp|
    ensures 8 <= |udp| ==>
              var u, length := ParseUdp(udp).value, Word16(udp, 4);
              && u.sport == Word16(udp, 0) && u.dport == Word16(udp, 2)
              && u.payload == if 8 <= length <= |udp| then udp[8..length] else udp[8..]
  {
  }
}
