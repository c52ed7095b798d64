/** What the reassembler delivers over a whole capture: fragments in any order, repeated, and
    interleaved with anything else. */
module ReassemblyRuns {
  import opened Wrappers
  import opened Bytes
  import opened Ipv4
  import opened Reassembly

  datatype Delivery = Delivery(ts: int, ip: seq<Byte>)

  function Front<T>(s: seq<T>): seq<T>
    requires s != []
  {
    s[..|s| - 1]
  }

  function Last<T>(s: seq<T>): T
    requires s != []
  {
    s[|s| - 1]
  }

  function After(s: Store, es: seq<Delivery>): Store {
    if es == [] then s else Added(After(s, Front(es)), Last(es).ts, Last(es).ip).0
  }

  /** What the last packet of a capture makes `add` return. */
  function LastOutput(s: Store, es: seq<Delivery>): Option<Datagram>
    requires es != []
  {
    Added(After(s, Front(es)), Last(es).ts, Last(es).ip).1
  }

  // ---------------------------------------------------------------------------------------
  // Keys do not interfere
  // ---------------------------------------------------------------------------------------

  datatype Fragment = Fragment(ts: int, packet: Packet)

  /** The packet as a fragment with this key, if it is one. */
  function FragmentOf(d: Delivery, k: Key): Option<Fragment> {
    match ParseIp(d.ip)
    case Some(p) => if IsFragment(p) && KeyOf(p) == k then Some(Fragment(d.ts, p)) else None
    case None => None
  }

  function ForKey(es: seq<Delivery>, k: Key): seq<Fragment> {
    if es == [] then []
    else ForKey(Front(es), k) + match FragmentOf(Last(es), k) case Some(f) => [f] case None => []
  }

  /** The entry of one key, fed only its own fragments. */
  function Alone(ent: Option<Entry>, fs: seq<Fragment>): Option<Entry> {
    if fs == [] then ent else Stepped(Alone(ent, Front(fs)), Last(fs).ts, Last(fs).packet).0
  }

  function AloneOutput(ent: Option<Entry>, fs: seq<Fragment>): Option<Datagram>
    requires fs != []
  {
    Stepped(Alone(ent, Front(fs)), Last(fs).ts, Last(fs).packet).1
  }

  lemma OneDelivery(s: Store, d: Delivery, k: Key)
    ensures var (t, out) := Added(s, d.ts, d.ip);
            match FragmentOf(d, k)
            case Some(f) => Lookup(t, k) == Stepped(Lookup(s, k), d.ts, f.packet).0
                && out == Stepped(Lookup(s, k), d.ts, f.packet).1
            case None => Lookup(t, k) == Lookup(s, k)
  {
    hide Stepped;
  }

  /** Packets of other keys, and everything that is no fragment, leave a key's entry alone. */
  lemma {:induction false} KeysAreIndependent(s: Store, es: seq<Delivery>, k: Key)
    ensures Lookup(After(s, es), k) == Alone(Lookup(s, k), ForKey(es, k))
    ensures es != [] && FragmentOf(Last(es), k).Some? ==>
              ForKey(es, k) != [] && LastOutput(s, es) == AloneOutput(Lookup(s, k), ForKey(es, k))
  {
    if es != [] {
      hide Stepped, Added, Lookup, FragmentOf;
      KeysAreIndependent(s, Front(es), k);
      OneDelivery(After(s, Front(es)), Last(es), k);
      var own := FragmentOf(Last(es), k);
      if own.Some? {
        var fs := ForKey(es, k);
        assert Front(fs) == ForKey(Front(es), k) && Last(fs) == own.value;
        FragmentTime(Last(es), k);
      } else {
        assert ForKey(es, k) == ForKey(Front(es), k);
      }
    }
  }

  lemma FragmentTime(d: Delivery, k: Key)
    ensures FragmentOf(d, k).Some? ==> FragmentOf(d, k).value.ts == d.ts
  {
  }

  // ---------------------------------------------------------------------------------------
  // Entries that are given up
  // ---------------------------------------------------------------------------------------

  /** Nothing of this entry has come for more than two seconds. */
  predicate Stale(ent: Option<Entry>, ts: int) {
    ent.Some? && ts - ent.value.tLast > 2_000_000_000
  }

  /** A stale entry might as well not be there: what follows is gathered afresh. */
  lemma {:induction false} StaleIsForgotten(ent: Option<Entry>, fs: seq<Fragment>)
    requires fs != [] && Stale(ent, fs[0].ts)
    ensures Alone(ent, fs) == Alone(None, fs) && AloneOutput(ent, fs) == AloneOutput(None, fs)
  {
    hide Extended, Whole, Finish;
    if |fs| > 1 {
      StaleIsForgotten(ent, Front(fs));
    }
  }

  /** The key whose pending entry a packet gives up, if it does. */
  function GaveUp(s: Store, d: Delivery): Option<Key> {
    match ParseIp(d.ip)
    case Some(p) => if IsFragment(p) && Stale(Lookup(s, KeyOf(p)), d.ts) then Some(KeyOf(p)) else None
    case None => None
  }

  /** The entries given up over a capture, of one key and of all others. */
  function GivenUpOf(s: Store, es: seq<Delivery>, k: Key): nat {
    if es == [] then 0
    else GivenUpOf(s, Front(es), k) + if GaveUp(After(s, Front(es)), Last(es)) == Some(k) then 1 else 0
  }

  function GivenUpBut(s: Store, es: seq<Delivery>, k: Key): nat {
    if es == [] then 0
    else
      var gone := GaveUp(After(s, Front(es)), Last(es));
      GivenUpBut(s, Front(es), k) + if gone.Some? && gone != Some(k) then 1 else 0
  }

  lemma GivenUpIsCounted(s: Store, d: Delivery)
    ensures Added(s, d.ts, d.ip).0.incomplete == s.incomplete + if GaveUp(s, d).Some? then 1 else 0
  {
    hide Stepped;
  }

  /** `incomplete` counts the entries given up, whatever they are, and nothing else. */
  lemma {:induction false} IncompleteCounts(s: Store, es: seq<Delivery>, k: Key)
    ensures After(s, es).incomplete == s.incomplete + GivenUpOf(s, es, k) + GivenUpBut(s, es, k)
  {
    hide Added, GaveUp;
    if es != [] {
      IncompleteCounts(s, Front(es), k);
      GivenUpIsCounted(After(s, Front(es)), Last(es));
    }
  }

  /** The fragments of one key by which its entry is given up. */
  function LapsesIn(ent: Option<Entry>, fs: seq<Fragment>): nat {
    if fs == [] then 0 else LapsesIn(ent, Front(fs)) + if Stale(Alone(ent, Front(fs)), Last(fs).ts) then 1 else 0
  }

  lemma OneGivenUp(s: Store, d: Delivery, k: Key)
    ensures GaveUp(s, d) == Some(k) <==> FragmentOf(d, k).Some? && Stale(Lookup(s, k), d.ts)
    ensures FragmentOf(d, k).Some? ==> FragmentOf(d, k).value.ts == d.ts
  {
  }

  lemma LapsesStep(ent: Option<Entry>, fs: seq<Fragment>, f: Fragment)
    ensures LapsesIn(ent, fs + [f]) == LapsesIn(ent, fs) + if Stale(Alone(ent, fs), f.ts) then 1 else 0
  {
    hide Alone;
    assert Front(fs + [f]) == fs;
  }

  lemma {:induction false} GivenUpAlone(s: Store, es: seq<Delivery>, k: Key)
    ensures GivenUpOf(s, es, k) == LapsesIn(Lookup(s, k), ForKey(es, k))
  {
    if es != [] {
      hide Added, Lookup, FragmentOf, GaveUp, Alone, Stale, LapsesIn;
      GivenUpAlone(s, Front(es), k);
      KeysAreIndependent(s, Front(es), k);
      OneGivenUp(After(s, Front(es)), Last(es), k);
      var own := FragmentOf(Last(es), k);
      if own.Some? {
        LapsesStep(Lookup(s, k), ForKey(Front(es), k), own.value);
      } else {
        assert ForKey(es, k) == ForKey(Front(es), k);
      }
    } else {
      assert LapsesIn(Lookup(s, k), []) == 0;
    }
  }

  /** One fragment for a pending entry. After more than two seconds the entry is given up and counted,
      and the fragment is handled as the first of its key; until then all that was gathered is kept,
      with the fragment added, or delivered with it. */
  lemma GivenUpOrKept(s: Store, ts: int, ip: seq<Byte>, p: Packet, ent: Entry)
    requires ParseIp(ip) == Some(p) && IsFragment(p) && Lookup(s, KeyOf(p)) == Some(ent)
    ensures var (t, out) := Added(s, ts, ip);
            var (anew, first) := Added(Store(s.pending - {KeyOf(p)}, s.incomplete), ts, ip);
            var parts := ent.parts + [Part(p.fragOff, p.body)];
            if ts - ent.tLast > 2_000_000_000
            then t.incomplete == s.incomplete + 1 && out == first && t.pending == anew.pending
            else && t.incomplete == s.incomplete
                 && (match Lookup(t, KeyOf(p))
                     case Some(next) =>
                       && out.None? && next.parts == parts && next.n == ent.n + 1
                       && next.tFirst == Min(ent.tFirst, ts) && next.tLast == Max(ent.tLast, ts)
                     case None =>
                       var total := if p.mf then ent.total else Some(p.fragOff + |p.body|);
                       && total.Some? && Assembled(parts, total.value).Some?
                       && out == Finish(Min(ent.tFirst, ts), Max(ent.tLast, ts), p.src, p.dst,
                                        Assembled(parts, total.value).value, ent.n + 1, ent.trunc || p.truncated))
  {
    hide Assembled, Finish, ParseIp;
    var k := KeyOf(p);
    assert (s.pending - {k}) - {k} == s.pending - {k};
    var next := Stepped(None, ts, p).0;
    if next.Some? {
      assert s.pending[k := next.value] == (s.pending - {k})[k := next.value];
    }
  }

  // ---------------------------------------------------------------------------------------
  // The fragments of one datagram
  // ---------------------------------------------------------------------------------------

  /** A whole fragment of `data`, the last of them the one that says so. */
  ghost predicate FragmentOk(f: Fragment, data: seq<Byte>, src: Address, dst: Address) {
    var p := f.packet;
    && p.src == src && p.dst == dst && !p.truncated
    && p.fragOff + |p.body| <= |data| && p.body == data[p.fragOff..p.fragOff + |p.body|]
    && (p.mf <==> p.fragOff + |p.body| < |data|)
  }

  /** None so late that the entry times out: each within two seconds of some earlier one. */
  ghost predicate Timely(fs: seq<Fragment>) {
    forall j | 0 < j < |fs| :: SoonAfter(fs, j)
  }

  ghost predicate SoonAfter(fs: seq<Fragment>, j: nat)
    requires j < |fs|
  {
    exists i | 0 <= i < j :: fs[j].ts - fs[i].ts <= 2_000_000_000
  }

  lemma TimelyFront(fs: seq<Fragment>)
    requires fs != [] && Timely(fs)
    ensures Timely(Front(fs))
  {
    forall j | 0 < j < |Front(fs)| ensures SoonAfter(Front(fs), j) {
      assert SoonAfter(fs, j);
      var i :| 0 <= i < j && fs[j].ts - fs[i].ts <= 2_000_000_000;
      assert Front(fs)[j].ts - Front(fs)[i].ts <= 2_000_000_000;
    }
  }

  ghost predicate FragmentsOf(fs: seq<Fragment>, data: seq<Byte>, src: Address, dst: Address) {
    (forall f | f in fs :: FragmentOk(f, data, src, dst)) && Timely(fs)
  }

  function PartsOf(fs: seq<Fragment>): seq<Part> {
    if fs == [] then [] else PartsOf(Front(fs)) + [PartOf(Last(fs))]
  }

  function PartOf(f: Fragment): Part {
    Part(f.packet.fragOff, f.packet.body)
  }

  lemma {:induction false} PartsOfAre(fs: seq<Fragment>)
    ensures forall f | f in fs :: PartOf(f) in PartsOf(fs)
    ensures forall p | p in PartsOf(fs) :: exists f | f in fs :: PartOf(f) == p
  {
    if fs != [] {
      PartsOfAre(Front(fs));
      assert fs == Front(fs) + [Last(fs)];
      forall p | p in PartsOf(fs) ensures exists f | f in fs :: PartOf(f) == p {
        if p in PartsOf(Front(fs)) {
          var f :| f in Front(fs) && PartOf(f) == p;
          assert f in fs;
        } else {
          assert Last(fs) in fs && PartOf(Last(fs)) == p;
        }
      }
    }
  }

  /** The entry that has gathered `fs` and not been completed. */
  function Gathered(fs: seq<Fragment>): Entry
    requires fs != []
  {
    var f := Last(fs);
    Extended(if |fs| == 1 then Entry(f.ts, f.ts, [], None, false, 0) else Gathered(Front(fs)), f.ts, f.packet)
  }

  ghost predicate Spans(fs: seq<Fragment>, lo: int, hi: int) {
    && (forall f | f in fs :: lo <= f.ts <= hi)
    && (exists f | f in fs :: f.ts == lo) && (exists f | f in fs :: f.ts == hi)
  }

  lemma FragmentsArePieces(fs: seq<Fragment>, data: seq<Byte>, src: Address, dst: Address)
    requires FragmentsOf(fs, data, src, dst)
    ensures PiecesOf(PartsOf(fs), data)
  {
    PartsOfAre(fs);
    hide PartsOf;
    forall p | p in PartsOf(fs) ensures p.End() <= |data| && p.body == data[p.off..p.End()] {
      var f :| f in fs && PartOf(f) == p;
      assert FragmentOk(f, data, src, dst);
    }
  }

  lemma FragmentsOfFront(fs: seq<Fragment>, data: seq<Byte>, src: Address, dst: Address)
    requires fs != [] && FragmentsOf(fs, data, src, dst)
    ensures FragmentsOf(Front(fs), data, src, dst)
    ensures FragmentOk(Last(fs), data, src, dst)
    ensures !Complete(PartsOf(fs), |data|) ==> !Complete(PartsOf(Front(fs)), |data|)
  {
    hide FragmentOk;
    TimelyFront(fs);
    assert forall f | f in Front(fs) :: f in fs;
    assert Last(fs) in fs;
    forall i | 0 <= i < |data| && Has(PartsOf(Front(fs)), i) ensures Has(PartsOf(fs), i) {
      var q :| q in PartsOf(Front(fs)) && q.off <= i < q.End();
      assert q in PartsOf(fs);
    }
  }

  lemma SpansExtend(fs: seq<Fragment>, lo: int, hi: int)
    requires fs != []
    requires |fs| == 1 ==> lo == hi == Last(fs).ts
    requires |fs| > 1 ==> Spans(Front(fs), lo, hi)
    ensures Spans(fs, Min(lo, Last(fs).ts), Max(hi, Last(fs).ts))
  {
    var f := Last(fs);
    assert fs == Front(fs) + [f];
    assert f in fs && forall g | g in Front(fs) :: g in fs;
    if |fs| > 1 {
      var g :| g in Front(fs) && g.ts == lo;
      var h :| h in Front(fs) && h.ts == hi;
      assert g in fs && h in fs;
    }
  }

  ghost predicate SomeLast(fs: seq<Fragment>) {
    exists f | f in fs :: !f.packet.mf
  }

  lemma SomeLastStep(fs: seq<Fragment>)
    requires fs != []
    ensures SomeLast(fs) <==> SomeLast(Front(fs)) || !Last(fs).packet.mf
    ensures |fs| == 1 ==> !SomeLast(Front(fs))
  {
    assert fs == Front(fs) + [Last(fs)];
    assert Last(fs) in fs;
  }

  lemma LastEnds(f: Fragment, data: seq<Byte>, src: Address, dst: Address)
    requires FragmentOk(f, data, src, dst)
    ensures !f.packet.truncated && (!f.packet.mf ==> f.packet.fragOff + |f.packet.body| == |data|)
  {
  }

  lemma {:induction false} GatheredShape(fs: seq<Fragment>, data: seq<Byte>, src: Address, dst: Address)
    requires fs != [] && FragmentsOf(fs, data, src, dst)
    ensures var e := Gathered(fs);
            && e.parts == PartsOf(fs) && e.n == |fs| && !e.trunc
            && e.total == (if SomeLast(fs) then Some(|data|) else None)
            && Spans(fs, e.tFirst, e.tLast)
  {
    hide Spans, Complete, FragmentsOf, SomeLast, FragmentOk;
    FragmentsOfFront(fs, data, src, dst);
    SomeLastStep(fs);
    var front, f := Front(fs), Last(fs);
    assert !f.packet.mf ==> f.packet.fragOff + |f.packet.body| == |data| by {
      LastEnds(f, data, src, dst);
    }
    assert !f.packet.truncated by {
      LastEnds(f, data, src, dst);
    }
    if |fs| == 1 {
      assert front == [];
      SpansExtend(fs, f.ts, f.ts);
    } else {
      GatheredShape(front, data, src, dst);
      SpansExtend(fs, Gathered(front).tFirst, Gathered(front).tLast);
    }
  }

  lemma LastByteNeedsTheLast(fs: seq<Fragment>, data: seq<Byte>, src: Address, dst: Address)
    requires data != [] && FragmentsOf(fs, data, src, dst) && Complete(PartsOf(fs), |data|)
    ensures SomeLast(fs)
  {
    PartsOfAre(fs);
    assert Has(PartsOf(fs), |data| - 1);
    var p :| p in PartsOf(fs) && p.off <= |data| - 1 < p.End();
    var f :| f in fs && PartOf(f) == p;
    assert FragmentOk(f, data, src, dst);
  }

  /** A gathered entry is whole exactly when every byte has arrived. */
  lemma WholeWhenComplete(fs: seq<Fragment>, data: seq<Byte>, src: Address, dst: Address)
    requires fs != [] && data != [] && FragmentsOf(fs, data, src, dst)
    ensures Whole(Gathered(fs)) == if Complete(PartsOf(fs), |data|) then Some(data) else None
  {
    hide Assembled, Complete, SomeLast, Gathered, FragmentsOf;
    GatheredShape(fs, data, src, dst);
    FragmentsArePieces(fs, data, src, dst);
    AssembledExactly(PartsOf(fs), data);
    if Complete(PartsOf(fs), |data|) {
      LastByteNeedsTheLast(fs, data, src, dst);
    }
  }

  lemma NotExpiredYet(fs: seq<Fragment>, data: seq<Byte>, src: Address, dst: Address)
    requires 1 < |fs| && FragmentsOf(fs, data, src, dst)
    ensures !Expired(Some(Gathered(Front(fs))), Last(fs).ts)
  {
    hide FragmentOk, Gathered;
    FragmentsOfFront(fs, data, src, dst);
    GatheredShape(Front(fs), data, src, dst);
    assert SoonAfter(fs, |fs| - 1);
    var i :| 0 <= i < |fs| - 1 && Last(fs).ts - fs[i].ts <= 2_000_000_000;
    assert fs[i] == Front(fs)[i] && fs[i] in Front(fs);
  }

  /** Until every byte has arrived the entry just gathers. */
  lemma {:induction false} GathersUntilComplete(fs: seq<Fragment>, data: seq<Byte>, src: Address, dst: Address)
    requires fs != [] && data != [] && FragmentsOf(fs, data, src, dst)
    requires Front(fs) != [] ==> !Complete(PartsOf(Front(fs)), |data|)
    ensures if Complete(PartsOf(fs), |data|)
            then Alone(None, fs).None? &&
                 AloneOutput(None, fs) == Finish(Gathered(fs).tFirst, Gathered(fs).tLast, src, dst, data, |fs|, false)
            else Alone(None, fs) == Some(Gathered(fs)) && AloneOutput(None, fs).None?
  {
    hide Complete, Whole, FragmentsOf, PartsOf, Finish, Spans, SomeLast;
    WholeWhenComplete(fs, data, src, dst);
    GatheredShape(fs, data, src, dst);
    FragmentsOfFront(fs, data, src, dst);
    if |fs| > 1 {
      FragmentsOfFront(Front(fs), data, src, dst);
      GathersUntilComplete(Front(fs), data, src, dst);
      NotExpiredYet(fs, data, src, dst);
      assert Opened(Some(Gathered(Front(fs))), Last(fs).ts) == Gathered(Front(fs));
    }
  }

  // ---------------------------------------------------------------------------------------
  // `_frames`
  // ---------------------------------------------------------------------------------------

  const MTU_BODY := 1480

  /** Where the datagram came from and goes to. */
  datatype Flow = Flow(src: Address, dst: Address, ident: nat)

  predicate Sendable(flow: Flow, udp: seq<Byte>) {
    flow.ident < U16_END && 20 + |udp| < U16_END
  }

  function ChunkAt(udp: seq<Byte>, off: nat): seq<Byte>
    requires off <= |udp|
  {
    udp[off..Min(off + MTU_BODY, |udp|)]
  }

  /** The packet that carries the piece at `off`. */
  function PieceAt(flow: Flow, udp: seq<Byte>, off: nat): seq<Byte>
    requires Sendable(flow, udp) && off < |udp|
  {
    var chunk := ChunkAt(udp, off);
    IpPacket(flow.src, flow.dst, flow.ident, off, off + |chunk| < |udp|, chunk)
  }

  /** How many pieces a datagram is cut into. */
  function Pieces(udp: seq<Byte>): nat {
    (|udp| + MTU_BODY - 1) / MTU_BODY
  }

  function FrameOf(flow: Flow, udp: seq<Byte>, ts: int, delay: int, n: nat): Delivery
    requires Sendable(flow, udp) && n < Pieces(udp)
  {
    Delivery(ts + n * delay, PieceAt(flow, udp, n * MTU_BODY))
  }

  /** `_frames`, without the link-layer header. */
  function Frames(flow: Flow, udp: seq<Byte>, ts: int, fragment: bool, delay: int): seq<Delivery>
    requires Sendable(flow, udp)
  {
    if !fragment || |udp| <= MTU_BODY then [Delivery(ts, IpPacket(flow.src, flow.dst, flow.ident, 0, false, udp))]
    else seq(Pieces(udp), n requires 0 <= n < Pieces(udp) => FrameOf(flow, udp, ts, delay, n))
  }

  method MakeFrames(flow: Flow, udp: seq<Byte>, ts: int, fragment: bool, delay: int) returns (out: seq<Delivery>)
    requires Sendable(flow, udp)
    ensures out == Frames(flow, udp, ts, fragment, delay)
  {
    hide IpPacket;
    if !fragment || |udp| <= MTU_BODY {
      return [Delivery(ts, IpPacket(flow.src, flow.dst, flow.ident, 0, false, udp))];
    }
    out := [];
    var off: nat := 0;
    var n: nat := 0;
    while off < |udp|
      invariant off == Min(n * MTU_BODY, |udp|) && |out| == n <= Pieces(udp)
      invariant forall i | 0 <= i < n :: out[i] == FrameOf(flow, udp, ts, delay, i)
      decreases |udp| - off
    {
      var chunk := udp[off..Min(off + MTU_BODY, |udp|)];
      var mf := off + |chunk| < |udp|;
      out := out + [Delivery(ts + n * delay, IpPacket(flow.src, flow.dst, flow.ident, off, mf, chunk))];
      off := off + |chunk|;
      n := n + 1;
    }
  }

  function FlowKey(flow: Flow): Key {
    Key(flow.src, flow.dst, flow.ident, 17)
  }

  /** The packet carries piece `n` of the datagram. */
  ghost predicate CarriesPiece(d: Delivery, flow: Flow, udp: seq<Byte>, n: nat)
    requires Sendable(flow, udp)
  {
    n * MTU_BODY < |udp| && exists padding: seq<Byte> :: d.ip == PieceAt(flow, udp, n * MTU_BODY) + padding
  }

  lemma PieceOffset(n: nat)
    ensures n * MTU_BODY % 8 == 0
  {
    assert n * MTU_BODY == (n * 185) * 8;
  }

  /** A piece parses to just what was cut. */
  lemma PieceParses(d: Delivery, flow: Flow, udp: seq<Byte>, n: nat)
    requires Sendable(flow, udp) && MTU_BODY < |udp| && CarriesPiece(d, flow, udp, n)
    ensures var off := n * MTU_BODY;
            FragmentOf(d, FlowKey(flow)) ==
            Some(Fragment(d.ts, Packet(flow.src, flow.dst, flow.ident, off, off + |ChunkAt(udp, off)| < |udp|, 17,
                                       ChunkAt(udp, off), false)))
  {
    hide IpPacket, ParseIp;
    var off := n * MTU_BODY;
    PieceOffset(n);
    var padding: seq<Byte> :| d.ip == PieceAt(flow, udp, off) + padding;
    var chunk := ChunkAt(udp, off);
    PacketRoundTrip(flow.src, flow.dst, flow.ident, off, off + |chunk| < |udp|, chunk, padding);
  }

  /** A packet of the key comes within the timeout of some earlier packet of it. */
  ghost predicate SoonAfterOne(es: seq<Delivery>, k: Key, j: nat)
    requires j < |es|
  {
    exists i | 0 <= i < j :: FragmentOf(es[i], k).Some? && es[j].ts - es[i].ts <= 2_000_000_000
  }

  /** Of the packets of the key, each but the first. */
  ghost predicate TimelyFor(es: seq<Delivery>, k: Key) {
    forall j | 0 <= j < |es| && FragmentOf(es[j], k).Some? && ForKey(es[..j], k) != [] :: SoonAfterOne(es, k, j)
  }

  /** Every packet is one of the pieces or has nothing to do with the datagram's key, and the
      pieces come within the timeout of one before. */
  ghost predicate CaptureOf(es: seq<Delivery>, flow: Flow, udp: seq<Byte>)
    requires Sendable(flow, udp)
  {
    && (forall i | 0 <= i < |es| && FragmentOf(es[i], FlowKey(flow)).Some? ::
          exists n: nat :: CarriesPiece(es[i], flow, udp, n))
    && TimelyFor(es, FlowKey(flow))
  }

  lemma TimelyForFront(es: seq<Delivery>, k: Key)
    requires es != [] && TimelyFor(es, k)
    ensures TimelyFor(Front(es), k)
  {
    hide FragmentOf, ForKey;
    forall j | 0 <= j < |Front(es)| && FragmentOf(Front(es)[j], k).Some? && ForKey(Front(es)[..j], k) != []
      ensures SoonAfterOne(Front(es), k, j)
    {
      assert Front(es)[..j] == es[..j] && Front(es)[j] == es[j];
      assert SoonAfterOne(es, k, j);
      var i :| 0 <= i < j && FragmentOf(es[i], k).Some? && es[j].ts - es[i].ts <= 2_000_000_000;
      assert Front(es)[i] == es[i];
    }
  }

  /** The fragments of a timely capture are timely. */
  lemma {:induction false} CapturedTimely(es: seq<Delivery>, k: Key)
    requires TimelyFor(es, k)
    ensures Timely(ForKey(es, k))
  {
    hide FragmentOf;
    if es != [] {
      var front := Front(es);
      TimelyForFront(es, k);
      CapturedTimely(front, k);
      var fs, n := ForKey(front, k), |es| - 1;
      assert es[..n] == front;
      if FragmentOf(es[n], k).Some? && fs != [] {
        assert SoonAfterOne(es, k, n);
        var i :| 0 <= i < n && FragmentOf(es[i], k).Some? && es[n].ts - es[i].ts <= 2_000_000_000;
        ForKeyMembers(front, k);
        assert front[i] == es[i];
        FragmentTime(es[i], k);
        FragmentTime(es[n], k);
        var f := FragmentOf(es[i], k).value;
        var m :| 0 <= m < |fs| && fs[m] == f;
        LaterTimely(fs, FragmentOf(es[n], k).value, m);
      } else if FragmentOf(es[n], k).None? {
        assert ForKey(es, k) == fs;
      }
    }
  }

  lemma LaterTimely(fs: seq<Fragment>, f: Fragment, m: nat)
    requires Timely(fs) && m < |fs| && f.ts - fs[m].ts <= 2_000_000_000
    ensures Timely(fs + [f])
  {
    var all := fs + [f];
    forall j | 0 < j < |all| ensures SoonAfter(all, j) {
      if j < |fs| {
        assert SoonAfter(fs, j);
        var i :| 0 <= i < j && fs[j].ts - fs[i].ts <= 2_000_000_000;
        assert all[j].ts - all[i].ts <= 2_000_000_000;
      } else {
        assert all[j].ts - all[m].ts <= 2_000_000_000;
      }
    }
  }

  /** Every piece has been captured at least once. */
  ghost predicate AllCaptured(es: seq<Delivery>, flow: Flow, udp: seq<Byte>)
    requires Sendable(flow, udp)
  {
    forall n: nat | n * MTU_BODY < |udp| :: PieceCaptured(es, flow, udp, n)
  }

  ghost predicate PieceCaptured(es: seq<Delivery>, flow: Flow, udp: seq<Byte>, n: nat)
    requires Sendable(flow, udp)
  {
    exists i | 0 <= i < |es| :: CarriesPiece(es[i], flow, udp, n)
  }

  lemma {:induction false} ForKeyMembers(es: seq<Delivery>, k: Key)
    ensures forall f | f in ForKey(es, k) :: exists i | 0 <= i < |es| :: FragmentOf(es[i], k) == Some(f)
    ensures forall i | 0 <= i < |es| && FragmentOf(es[i], k).Some? :: FragmentOf(es[i], k).value in ForKey(es, k)
  {
    hide FragmentOf;
    if es != [] {
      ForKeyMembers(Front(es), k);
      forall f | f in ForKey(es, k) ensures exists i | 0 <= i < |es| :: FragmentOf(es[i], k) == Some(f) {
        if f in ForKey(Front(es), k) {
          var i :| 0 <= i < |Front(es)| && FragmentOf(Front(es)[i], k) == Some(f);
          assert FragmentOf(es[i], k) == Some(f);
        } else {
          assert FragmentOf(es[|es| - 1], k) == Some(f);
        }
      }
      forall i | 0 <= i < |es| && FragmentOf(es[i], k).Some? ensures FragmentOf(es[i], k).value in ForKey(es, k) {
        if i < |es| - 1 {
          assert Front(es)[i] == es[i];
        }
      }
    }
  }

  lemma CapturedFragment(d: Delivery, flow: Flow, udp: seq<Byte>, n: nat)
    requires Sendable(flow, udp) && MTU_BODY < |udp| && CarriesPiece(d, flow, udp, n)
    ensures FragmentOf(d, FlowKey(flow)).Some?
    ensures FragmentOk(FragmentOf(d, FlowKey(flow)).value, udp, flow.src, flow.dst)
    ensures PartOf(FragmentOf(d, FlowKey(flow)).value) == Part(n * MTU_BODY, ChunkAt(udp, n * MTU_BODY))
  {
    hide CarriesPiece, FragmentOf;
    assert n * MTU_BODY < |udp| by {
      PieceIsInside(d, flow, udp, n);
    }
    PieceParses(d, flow, udp, n);
  }

  lemma PieceIsInside(d: Delivery, flow: Flow, udp: seq<Byte>, n: nat)
    requires Sendable(flow, udp) && CarriesPiece(d, flow, udp, n)
    ensures n * MTU_BODY < |udp|
  {
  }

  lemma CapturedFragments(es: seq<Delivery>, flow: Flow, udp: seq<Byte>)
    requires Sendable(flow, udp) && MTU_BODY < |udp| && CaptureOf(es, flow, udp)
    ensures FragmentsOf(ForKey(es, FlowKey(flow)), udp, flow.src, flow.dst)
  {
    hide CarriesPiece, FragmentOf, FragmentOk;
    var k := FlowKey(flow);
    var fs := ForKey(es, k);
    ForKeyMembers(es, k);
    forall f | f in fs ensures FragmentOk(f, udp, flow.src, flow.dst) {
      var j :| 0 <= j < |es| && FragmentOf(es[j], k) == Some(f);
      var n: nat :| CarriesPiece(es[j], flow, udp, n);
      CapturedFragment(es[j], flow, udp, n);
    }
    CapturedTimely(es, k);
  }

  lemma PieceOfByte(udp: seq<Byte>, i: nat) returns (n: nat)
    requires i < |udp|
    ensures n * MTU_BODY <= i < n * MTU_BODY + |ChunkAt(udp, n * MTU_BODY)|
    ensures forall m: nat | m * MTU_BODY <= i < m * MTU_BODY + MTU_BODY :: m == n
  {
    n := i / MTU_BODY;
  }

  /** Every byte has arrived exactly when every piece has. */
  lemma CompleteWhenAllCaptured(es: seq<Delivery>, flow: Flow, udp: seq<Byte>)
    requires Sendable(flow, udp) && MTU_BODY < |udp| && CaptureOf(es, flow, udp)
    ensures Complete(PartsOf(ForKey(es, FlowKey(flow))), |udp|) <==> AllCaptured(es, flow, udp)
  {
    hide CarriesPiece, FragmentOf, FragmentOk, PieceCaptured, Has;
    var parts := PartsOf(ForKey(es, FlowKey(flow)));
    if AllCaptured(es, flow, udp) {
      forall i | 0 <= i < |udp| ensures Has(parts, i) {
        var n := PieceOfByte(udp, i);
        CapturedPieceHas(es, flow, udp, n, i);
      }
    }
    if Complete(parts, |udp|) {
      forall n: nat | n * MTU_BODY < |udp| ensures PieceCaptured(es, flow, udp, n) {
        HasCapturedPiece(es, flow, udp, n);
      }
    }
  }

  lemma CapturedPieceHas(es: seq<Delivery>, flow: Flow, udp: seq<Byte>, n: nat, i: nat)
    requires Sendable(flow, udp) && MTU_BODY < |udp| && PieceCaptured(es, flow, udp, n) && i < |udp|
    requires n * MTU_BODY <= i < n * MTU_BODY + |ChunkAt(udp, n * MTU_BODY)|
    ensures Has(PartsOf(ForKey(es, FlowKey(flow))), i)
  {
    hide CarriesPiece, FragmentOf, FragmentOk;
    var k := FlowKey(flow);
    var j :| 0 <= j < |es| && CarriesPiece(es[j], flow, udp, n);
    CapturedFragment(es[j], flow, udp, n);
    ForKeyMembers(es, k);
    PartsOfAre(ForKey(es, k));
    var f := FragmentOf(es[j], k).value;
    assert PartOf(f) in PartsOf(ForKey(es, k));
  }

  lemma HasCapturedPiece(es: seq<Delivery>, flow: Flow, udp: seq<Byte>, n: nat)
    requires Sendable(flow, udp) && MTU_BODY < |udp| && CaptureOf(es, flow, udp) && n * MTU_BODY < |udp|
    requires Has(PartsOf(ForKey(es, FlowKey(flow))), n * MTU_BODY)
    ensures PieceCaptured(es, flow, udp, n)
  {
    hide CarriesPiece, FragmentOf, FragmentOk;
    var k := FlowKey(flow);
    var fs := ForKey(es, k);
    var p :| p in PartsOf(fs) && p.off <= n * MTU_BODY < p.End();
    PartsOfAre(fs);
    var f :| f in fs && PartOf(f) == p;
    ForKeyMembers(es, k);
    var j :| 0 <= j < |es| && FragmentOf(es[j], k) == Some(f);
    var m: nat :| CarriesPiece(es[j], flow, udp, m);
    CapturedFragment(es[j], flow, udp, m);
    var own := PieceOfByte(udp, n * MTU_BODY);
    assert m == own;
  }

  lemma FrontOfCapture(es: seq<Delivery>, flow: Flow, udp: seq<Byte>)
    requires Sendable(flow, udp) && es != [] && CaptureOf(es, flow, udp)
    ensures CaptureOf(Front(es), flow, udp)
  {
    hide FragmentOf, CarriesPiece, TimelyFor;
    TimelyForFront(es, FlowKey(flow));
    assert forall i | 0 <= i < |Front(es)| :: Front(es)[i] == es[i];
  }

  /** Once begun, fragments that come in time never find their entry stale; so of what was pending
      before, a stale entry lapses, and nothing else does. */
  lemma {:induction false} TimelyNeverLapse(ent: Option<Entry>, fs: seq<Fragment>, data: seq<Byte>, src: Address,
                                            dst: Address)
    requires data != [] && FragmentsOf(fs, data, src, dst) && fs != []
    requires ent.None? || Stale(ent, fs[0].ts)
    requires Front(fs) != [] ==> !Complete(PartsOf(Front(fs)), |data|)
    ensures LapsesIn(ent, fs) == if ent.Some? then 1 else 0
  {
    hide Complete, Whole, FragmentsOf, PartsOf, Finish, Stepped, Gathered;
    if |fs| == 1 {
      assert Front(fs) == [] && LapsesIn(ent, Front(fs)) == 0 && Alone(ent, Front(fs)) == ent;
    } else {
      FragmentsOfFront(fs, data, src, dst);
      FragmentsOfFront(Front(fs), data, src, dst);
      TimelyNeverLapse(ent, Front(fs), data, src, dst);
      if ent.Some? {
        StaleIsForgotten(ent, Front(fs));
      }
      GathersUntilComplete(Front(fs), data, src, dst);
      NotExpiredYet(fs, data, src, dst);
    }
  }

  /** While some piece is missing, no packet of the datagram makes `add` return anything; once the
      last missing piece arrives, in whatever order and however often the pieces came and whatever
      came between them, it returns the original payload and ports, with the first and the last
      timestamp of its packets and their number, and forgets the key. The key may have an old entry
      pending, of which nothing came for more than two seconds: it is given up, once, and does not
      show. */
  lemma FramesReassemble(s: Store, es: seq<Delivery>, flow: Flow, sport: nat, dport: nat, payload: seq<Byte>)
    requires sport < U16_END && dport < U16_END && 28 + |payload| < U16_END && flow.ident < U16_END
    requires MTU_BODY < 8 + |payload|
    requires es != [] && FragmentOf(Last(es), FlowKey(flow)).Some?
    requires ForKey(es, FlowKey(flow)) != [] ==>
               match Lookup(s, FlowKey(flow))
               case Some(ent) => ForKey(es, FlowKey(flow))[0].ts - ent.tLast > 2_000_000_000
               case None => true
    requires CaptureOf(es, flow, UdpDatagram(sport, dport, payload))
    requires !AllCaptured(Front(es), flow, UdpDatagram(sport, dport, payload))
    ensures var fs := ForKey(es, FlowKey(flow));
            if AllCaptured(es, flow, UdpDatagram(sport, dport, payload)) then
              && Lookup(After(s, es), FlowKey(flow)).None?
              && (exists lo, hi :: Spans(fs, lo, hi) &&
                    LastOutput(s, es) == Some(Datagram(lo, hi, flow.src, flow.dst, sport, dport, payload, |fs|, false)))
            else Lookup(After(s, es), FlowKey(flow)).Some? && LastOutput(s, es).None?
    ensures GivenUpOf(s, es, FlowKey(flow)) == if Lookup(s, FlowKey(flow)).Some? then 1 else 0
  {
    hide AllCaptured, Complete, Stepped, Has, Spans, CarriesPiece, FragmentOf, Gathered, FragmentsOf, UdpDatagram,
        ParseUdp, SomeLast, PartsOf, After, Lookup, Added;
    var k, udp := FlowKey(flow), UdpDatagram(sport, dport, payload);
    var fs := ForKey(es, k);
    KeysAreIndependent(s, es, k);
    CapturedFragments(es, flow, udp);
    CompleteWhenAllCaptured(es, flow, udp);
    FrontOfCapture(es, flow, udp);
    CompleteWhenAllCaptured(Front(es), flow, udp);
    assert Front(fs) == ForKey(Front(es), k);
    GathersUntilComplete(fs, udp, flow.src, flow.dst);
    GatheredShape(fs, udp, flow.src, flow.dst);
    UdpRoundTrip(sport, dport, payload);
    GivenUpAlone(s, es, k);
    TimelyNeverLapse(Lookup(s, k), fs, udp, flow.src, flow.dst);
    if Lookup(s, k).Some? {
      StaleIsForgotten(Lookup(s, k), fs);
    }
  }

  /** The frames that are made carry the pieces, one each and in order. */
  lemma FramesCarryThePieces(flow: Flow, udp: seq<Byte>, ts: int, delay: int)
    requires Sendable(flow, udp) && MTU_BODY < |udp|
    ensures var out := Frames(flow, udp, ts, true, delay);
            && (forall i | 0 <= i < |out| :: CarriesPiece(out[i], flow, udp, i) && out[i].ts == ts + i * delay)
            && AllCaptured(out, flow, udp)
  {
    hide IpPacket;
    var out := Frames(flow, udp, ts, true, delay);
    forall i | 0 <= i < |out| ensures CarriesPiece(out[i], flow, udp, i) {
      assert out[i].ip == PieceAt(flow, udp, i * MTU_BODY) + [];
    }
    forall n: nat | n * MTU_BODY < |udp| ensures PieceCaptured(out, flow, udp, n) {
      assert CarriesPiece(out[n], flow, udp, n);
    }
  }

  /** An unfragmented datagram is delivered at once and touches nothing. */
  lemma UnfragmentedIsDelivered(s: Store, ts: int, flow: Flow, sport: nat, dport: nat, payload: seq<Byte>,
                          padding: seq<Byte>)
    requires sport < U16_END && dport < U16_END && 28 + |payload| < U16_END && flow.ident < U16_END
    ensures var udp := UdpDatagram(sport, dport, payload);
            Added(s, ts, IpPacket(flow.src, flow.dst, flow.ident, 0, false, udp) + padding) ==
            (s, Some(Datagram(ts, ts, flow.src, flow.dst, sport, dport, payload, 1, false)))
  {
    PacketRoundTrip(flow.src, flow.dst, flow.ident, 0, false, UdpDatagram(sport, dport, payload), padding);
    UdpRoundTrip(sport, dport, payload);
  }

  /** One packet opens an entry, completes one or gives one up, and the table balances. */
  lemma PacketIsAccounted(s: Store, ts: int, ip: seq<Byte>)
    ensures var (t, _) := Added(s, ts, ip);
            |t.pending| + (t.incomplete - s.incomplete) + Completions(s, ts, ip) == |s.pending| + Openings(s, ts, ip)
  {
    hide Stepped, ParseIp;
    match ParseIp(ip)
    case None =>
    case Some(p) =>
      if IsFragment(p) {
        var k := KeyOf(p);
        var m := s.pending - {k};
        assert k in s.pending ==> s.pending == m[k := s.pending[k]];
        assert k !in s.pending ==> s.pending == m;
        var next := Stepped(Lookup(s, k), ts, p).0;
        assert next.Some? ==> s.pending[k := next.value] == m[k := next.value];
      }
  }

  /** 1 when the packet opens an entry. */
  function Openings(s: Store, ts: int, ip: seq<Byte>): nat {
    match ParseIp(ip)
    case Some(p) =>
      if IsFragment(p) && (Lookup(s, KeyOf(p)).None? || Stale(Lookup(s, KeyOf(p)), ts)) then 1 else 0
    case None => 0
  }

  /** 1 when the packet completes one. */
  function Completions(s: Store, ts: int, ip: seq<Byte>): nat {
    match ParseIp(ip)
    case Some(p) => if IsFragment(p) && Stepped(Lookup(s, KeyOf(p)), ts, p).0.None? then 1 else 0
    case None => 0
  }

  /** The entries opened and completed over a capture. */
  function OpeningsIn(s: Store, es: seq<Delivery>): nat {
    if es == [] then 0 else OpeningsIn(s, Front(es)) + Openings(After(s, Front(es)), Last(es).ts, Last(es).ip)
  }

  function CompletionsIn(s: Store, es: seq<Delivery>): nat {
    if es == [] then 0 else CompletionsIn(s, Front(es)) + Completions(After(s, Front(es)), Last(es).ts, Last(es).ip)
  }

  /** Over any capture every entry that is opened is completed, counted incomplete or still pending. */
  lemma {:induction false} EntriesAreAccounted(s: Store, es: seq<Delivery>)
    ensures var t := After(s, es);
            |t.pending| + (t.incomplete - s.incomplete) + CompletionsIn(s, es) == |s.pending| + OpeningsIn(s, es)
  {
    hide Added, Openings, Completions;
    if es != [] {
      EntriesAreAccounted(s, Front(es));
      PacketIsAccounted(After(s, Front(es)), Last(es).ts, Last(es).ip);
    }
  }
}
