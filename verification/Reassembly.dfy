/** IPv4 fragment reassembly, bench/fer-capture/fer_capture/reassembly.py (section 3.2 of
    RFC 791): the reassembler as it runs, against a specification on values. */
module Reassembly {
  import opened Wrappers
  import opened Bytes
  import opened Ipv4

  const TIMEOUT_NS := 2_000_000_000

  // ---------------------------------------------------------------------------------------
  // Parts in order
  // ---------------------------------------------------------------------------------------

  datatype Part = Part(off: nat, body: seq<Byte>) {
    function End(): nat { off + |body| }
  }

  /** Python's order on byte strings. */
  predicate BytesLe(a: seq<Byte>, b: seq<Byte>) {
    if a == [] then true
    else if b == [] then false
    else a[0] < b[0] || (a[0] == b[0] && BytesLe(a[1..], b[1..]))
  }

  predicate PartLe(p: Part, q: Part) {
    p.off < q.off || (p.off == q.off && BytesLe(p.body, q.body))
  }

  function InsertPart(p: Part, s: seq<Part>): seq<Part> {
    if s == [] then [p] else if PartLe(p, s[0]) then [p] + s else [s[0]] + InsertPart(p, s[1..])
  }

  function SortParts(s: seq<Part>): seq<Part> {
    if s == [] then [] else InsertPart(s[0], SortParts(s[1..]))
  }

  ghost predicate OffsetsAscend(s: seq<Part>) {
    forall i, j | 0 <= i < j < |s| :: s[i].off <= s[j].off
  }

  lemma {:induction false} InsertPartKeeps(p: Part, s: seq<Part>)
    requires OffsetsAscend(s)
    ensures OffsetsAscend(InsertPart(p, s))
    ensures forall q :: q in InsertPart(p, s) <==> q == p || q in s
  {
    if s != [] {
      if PartLe(p, s[0]) {
        assert forall q :: q in [p] + s <==> q == p || q in s;
      } else {
        InsertPartKeeps(p, s[1..]);
        var rest := InsertPart(p, s[1..]);
        assert forall i | 0 <= i < |rest| :: rest[i] in rest;
        assert s == [s[0]] + s[1..];
      }
    }
  }

  lemma {:induction false} SortPartsKeeps(s: seq<Part>)
    ensures OffsetsAscend(SortParts(s))
    ensures forall q :: q in SortParts(s) <==> q in s
  {
    if s != [] {
      SortPartsKeeps(s[1..]);
      InsertPartKeeps(s[0], SortParts(s[1..]));
      assert s == [s[0]] + s[1..];
    }
  }

  // ---------------------------------------------------------------------------------------
  // The sweep over the sorted parts
  // ---------------------------------------------------------------------------------------

  function Clip(p: Part, total: nat): seq<Byte>
    requires p.off <= total
  {
    if p.End() > total then p.body[..total - p.off] else p.body
  }

  function Place(buf: seq<Byte>, off: nat, chunk: seq<Byte>): (r: seq<Byte>)
    requires off + |chunk| <= |buf|
    ensures |r| == |buf|
  {
    buf[..off] + chunk + buf[off + |chunk|..]
  }

  function Max(a: int, b: int): int { if a < b then b else a }

  function Min(a: int, b: int): int { if a < b then a else b }

  function Sweep(parts: seq<Part>, covered: nat, buf: seq<Byte>): Option<seq<Byte>>
    requires covered <= |buf|
    decreases |parts|
  {
    if parts == [] then if covered < |buf| then None else Some(buf)
    else
      var p := parts[0];
      if p.off > covered then None
      else
        var chunk := Clip(p, |buf|);
        Sweep(parts[1..], Max(covered, p.off + |chunk|), Place(buf, p.off, chunk))
  }

  function Assembled(parts: seq<Part>, total: nat): Option<seq<Byte>> {
    Sweep(SortParts(parts), 0, Zeros(total))
  }

  /** Byte `i` of the datagram is in some part. */
  ghost predicate Has(parts: seq<Part>, i: nat) {
    exists p | p in parts :: p.off <= i < p.End()
  }

  ghost predicate Complete(parts: seq<Part>, total: nat) {
    forall i | 0 <= i < total :: Has(parts, i)
  }

  /** Every part is a piece of `data`. */
  ghost predicate PiecesOf(parts: seq<Part>, data: seq<Byte>) {
    forall p | p in parts :: p.End() <= |data| && p.body == data[p.off..p.End()]
  }

  lemma PlaceExtends(buf: seq<Byte>, covered: nat, p: Part, data: seq<Byte>)
    requires |buf| == |data| && p.off <= covered <= |data| && buf[..covered] == data[..covered]
    requires p.End() <= |data| && p.body == data[p.off..p.End()]
    ensures Place(buf, p.off, p.body)[..Max(covered, p.End())] == data[..Max(covered, p.End())]
  {
    var next := Place(buf, p.off, p.body);
    forall i | 0 <= i < Max(covered, p.End()) ensures next[i] == data[i] {
      if i < p.off {
        assert next[i] == buf[..covered][i] == data[..covered][i];
      } else if i < p.End() {
        assert next[i] == p.body[i - p.off] == data[i];
      } else {
        assert next[i] == buf[..covered][i] == data[..covered][i];
      }
    }
  }

  /** What the first part covers, and what it leaves to the others. */
  lemma HasWithoutFirst(parts: seq<Part>, covered: nat, total: nat)
    requires parts != [] && parts[0].off <= covered
    ensures (forall i | covered <= i < total :: Has(parts, i)) <==>
            (forall i | Max(covered, parts[0].End()) <= i < total :: Has(parts[1..], i))
  {
    var p := parts[0];
    forall i | Max(covered, p.End()) <= i < total ensures Has(parts, i) <==> Has(parts[1..], i) {
      if Has(parts, i) {
        var q :| q in parts && q.off <= i < q.End();
        assert q in parts[1..];
      }
      if Has(parts[1..], i) {
        var q :| q in parts[1..] && q.off <= i < q.End();
        assert q in parts;
      }
    }
    forall i | covered <= i < p.End() ensures Has(parts, i) {
      assert p in parts && p.off <= i < p.End();
    }
  }

  lemma NothingBefore(parts: seq<Part>, covered: nat)
    requires OffsetsAscend(parts) && (parts != [] ==> covered < parts[0].off)
    ensures !Has(parts, covered)
  {
  }

  lemma {:induction false} SweepMeaning(parts: seq<Part>, covered: nat, buf: seq<Byte>, data: seq<Byte>)
    requires OffsetsAscend(parts) && PiecesOf(parts, data) && |buf| == |data|
    requires covered <= |data| && buf[..covered] == data[..covered]
    ensures Sweep(parts, covered, buf) ==
            if forall i | covered <= i < |data| :: Has(parts, i) then Some(data) else None
    decreases |parts|
  {
    hide Has, Place;
    if parts == [] {
      NothingBefore(parts, covered);
      if covered == |data| {
        assert buf[..covered] == buf && data[..covered] == data;
      }
    } else {
      var p := parts[0];
      assert p in parts;
      if p.off > covered {
        NothingBefore(parts, covered);
        assert covered < |data|;
      } else {
        PlaceExtends(buf, covered, p, data);
        HasWithoutFirst(parts, covered, |data|);
        assert forall q | q in parts[1..] :: q in parts;
        SweepMeaning(parts[1..], Max(covered, p.End()), Place(buf, p.off, p.body), data);
      }
    }
  }

  /** Whatever order the pieces came in, and however often, the datagram comes out exactly when
      every byte of it has arrived. */
  lemma AssembledExactly(parts: seq<Part>, data: seq<Byte>)
    requires PiecesOf(parts, data)
    ensures Assembled(parts, |data|) == if Complete(parts, |data|) then Some(data) else None
  {
    SortPartsKeeps(parts);
    SweepMeaning(SortParts(parts), 0, Zeros(|data|), data);
    forall i | 0 <= i < |data| ensures Has(SortParts(parts), i) <==> Has(parts, i) {
      if Has(parts, i) {
        var q :| q in parts && q.off <= i < q.End();
        assert q in SortParts(parts);
      }
    }
  }

  // ---------------------------------------------------------------------------------------
  // One packet
  // ---------------------------------------------------------------------------------------

  datatype Datagram = Datagram(tFirst: int, tLast: int, src: Address, dst: Address, sport: nat, dport: nat,
                               payload: seq<Byte>, frags: nat, truncated: bool)

  datatype Key = Key(src: Address, dst: Address, ident: nat, proto: Byte)

  datatype Entry = Entry(tFirst: int, tLast: int, parts: seq<Part>, total: Option<nat>, trunc: bool, n: nat)

  function KeyOf(p: Packet): Key {
    Key(p.src, p.dst, p.ident, p.proto)
  }

  function Finish(tFirst: int, tLast: int, src: Address, dst: Address, udp: seq<Byte>, frags: nat,
                  truncated: bool): Option<Datagram> {
    match ParseUdp(udp)
    case None => None
    case Some(u) => Some(Datagram(tFirst, tLast, src, dst, u.sport, u.dport, u.payload, frags, truncated))
  }

  predicate Expired(ent: Option<Entry>, ts: int) {
    ent.Some? && ts - ent.value.tLast > TIMEOUT_NS
  }

  /** The entry a fragment is added to: the pending one, or a new one. */
  function Opened(ent: Option<Entry>, ts: int): Entry {
    if ent.None? || Expired(ent, ts) then Entry(ts, ts, [], None, false, 0) else ent.value
  }

  function Extended(ent: Entry, ts: int, p: Packet): Entry {
    Entry(Min(ent.tFirst, ts), Max(ent.tLast, ts), ent.parts + [Part(p.fragOff, p.body)],
          if p.mf then ent.total else Some(p.fragOff + |p.body|), ent.trunc || p.truncated, ent.n + 1)
  }

  function Whole(ent: Entry): Option<seq<Byte>> {
    if ent.total.None? then None else Assembled(ent.parts, ent.total.value)
  }

  /** What one fragment does to its own entry. */
  function Stepped(ent: Option<Entry>, ts: int, p: Packet): (Option<Entry>, Option<Datagram>) {
    var e := Extended(Opened(ent, ts), ts, p);
    match Whole(e)
    case None => (Some(e), None)
    case Some(udp) => (None, Finish(e.tFirst, e.tLast, p.src, p.dst, udp, e.n, e.trunc))
  }

  datatype Store = Store(pending: map<Key, Entry>, incomplete: nat)

  function Lookup(s: Store, k: Key): Option<Entry> {
    if k in s.pending then Some(s.pending[k]) else None
  }

  function Put(s: Store, k: Key, ent: Option<Entry>): map<Key, Entry> {
    match ent
    case Some(e) => s.pending[k := e]
    case None => s.pending - {k}
  }

  predicate IsFragment(p: Packet) {
    p.proto == 17 && !(p.fragOff == 0 && !p.mf)
  }

  function Added(s: Store, ts: int, ip: seq<Byte>): (Store, Option<Datagram>) {
    match ParseIp(ip)
    case None => (s, None)
    case Some(p) =>
      if p.proto != 17 then (s, None)
      else if !IsFragment(p) then (s, Finish(ts, ts, p.src, p.dst, p.body, 1, p.truncated))
      else
        var ent := Lookup(s, KeyOf(p));
        var (next, d) := Stepped(ent, ts, p);
        (Store(Put(s, KeyOf(p), next), s.incomplete + if Expired(ent, ts) then 1 else 0), d)
  }

  // ---------------------------------------------------------------------------------------
  // The reassembler as it runs
  // ---------------------------------------------------------------------------------------

  method Write(buf: array<Byte>, off: nat, chunk: seq<Byte>)
    requires off + |chunk| <= buf.Length
    modifies buf
    ensures buf[..] == Place(old(buf[..]), off, chunk)
  {
    forall j | 0 <= j < |chunk| {
      buf[off + j] := chunk[j];
    }
  }

  /** The loop over the sorted parts, filling the buffer in place; every write is inside it. */
  method Assemble(parts: seq<Part>, total: nat) returns (whole: Option<seq<Byte>>)
    ensures whole == Assembled(parts, total)
  {
    hide Place, SortParts;
    var sorted := SortParts(parts);
    var buf := new Byte[total](_ => 0);
    assert buf[..] == Zeros(total);
    var covered := 0;
    var i := 0;
    while i < |sorted|
      invariant 0 <= i <= |sorted| && 0 <= covered <= total == buf.Length
      invariant Sweep(sorted[i..], covered, buf[..]) == Assembled(parts, total)
    {
      var off, chunk := sorted[i].off, sorted[i].body;
      if off > covered {
        return None;
      }
      if off + |chunk| > total {
        chunk := chunk[..total - off];
      }
      Write(buf, off, chunk);
      assert sorted[i..][1..] == sorted[i + 1..];
      covered := Max(covered, off + |chunk|);
      i := i + 1;
    }
    if covered < total {
      return None;
    }
    return Some(buf[..]);
  }

  class Reassembler {
    var pending: map<Key, Entry>
    var incomplete: nat

    function Now(): Store
      reads this
    {
      Store(pending, incomplete)
    }

    constructor ()
      ensures Now() == Store(map[], 0)
    {
      pending := map[];
      incomplete := 0;
    }

    method Add(ts: int, ip: seq<Byte>) returns (d: Option<Datagram>)
      modifies this
      ensures (Now(), d) == Added(old(Now()), ts, ip)
    {
      hide ParseIp, Finish, Assembled;
      var parsed := ParseIp(ip);
      if parsed.None? {
        return None;
      }
      var p := parsed.value;
      if p.proto != 17 {
        return None;
      }
      if p.fragOff == 0 && !p.mf {
        return Finish(ts, ts, p.src, p.dst, p.body, 1, p.truncated);
      }
      var key := KeyOf(p);
      var ent := Entry(ts, ts, [], None, false, 0);
      if key in pending {
        if ts - pending[key].tLast > TIMEOUT_NS {
          incomplete := incomplete + 1;
        } else {
          ent := pending[key];
        }
      }
      ent := ent.(tFirst := Min(ent.tFirst, ts), tLast := Max(ent.tLast, ts),
                  parts := ent.parts + [Part(p.fragOff, p.body)], n := ent.n + 1,
                  trunc := ent.trunc || p.truncated);
      if !p.mf {
        ent := ent.(total := Some(p.fragOff + |p.body|));
      }
      pending := pending[key := ent];
      if ent.total.None? {
        return None;
      }
      var whole := Assemble(ent.parts, ent.total.value);
      if whole.None? {
        return None;
      }
      pending := pending - {key};
      assert pending == old(pending) - {key};
      return Finish(ent.tFirst, ent.tLast, p.src, p.dst, whole.value, ent.n, ent.trunc);
    }

    method Flush()
      modifies this
      ensures Now() == Store(map[], old(incomplete) + |old(pending)|)
    {
      incomplete := incomplete + |pending|;
      pending := map[];
    }
  }
}
