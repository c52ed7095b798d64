/** What the reassembler makes of parts that overlap and disagree: any parts whatever, not only pieces
    of one datagram. */
module FragmentOverlaps {
  import opened Wrappers
  import opened Bytes
  import opened Reassembly

  // ---------------------------------------------------------------------------------------
  // The order of the parts
  // ---------------------------------------------------------------------------------------

  predicate DifferAt(a: seq<Byte>, b: seq<Byte>, i: nat) {
    i < |a| && i < |b| && a[..i] == b[..i] && a[i] < b[i]
  }

  /** Python's order on byte strings: a prefix first, or the smaller byte where they first differ. */
  ghost predicate Lexical(a: seq<Byte>, b: seq<Byte>) {
    a <= b || exists i :: DifferAt(a, b, i)
  }

  lemma {:induction false} BytesLeIsLexical(a: seq<Byte>, b: seq<Byte>)
    ensures BytesLe(a, b) <==> Lexical(a, b)
    decreases |a|
  {
    if a != [] && b != [] {
      BytesLeIsLexical(a[1..], b[1..]);
      if a[0] < b[0] {
        assert DifferAt(a, b, 0);
      } else if a[0] == b[0] {
        SameFirst(a, b);
      } else {
        FirstIsLarger(a, b);
      }
    }
  }

  lemma FirstIsLarger(a: seq<Byte>, b: seq<Byte>)
    requires a != [] && b != [] && a[0] > b[0]
    ensures !Lexical(a, b)
  {
    forall i: nat ensures !DifferAt(a, b, i) {
      if 0 < i < |a| && i < |b| {
        assert a[..i][0] != b[..i][0];
      }
    }
  }

  lemma SameFirst(a: seq<Byte>, b: seq<Byte>)
    requires a != [] && b != [] && a[0] == b[0]
    ensures Lexical(a, b) <==> Lexical(a[1..], b[1..])
  {
    assert a == [a[0]] + a[1..] && b == [b[0]] + b[1..];
    if i: nat :| DifferAt(a, b, i) {
      assert 0 < i;
      assert a[1..][..i - 1] == a[..i][1..] && b[1..][..i - 1] == b[..i][1..];
      assert DifferAt(a[1..], b[1..], i - 1);
    }
    if i: nat :| DifferAt(a[1..], b[1..], i) {
      assert a[..i + 1] == [a[0]] + a[1..][..i] && b[..i + 1] == [b[0]] + b[1..][..i];
      assert DifferAt(a, b, i + 1);
    }
  }

  lemma {:induction false} BytesLeIsTotal(a: seq<Byte>, b: seq<Byte>)
    ensures BytesLe(a, b) || BytesLe(b, a)
    decreases |a|
  {
    if a != [] && b != [] {
      BytesLeIsTotal(a[1..], b[1..]);
    }
  }

  lemma {:induction false} BytesLeIsTransitive(a: seq<Byte>, b: seq<Byte>, c: seq<Byte>)
    requires BytesLe(a, b) && BytesLe(b, c)
    ensures BytesLe(a, c)
    decreases |a|
  {
    if a != [] && a[0] == b[0] == c[0] {
      BytesLeIsTransitive(a[1..], b[1..], c[1..]);
    }
  }

  lemma PartLeIsTransitive(p: Part, q: Part, r: Part)
    requires PartLe(p, q) && PartLe(q, r)
    ensures PartLe(p, r)
  {
    if p.off == q.off == r.off {
      BytesLeIsTransitive(p.body, q.body, r.body);
    }
  }

  ghost predicate PartsAscend(s: seq<Part>) {
    forall i, j | 0 <= i < j < |s| :: PartLe(s[i], s[j])
  }

  lemma {:induction false} InsertPartOrders(p: Part, s: seq<Part>)
    requires PartsAscend(s)
    ensures PartsAscend(InsertPart(p, s)) && multiset(InsertPart(p, s)) == multiset(s) + multiset{p}
  {
    hide PartLe;
    if s != [] {
      assert s == [s[0]] + s[1..];
      if PartLe(p, s[0]) {
        forall j | 0 <= j < |s| ensures PartLe(p, s[j]) {
          if 0 < j {
            PartLeIsTransitive(p, s[0], s[j]);
          }
        }
      } else {
        InsertPartOrders(p, s[1..]);
        PartIsAfter(p, s[0]);
        var rest := InsertPart(p, s[1..]);
        forall j | 0 <= j < |rest| ensures PartLe(s[0], rest[j]) {
          assert rest[j] in multiset(rest);
          assert rest[j] == p || rest[j] in s[1..];
        }
      }
    }
  }

  lemma PartIsAfter(p: Part, q: Part)
    ensures PartLe(p, q) || PartLe(q, p)
  {
    BytesLeIsTotal(p.body, q.body);
  }

  /** The parts are sorted as Python sorts pairs of an offset and a byte string, none lost. */
  lemma {:induction false} SortPartsOrders(s: seq<Part>)
    ensures PartsAscend(SortParts(s)) && multiset(SortParts(s)) == multiset(s)
  {
    if s != [] {
      SortPartsOrders(s[1..]);
      InsertPartOrders(s[0], SortParts(s[1..]));
      assert s == [s[0]] + s[1..];
    }
  }

  // ---------------------------------------------------------------------------------------
  // The sweep
  // ---------------------------------------------------------------------------------------

  predicate Covers(p: Part, i: nat) {
    p.off <= i < p.off + |p.body|
  }

  /** The sweep comes through exactly when no part begins beyond the end and no byte is missing. */
  lemma {:induction false} SweepSucceeds(parts: seq<Part>, covered: nat, buf: seq<Byte>)
    requires OffsetsAscend(parts) && covered <= |buf|
    ensures Sweep(parts, covered, buf).Some? <==>
            (forall p | p in parts :: p.off <= |buf|) && forall i | covered <= i < |buf| :: Has(parts, i)
    decreases |parts|
  {
    hide Place, Has;
    if parts == [] {
      NothingBefore(parts, covered);
    } else {
      var p := parts[0];
      assert p in parts;
      if p.off > covered {
        NothingBefore(parts, covered);
      } else {
        var chunk := Clip(p, |buf|);
        SweepSucceeds(parts[1..], Max(covered, p.off + |chunk|), Place(buf, p.off, chunk));
        ClippedLeaves(parts, covered, |buf|);
        assert forall q | q in parts :: q == p || q in parts[1..];
      }
    }
  }

  lemma ClippedLeaves(parts: seq<Part>, covered: nat, total: nat)
    requires parts != [] && parts[0].off <= covered <= total
    ensures (forall i | covered <= i < total :: Has(parts, i)) <==>
            (forall i | Max(covered, parts[0].off + |Clip(parts[0], total)|) <= i < total :: Has(parts[1..], i))
  {
    HasWithoutFirst(parts, covered, total);
    hide Has;
  }

  /** The last part that covers byte `i` has it. */
  ghost predicate FromTheLast(parts: seq<Part>, i: nat, b: Byte) {
    exists k | 0 <= k < |parts| ::
      Covers(parts[k], i) && b == parts[k].body[i - parts[k].off] && forall j | k < j < |parts| :: !Covers(parts[j], i)
  }

  lemma {:induction false} SweepTakesTheLast(parts: seq<Part>, covered: nat, buf: seq<Byte>, i: nat)
    requires covered <= |buf| && Sweep(parts, covered, buf).Some? && i < |buf|
    ensures var out := Sweep(parts, covered, buf).value;
            && |out| == |buf|
            && if exists p | p in parts :: Covers(p, i) then FromTheLast(parts, i, out[i]) else out[i] == buf[i]
    decreases |parts|
  {
    hide FromTheLast;
    if parts != [] {
      var p, rest := parts[0], parts[1..];
      var chunk := Clip(p, |buf|);
      var next := Place(buf, p.off, chunk);
      SweepTakesTheLast(rest, Max(covered, p.off + |chunk|), next, i);
      PlacedByte(buf, p, i);
      assert forall q | q in parts :: q == p || q in rest;
      assert p in parts && forall q | q in rest :: q in parts;
      var out := Sweep(parts, covered, buf).value;
      if exists q | q in rest :: Covers(q, i) {
        LaterCovers(parts, i, out[i]);
      } else if Covers(p, i) {
        OnlyTheFirst(parts, i);
      }
    }
  }

  lemma PlacedByte(buf: seq<Byte>, p: Part, i: nat)
    requires p.off <= |buf| && i < |buf|
    ensures Place(buf, p.off, Clip(p, |buf|))[i] == if Covers(p, i) then p.body[i - p.off] else buf[i]
  {
  }

  lemma LaterCovers(parts: seq<Part>, i: nat, b: Byte)
    requires parts != [] && FromTheLast(parts[1..], i, b)
    ensures FromTheLast(parts, i, b)
  {
    var rest := parts[1..];
    var k :| 0 <= k < |rest| && Covers(rest[k], i) && b == rest[k].body[i - rest[k].off]
             && forall j | k < j < |rest| :: !Covers(rest[j], i);
    forall j | k + 1 < j < |parts| ensures !Covers(parts[j], i) {
      assert parts[j] == rest[j - 1];
    }
    assert parts[k + 1] == rest[k];
  }

  lemma OnlyTheFirst(parts: seq<Part>, i: nat)
    requires parts != [] && Covers(parts[0], i) && !exists q | q in parts[1..] :: Covers(q, i)
    ensures FromTheLast(parts, i, parts[0].body[i - parts[0].off])
  {
    forall j | 0 < j < |parts| ensures !Covers(parts[j], i) {
      assert parts[j] in parts[1..];
    }
  }

  // ---------------------------------------------------------------------------------------
  // Any parts
  // ---------------------------------------------------------------------------------------

  /** `q` is overwritten where `p` covers the same byte. */
  ghost predicate GivesWay(q: Part, p: Part) {
    q.off < p.off || (q.off == p.off && Lexical(q.body, p.body))
  }

  /** Of the parts that cover byte `i`, the one that the others give way to has it. */
  ghost predicate Decided(parts: seq<Part>, i: nat, b: Byte) {
    exists p | p in parts ::
      Covers(p, i) && b == p.body[i - p.off] && forall q | q in parts && Covers(q, i) :: GivesWay(q, p)
  }

  lemma LastDecides(parts: seq<Part>, sorted: seq<Part>, i: nat, b: Byte)
    requires PartsAscend(sorted) && multiset(sorted) == multiset(parts) && FromTheLast(sorted, i, b)
    ensures Decided(parts, i, b)
  {
    var k :| 0 <= k < |sorted| && Covers(sorted[k], i) && b == sorted[k].body[i - sorted[k].off]
             && forall j | k < j < |sorted| :: !Covers(sorted[j], i);
    var p := sorted[k];
    assert p in multiset(sorted);
    forall q | q in parts && Covers(q, i) ensures GivesWay(q, p) {
      assert q in multiset(parts);
      var j :| 0 <= j < |sorted| && sorted[j] == q;
      BytesLeIsLexical(q.body, p.body);
      if j == k {
        assert Lexical(q.body, p.body);
      } else {
        assert PartLe(q, p);
      }
    }
  }

  /** Whatever the parts are, they make a datagram of `total` bytes exactly when none begins beyond it
      and every byte is in some part; and where parts disagree the last in order has the byte. */
  lemma AssembledOfAny(parts: seq<Part>, total: nat)
    ensures Assembled(parts, total).Some? <==>
            (forall p | p in parts :: p.off <= total) && forall i | 0 <= i < total :: Has(parts, i)
    ensures Assembled(parts, total).Some? ==>
              var d := Assembled(parts, total).value;
              |d| == total && forall i | 0 <= i < total :: Decided(parts, i, d[i])
  {
    hide Sweep, SortParts, PartsAscend, OffsetsAscend, FromTheLast, Has, Decided;
    var sorted := SortParts(parts);
    SortPartsOrders(parts);
    SortPartsKeeps(parts);
    SweepSucceeds(sorted, 0, Zeros(total));
    forall i: nat ensures Has(sorted, i) <==> Has(parts, i) {
      SameParts(sorted, parts, i);
    }
    if Assembled(parts, total).Some? {
      var d := Assembled(parts, total).value;
      SweepKeepsLength(sorted, total);
      forall i | 0 <= i < total ensures Decided(parts, i, d[i]) {
        SweepTakesTheLast(sorted, 0, Zeros(total), i);
        CoveredIsHad(sorted, i);
        LastDecides(parts, sorted, i, d[i]);
      }
    }
  }

  lemma SweepKeepsLength(parts: seq<Part>, total: nat)
    ensures Sweep(parts, 0, Zeros(total)).Some? ==> |Sweep(parts, 0, Zeros(total)).value| == total
  {
    SweepLength(parts, 0, Zeros(total));
  }

  lemma {:induction false} SweepLength(parts: seq<Part>, covered: nat, buf: seq<Byte>)
    requires covered <= |buf|
    ensures Sweep(parts, covered, buf).Some? ==> |Sweep(parts, covered, buf).value| == |buf|
    decreases |parts|
  {
    if parts != [] && parts[0].off <= covered {
      var chunk := Clip(parts[0], |buf|);
      SweepLength(parts[1..], Max(covered, parts[0].off + |chunk|), Place(buf, parts[0].off, chunk));
    }
  }

  lemma SameParts(a: seq<Part>, b: seq<Part>, i: nat)
    requires forall p :: p in a <==> p in b
    ensures Has(a, i) <==> Has(b, i)
  {
    if Has(a, i) {
      var p :| p in a && p.off <= i < p.End();
      assert p in b;
    }
    if Has(b, i) {
      var p :| p in b && p.off <= i < p.End();
      assert p in a;
    }
  }

  lemma CoveredIsHad(parts: seq<Part>, i: nat)
    ensures (exists p | p in parts :: Covers(p, i)) <==> Has(parts, i)
  {
    if Has(parts, i) {
      var p :| p in parts && p.off <= i < p.End();
      assert Covers(p, i);
    }
  }
}
