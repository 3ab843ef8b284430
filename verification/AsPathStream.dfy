/** The loops of aspath_put and assegments_parse, on a bounded stream with a read cursor. */
module AsPathStream {
  import opened Octets
  import opened Sequences
  import opened Wrappers
  import opened SortedSets
  import opened AsPath
  import opened AsPathWire

  /** A stream of lib/stream.c: octets written so far, a capacity, and how far reading has got. */
  class Stream {
    const size: nat
    var data: seq<Octet>
    var getp: nat

    constructor (size: nat)
      ensures Valid() && this.size == size && data == [] && getp == 0
    {
      this.size := size;
      data, getp := [], 0;
    }

    ghost predicate Valid()
      reads this
    {
      getp <= |data| <= size
    }

    function Writeable(): int
      reads this
    {
      size - |data|
    }

    /** Writing asserts that there is room. */
    method Putc(c: Octet)
      requires Valid() && Writeable() >= 1
      modifies this`data
      ensures Valid() && data == old(data) + [c]
    {
      data := data + [c];
    }

    /** stream_putl or stream_putw. */
    method PutAsn(x: Word, use32: bool)
      requires Valid() && Writeable() >= Span(1, use32)
      modifies this`data
      ensures Valid() && data == old(data) + EncAsn(x, use32)
    {
      data := data + EncAsn(x, use32);
    }

    method PutcAt(at: nat, c: Octet)
      requires Valid() && at < |data|
      modifies this`data
      ensures Valid() && data == old(data)[at := c]
    {
      data := data[at := c];
    }

    method Getc() returns (c: Octet)
      requires Valid() && getp < |data|
      modifies this`getp
      ensures Valid() && c == data[old(getp)] && getp == old(getp) + 1
    {
      c := data[getp];
      getp := getp + 1;
    }

    method GetAsn(use32: bool) returns (x: Word)
      requires Valid() && getp + Span(1, use32) <= |data|
      modifies this`getp
      ensures Valid() && getp == old(getp) + Span(1, use32) && x == DecAsn(data[old(getp)..getp], use32)
    {
      x := DecAsn(data[getp..getp + Span(1, use32)], use32);
      getp := getp + Span(1, use32);
    }
  }

  // ---------- writing ----------

  lemma {:induction false} EncAsnsSnoc(a: seq<Word>, n: nat, use32: bool)
    requires n < |a|
    ensures EncAsns(a[..n + 1], use32) == EncAsns(a[..n], use32) + EncAsn(a[n], use32)
  {
    if n == 0 {
      assert a[..1] == [a[0]] && a[..1][1..] == [];
    } else {
      assert a[..n + 1][1..] == a[1..][..n] && a[..n][1..] == a[1..][..n - 1];
      EncAsnsSnoc(a[1..], n - 1, use32);
      AppendAssoc(EncAsn(a[0], use32), EncAsns(a[1..][..n - 1], use32), EncAsn(a[n], use32));
    }
  }

  method DataPut(s: Stream, a: seq<Word>, use32: bool)
    requires s.Valid() && |a| <= SEGMENT_MAX && Span(|a|, use32) <= s.Writeable()
    modifies s`data
    ensures s.Valid() && s.data == old(s.data) + EncAsns(a, use32)
  {
    for i := 0 to |a|
      invariant s.Valid() && s.data == old(s.data) + EncAsns(a[..i], use32)
    {
      EncAsnsSnoc(a, i, use32);
      s.PutAsn(a[i], use32);
    }
    assert a[..|a|] == a;
  }

  /** Type and count octets; returns where the count octet is, for patching. */
  method HeaderPut(s: Stream, kind: SegType, length: int) returns (lenp: nat)
    requires s.Valid() && 0 <= length <= SEGMENT_MAX && s.Writeable() >= 2
    modifies s`data
    ensures s.Valid() && s.data == old(s.data) + [Code(kind), length] && lenp == |old(s.data)| + 1
  {
    s.Putc(Code(kind));
    lenp := |s.data|;
    s.Putc(length);
  }

  /** A whole segment: header and data. */
  method PiecePut(s: Stream, kind: SegType, a: seq<Word>, use32: bool) returns (lenp: nat)
    requires s.Valid() && |a| <= SEGMENT_MAX && 2 + Span(|a|, use32) <= s.Writeable()
    modifies s`data
    ensures s.Valid() && s.data == old(s.data) + EncSeg(Segment(kind, a), use32) && lenp == |old(s.data)| + 1
  {
    lenp := HeaderPut(s, kind, |a|);
    DataPut(s, a, use32);
    AppendAssoc(old(s.data), [Code(kind), |a|], EncAsns(a, use32));
  }

  lemma ChunkOctetsSnoc(s: Segment, n: nat, use32: bool)
    requires n < FullChunks(|s.asns|)
    ensures ChunkOctets(s, n + 1, use32) == ChunkOctets(s, n, use32) + EncSeg(Segment(s.kind, Chunk(s.asns)), use32)
  {
    var c := EncSeg(Segment(s.kind, Chunk(s.asns)), use32);
    if n > 0 {
      ChunkOctetsSnoc(s, n - 1, use32);
      AppendAssoc(c, ChunkOctets(s, n - 1, use32), c);
    }
  }

  lemma ChunkOctetsMonotone(s: Segment, m: nat, n: nat, use32: bool)
    requires m <= n <= FullChunks(|s.asns|)
    ensures |ChunkOctets(s, m, use32)| <= |ChunkOctets(s, n, use32)|
  {
    if m < n {
      ChunkOctetsMonotone(s, m, n - 1, use32);
    }
  }

  /** The overlength loop: it writes the first chunk every time and miscounts from the second on. */
  method PutOverlength(s: Stream, seg: Segment, use32: bool) returns (written: nat, bytes: nat)
    requires s.Valid() && |ChunkOctets(seg, FullChunks(|seg.asns|), use32)| <= s.Writeable()
    modifies s`data
    ensures s.Valid() && s.data == old(s.data) + ChunkOctets(seg, FullChunks(|seg.asns|), use32)
    ensures written == SEGMENT_MAX * FullChunks(|seg.asns|) <= |seg.asns|
    ensures bytes == ChunkCount(FullChunks(|seg.asns|), use32)
  {
    ghost var n, all := 0, FullChunks(|seg.asns|);
    written, bytes := 0, 0;
    while |seg.asns| - written > SEGMENT_MAX
      invariant s.Valid() && n <= all && written == SEGMENT_MAX * n <= |seg.asns|
      invariant all == n + FullChunks(|seg.asns| - written)
      invariant s.data == old(s.data) + ChunkOctets(seg, n, use32) && bytes == ChunkCount(n, use32)
    {
      ChunkOctetsMonotone(seg, n + 1, all, use32);
      ChunkOctetsSnoc(seg, n, use32);
      AppendAssoc(old(s.data), ChunkOctets(seg, n, use32), EncSeg(Segment(seg.kind, Chunk(seg.asns)), use32));
      var lenp := PiecePut(s, seg.kind, seg.asns[..SEGMENT_MAX], use32);
      written := written + SEGMENT_MAX;
      bytes := bytes + 2 + Span(written, use32);
      n := n + 1;
    }
  }

  lemma {:induction false} EncAllSnoc(p: Path, k: nat, use32: bool)
    requires k < |p|
    ensures EncAll(p[..k + 1], use32) == EncAll(p[..k], use32) + EncAsns(p[k].asns, use32)
    ensures AsnCount(p[..k + 1]) == AsnCount(p[..k]) + |p[k].asns|
  {
    if k == 0 {
      assert p[..1] == [p[0]] && p[..1][1..] == [];
    } else {
      assert p[..k + 1][1..] == p[1..][..k] && p[..k][1..] == p[1..][..k - 1];
      EncAllSnoc(p[1..], k - 1, use32);
      AppendAssoc(EncAsns(p[0].asns, use32), EncAll(p[1..][..k - 1], use32), EncAsns(p[k].asns, use32));
    }
  }

  lemma {:induction false} EncAllMonotone(p: Path, j: nat, k: nat, use32: bool)
    requires j <= k <= |p|
    ensures |EncAll(p[..j], use32)| <= |EncAll(p[..k], use32)|
  {
    if j < k {
      EncAllMonotone(p, j, k - 1, use32);
      EncAllSnoc(p, k - 1, use32);
    }
  }

  lemma PackRunStep(s: Segment, rest: Path, k: nat)
    requires k <= |rest| && PackRun(s, rest) == k + PackRun(s, rest[k..])
    ensures k < |rest| && s.kind == Sequence && rest[k].kind == Sequence && |s.asns| + |rest[k].asns| <= SEGMENT_MAX ==>
      PackRun(s, rest) == k + 1 + PackRun(s, rest[k + 1..])
    ensures !(k < |rest| && s.kind == Sequence && rest[k].kind == Sequence
              && |s.asns| + |rest[k].asns| <= SEGMENT_MAX) ==>
      PackRun(s, rest) == k
  {
    if k < |rest| {
      assert rest[k..][1..] == rest[k + 1..];
    }
  }

  lemma PatchMiddle(front: seq<Octet>, a: Octet, c: Octet, d: Octet, tail: seq<Octet>, more: seq<Octet>, e: seq<Octet>)
    ensures (front + ([a, c] + (tail + more)) + e)[|front| + 1 := d] == front + ([a, d] + (tail + (more + e)))
  {
  }

  /** Appending one more packed sequence and patching the count octet. */
  lemma PatchStep(front: seq<Octet>, seg: Segment, rest: Path, k: nat, use32: bool)
    requires k < |rest| && |seg.asns| + |rest[k].asns| <= SEGMENT_MAX && 0 <= CountOctet(seg, rest[..k]) <= SEGMENT_MAX
    ensures CountOctet(seg, rest[..k + 1]) == |seg.asns| + |rest[k].asns|
    ensures var b := front + LastPiece(seg, rest[..k], use32) + EncAsns(rest[k].asns, use32);
      |front| + 1 < |b| && b[|front| + 1 := |seg.asns| + |rest[k].asns|] == front + LastPiece(seg, rest[..k + 1], use32)
  {
    EncAllSnoc(rest, k, use32);
    assert rest[..k + 1][k] == rest[k];
    PatchMiddle(front, Code(seg.kind), CountOctet(seg, rest[..k]), |seg.asns| + |rest[k].asns|,
                EncAsns(Final(seg.asns), use32), EncAll(rest[..k], use32), EncAsns(rest[k].asns, use32));
  }

  lemma PackStep(seg: Segment, rest: Path, k: nat, all: nat, use32: bool)
    requires k < |rest| && all == PackRun(seg, rest) == k + PackRun(seg, rest[k..])
    requires seg.kind == Sequence && rest[k].kind == Sequence && |seg.asns| + |rest[k].asns| <= SEGMENT_MAX
    ensures all == k + 1 + PackRun(seg, rest[k + 1..])
    ensures |EncAll(rest[..k], use32)| + Span(|rest[k].asns|, use32) ==
      |EncAll(rest[..k + 1], use32)| <= |EncAll(rest[..all], use32)|
    ensures AsnCount(rest[..k + 1]) == AsnCount(rest[..k]) + |rest[k].asns|
  {
    PackRunStep(seg, rest, k);
    EncAllMonotone(rest, k + 1, all, use32);
    EncAllSnoc(rest, k, use32);
  }

  /** Adds the data of the next sequence and patches the count octet from it alone. */
  method PackNext(s: Stream, seg: Segment, rest: Path, k: nat, written: nat, lenp: nat, use32: bool,
                  ghost front: seq<Octet>)
    requires k < |rest| && |seg.asns| + |rest[k].asns| <= SEGMENT_MAX && 0 <= CountOctet(seg, rest[..k]) <= SEGMENT_MAX
    requires written == SEGMENT_MAX * FullChunks(|seg.asns|) && lenp == |front| + 1
    requires s.Valid() && s.data == front + LastPiece(seg, rest[..k], use32)
    requires Span(|rest[k].asns|, use32) <= s.Writeable()
    modifies s`data
    ensures s.Valid() && s.Writeable() == old(s.Writeable()) - Span(|rest[k].asns|, use32)
    ensures 0 <= CountOctet(seg, rest[..k + 1]) <= SEGMENT_MAX && s.data == front + LastPiece(seg, rest[..k + 1], use32)
  {
    PatchStep(front, seg, rest, k, use32);
    DataPut(s, rest[k].asns, use32);
    s.PutcAt(lenp, |seg.asns| - written + |rest[k].asns|);
  }

  /** Packing the following sequences in, as long as each on its own would fit beside the first. */
  method PutPacked(s: Stream, seg: Segment, rest: Path, written: nat, lenp: nat, use32: bool, ghost front: seq<Octet>)
    returns (k: nat, asns: nat)
    requires s.Valid() && s.data == front + LastPiece(seg, [], use32) && lenp == |front| + 1
    requires written == SEGMENT_MAX * FullChunks(|seg.asns|)
    requires |EncAll(rest[..PackRun(seg, rest)], use32)| <= s.Writeable()
    modifies s`data
    ensures s.Valid() && k == PackRun(seg, rest) && asns == AsnCount(rest[..k])
    ensures 0 <= CountOctet(seg, rest[..k]) <= SEGMENT_MAX && s.data == front + LastPiece(seg, rest[..k], use32)
  {
    ghost var all, room := PackRun(seg, rest), s.Writeable();
    k, asns := 0, 0;
    while k < |rest| && seg.kind == Sequence && rest[k].kind == Sequence && |seg.asns| + |rest[k].asns| <= SEGMENT_MAX
      invariant s.Valid() && k <= all <= |rest| && all == k + PackRun(seg, rest[k..])
      invariant 0 <= CountOctet(seg, rest[..k]) <= SEGMENT_MAX && s.data == front + LastPiece(seg, rest[..k], use32)
      invariant asns == AsnCount(rest[..k]) && s.Writeable() == room - |EncAll(rest[..k], use32)|
    {
      PackStep(seg, rest, k, all, use32);
      PackNext(s, seg, rest, k, written, lenp, use32, front);
      asns := asns + |rest[k].asns|;
      k := k + 1;
    }
    PackRunStep(seg, rest, k);
  }

  /** One turn of the outer loop. */
  method PutOne(s: Stream, seg: Segment, rest: Path, use32: bool) returns (k: nat, bytes: nat)
    requires s.Valid() && 0 <= CountOctet(seg, rest[..PackRun(seg, rest)]) <= SEGMENT_MAX
    requires |PutSeg(seg, rest[..PackRun(seg, rest)], use32)| <= s.Writeable()
    modifies s`data
    ensures s.Valid() && k == PackRun(seg, rest)
    ensures s.data == old(s.data) + PutSeg(seg, rest[..k], use32) && bytes == CountSeg(seg, rest[..k], use32)
  {
    ghost var front := old(s.data) + ChunkOctets(seg, FullChunks(|seg.asns|), use32);
    var written, asns;
    written, bytes := PutOverlength(s, seg, use32);
    var lenp := PiecePut(s, seg.kind, seg.asns[written..], use32);
    assert LastPiece(seg, [], use32) == EncSeg(Segment(seg.kind, Final(seg.asns)), use32);
    k, asns := PutPacked(s, seg, rest, written, lenp, use32, front);
    AppendAssoc(old(s.data), ChunkOctets(seg, FullChunks(|seg.asns|), use32), LastPiece(seg, rest[..k], use32));
    bytes := bytes + 2 + Span(|seg.asns| - written + asns, use32);
  }

  /** What is to be written and counted in all is what has been, and what the rest of the chain comes to. */
  ghost predicate Awaits(wanted: Option<seq<Octet>>, total: nat, done: seq<Octet>, bytes: nat, chain: Path, left: nat,
                         use32: bool) {
    wanted == Prefixed(done, Emitted(Turns(chain, use32), left)) && total == bytes + Counted(Turns(chain, use32), left)
  }

  lemma AwaitsNext(wanted: Option<seq<Octet>>, total: nat, done: seq<Octet>, bytes: nat, chain: Path, left: nat,
                   use32: bool)
    requires chain != [] && TurnOf(chain, use32).need <= left && Awaits(wanted, total, done, bytes, chain, left, use32)
    ensures var t := TurnOf(chain, use32);
      && (|t.octets| > left ==> wanted == None)
      && (|t.octets| <= left ==>
           Awaits(wanted, total, done + t.octets, bytes + t.count, TurnRest(chain), left - |t.octets|, use32))
  {
    TurnsStep(done, chain, left, use32);
  }

  lemma AwaitsNothing(wanted: Option<seq<Octet>>, total: nat, done: seq<Octet>, bytes: nat, chain: Path, left: nat,
                      use32: bool)
    requires chain == [] || TurnOf(chain, use32).need > left
    requires Awaits(wanted, total, done, bytes, chain, left, use32)
    ensures wanted == Some(done) && total == bytes
  {
    assert done + [] == done;
  }

  /** The outer loop: turns until the chain is through, a segment does not fit whole, or a write runs out of room. */
  method PutSegments(s: Stream, p: Path, use32: bool) returns (r: Option<nat>)
    requires s.Valid()
    modifies s`data
    ensures s.Valid() && (r == None <==> Emitted(Turns(p, use32), old(s.Writeable())) == None)
    ensures r.Some? ==> s.data == old(s.data) + Emitted(Turns(p, use32), old(s.Writeable())).value
    ensures r.Some? ==> r.value == Counted(Turns(p, use32), old(s.Writeable()))
  {
    var chain: Path, bytes: nat := p, 0;
    ghost var done: seq<Octet> := [];
    ghost var wanted, total := Emitted(Turns(p, use32), s.Writeable()), Counted(Turns(p, use32), s.Writeable());
    PrefixedNone(wanted);
    while chain != [] && 2 + Span(|chain[0].asns|, use32) <= s.Writeable()
      invariant s.Valid() && s.data == old(s.data) + done
      invariant Awaits(wanted, total, done, bytes, chain, s.Writeable(), use32)
      decreases |chain|
    {
      var b;
      b, done := NextTurn(s, chain, use32, old(s.data), wanted, total, done, bytes);
      if b == None {
        return None;
      }
      bytes := bytes + b.value;
      chain := TurnRest(chain);
    }
    AwaitsNothing(wanted, total, done, bytes, chain, s.Writeable(), use32);
    r := Some(bytes);
  }

  /** One turn of the outer loop: the octets it counts, or None when a write runs out of room. */
  method PutTurn(s: Stream, chain: Path, use32: bool, ghost front: seq<Octet>, ghost done: seq<Octet>)
    returns (b: Option<nat>)
    requires s.Valid() && chain != [] && s.data == front + done
    modifies s`data
    ensures s.Valid() && (b == None <==> |TurnOf(chain, use32).octets| > old(s.Writeable()))
    ensures b.Some? ==> b.value == TurnOf(chain, use32).count
    ensures b.Some? ==> s.data == front + (done + TurnOf(chain, use32).octets)
    ensures b.Some? ==> s.Writeable() == old(s.Writeable()) - |TurnOf(chain, use32).octets|
  {
    if |TurnOf(chain, use32).octets| > s.Writeable() {
      return None;
    }
    PackedFits(chain[0], chain[1..]);
    var _, count := PutOne(s, chain[0], chain[1..], use32);
    AppendAssoc(front, done, TurnOf(chain, use32).octets);
    b := Some(count);
  }

  lemma AwaitsAfter(wanted: Option<seq<Octet>>, total: nat, done: seq<Octet>, bytes: nat, chain: Path, left: nat,
                    use32: bool, b: Option<nat>)
    requires chain != [] && 2 + Span(|chain[0].asns|, use32) <= left
    requires Awaits(wanted, total, done, bytes, chain, left, use32)
    requires b == None <==> |TurnOf(chain, use32).octets| > left
    requires b.Some? ==> b.value == TurnOf(chain, use32).count
    ensures b == None ==> wanted == None
    ensures b.Some? ==> Awaits(wanted, total, done + TurnOf(chain, use32).octets, bytes + b.value, TurnRest(chain),
                               left - |TurnOf(chain, use32).octets|, use32)
  {
    AwaitsNext(wanted, total, done, bytes, chain, left, use32);
  }

  /** The turn, and what it leaves to be written. */
  method NextTurn(s: Stream, chain: Path, use32: bool, ghost front: seq<Octet>, ghost wanted: Option<seq<Octet>>,
                  ghost total: nat, ghost done: seq<Octet>, ghost bytes: nat)
    returns (b: Option<nat>, ghost after: seq<Octet>)
    requires s.Valid() && chain != [] && 2 + Span(|chain[0].asns|, use32) <= s.Writeable() && s.data == front + done
    requires Awaits(wanted, total, done, bytes, chain, s.Writeable(), use32)
    modifies s`data
    ensures s.Valid() && (b == None ==> wanted == None)
    ensures b.Some? ==> s.data == front + after
    ensures b.Some? ==> Awaits(wanted, total, after, bytes + b.value, TurnRest(chain), s.Writeable(), use32)
  {
    after := done + TurnOf(chain, use32).octets;
    b := PutTurn(s, chain, use32, front, done);
    AwaitsAfter(wanted, total, done, bytes, chain, old(s.Writeable()), use32, b);
  }

  /**
   * Writes a path into a stream, whatever room there is: the octets it believes it wrote, or None when a write runs out
   * of room, which aborts. It stops without a word before a segment that does not fit whole.
   */
  method AspathPut(s: Stream, p: Path, use32: bool) returns (r: Option<nat>)
    requires s.Valid()
    modifies s`data
    ensures s.Valid() && (r == None <==> BytesInRoom(p, old(s.Writeable()), use32) == None)
    ensures r.Some? ==> s.data == old(s.data) + BytesInRoom(p, old(s.Writeable()), use32).value
    ensures r.Some? ==> r.value == CountInRoom(p, old(s.Writeable()), use32)
    ensures |PutBytes(p, use32)| <= old(s.Writeable()) ==>
      s.data == old(s.data) + PutBytes(p, use32) && r == Some(PutCount(p, use32))
  {
    EnoughRoom(p, s.Writeable(), use32);
    if |p| == 0 || |p[0].asns| == 0 {
      return Some(0);
    }
    r := PutSegments(s, p, use32);
  }

  // ---------- reading ----------

  lemma {:induction false} DecAsnsSnoc(b: seq<Octet>, n: nat, use32: bool)
    requires |b| == Span(n + 1, use32)
    ensures DecAsns(b, n + 1, use32) == DecAsns(b[..Span(n, use32)], n, use32) + [DecAsn(b[Span(n, use32)..], use32)]
  {
    var w := Span(1, use32);
    if n == 0 {
      assert b[..w] == b && b[0..] == b;
    } else {
      var front := b[..Span(n, use32)];
      DecAsnsSnoc(b[w..], n - 1, use32);
      assert front[..w] == b[..w] && front[w..] == b[w..][..Span(n - 1, use32)];
      assert b[w..][Span(n - 1, use32)..] == b[Span(n, use32)..];
      AppendAssoc([DecAsn(b[..w], use32)], DecAsns(front[w..], n - 1, use32), [DecAsn(b[Span(n, use32)..], use32)]);
    }
  }

  /** Reads the AS numbers of one segment. */
  method GetAsns(s: Stream, n: nat, use32: bool) returns (asns: seq<Word>)
    requires s.Valid() && s.getp + Span(n, use32) <= |s.data|
    modifies s`getp
    ensures s.Valid() && s.getp == old(s.getp) + Span(n, use32)
    ensures asns == DecAsns(s.data[old(s.getp)..s.getp], n, use32)
  {
    asns := [];
    ghost var start := s.getp;
    for i := 0 to n
      invariant s.Valid() && s.getp == start + Span(i, use32)
      invariant asns == DecAsns(s.data[start..s.getp], i, use32)
    {
      ghost var b := s.data[start..start + Span(i + 1, use32)];
      DecAsnsSnoc(b, i, use32);
      SliceCut(s.data, start, Span(i, use32), Span(i + 1, use32));
      var x := s.GetAsn(use32);
      asns := asns + [x];
    }
  }

  lemma SliceOfSlice(d: seq<Octet>, p: nat, left: nat, n: nat)
    requires p + left <= |d| && 2 <= n <= left
    ensures d[p..p + left][2..n] == d[p + 2..p + n]
  {
    var a, b := d[p..p + left][2..n], d[p + 2..p + n];
    assert |a| == |b|;
    forall i | 0 <= i < |a| ensures a[i] == b[i] {
      assert a[i] == d[p..p + left][2 + i] == d[p + 2 + i];
    }
  }

  /** Reads one segment of the octets b that are left, or reports that it is malformed. */
  method GetSegment(s: Stream, left: nat, use32: bool, ghost b: seq<Octet>) returns (r: Option<Segment>)
    requires s.Valid() && 0 < left <= |s.data| - s.getp && b == s.data[s.getp..s.getp + left]
    modifies s`getp
    ensures s.Valid() && r == if HeadOk(b, use32) then Some(Head(b, use32)) else None
    ensures r.Some? ==> s.getp == old(s.getp) + HeadSize(b, use32)
  {
    if left <= 2 {
      return None;
    }
    var kind := s.Getc();
    var length := s.Getc();
    if 2 + Span(length, use32) > left || length == 0 || KindOf(kind) == None {
      return None;
    }
    var asns := GetAsns(s, length, use32);
    SliceOfSlice(s.data, old(s.getp), left, HeadSize(b, use32));
    return Some(Segment(KindOf(kind).value, asns));
  }

  lemma PrefixedAssoc(p: Path, s: Segment, q: Option<Path>)
    ensures Prefixed(p, Prefixed([s], q)) == Prefixed(p + [s], q)
    ensures Prefixed([], q) == q
  {
    if q.Some? {
      AppendAssoc(p, [s], q.value);
      assert [] + q.value == q.value;
    }
  }

  /** One segment off the front of what is left to parse. */
  lemma ParseNext(b: seq<Octet>, raw: Path, use32: bool)
    requires b != []
    ensures Prefixed(raw, ParseRaw(b, use32)) ==
      if HeadOk(b, use32) then Prefixed(raw + [Head(b, use32)], ParseRaw(b[HeadSize(b, use32)..], use32)) else None
  {
    if HeadOk(b, use32) {
      PrefixedAssoc(raw, Head(b, use32), ParseRaw(b[HeadSize(b, use32)..], use32));
    }
  }

  /** The segment loop over exactly `length` octets. */
  method GetSegments(s: Stream, length: nat, use32: bool) returns (r: Option<Path>)
    requires s.Valid() && length <= |s.data| - s.getp
    modifies s`getp
    ensures s.Valid() && r == ParseRaw(s.data[old(s.getp)..old(s.getp) + length], use32)
    ensures r.Some? ==> s.getp == old(s.getp) + length
  {
    ghost var end, b := s.getp + length, s.data[s.getp..s.getp + length];
    ghost var all := ParseRaw(b, use32);
    var raw: Path, bytes := [], 0;
    PrefixedAssoc([], Segment(Set, []), all);
    while bytes < length
      invariant s.Valid() && 0 <= bytes <= length && s.getp == end - length + bytes
      invariant b == s.data[s.getp..end] && all == Prefixed(raw, ParseRaw(b, use32))
    {
      ParseNext(b, raw, use32);
      var seg := GetSegment(s, length - bytes, use32, b);
      if seg == None {
        return None;
      }
      raw := raw + [seg.value];
      bytes := bytes + (2 + Span(|seg.value.asns|, use32));
      b := b[HeadSize(b, use32)..];
    }
    assert b == [];
    assert raw + [] == raw;
    r := Some(raw);
  }

  /** Parses `length` octets at the cursor; on success exactly those have been consumed. */
  method AssegmentsParse(s: Stream, length: nat, use32: bool) returns (r: Option<Path>)
    requires s.Valid()
    modifies s`getp
    ensures s.Valid()
    ensures |s.data| - old(s.getp) < length ==> r == None
    ensures length <= |s.data| - old(s.getp) ==> r == Parse(s.data[old(s.getp)..old(s.getp) + length], use32)
    ensures r.Some? ==> s.getp == old(s.getp) + length
  {
    if length == 0 {
      return Some([]);
    }
    if |s.data| - s.getp < length || |s.data| - s.getp < 2 || length % 2 != 0 {
      if length <= |s.data| - s.getp && ParseRaw(s.data[s.getp..s.getp + length], use32).Some? {
        ParsedIsEven(s.data[s.getp..s.getp + length], use32);
      }
      return None;
    }
    var raw := GetSegments(s, length, use32);
    if raw == None {
      return None;
    }
    var chain := new AsPathChain(raw.value);
    chain.NormaliseInPlace();
    r := Some(chain.segments);
  }
}
