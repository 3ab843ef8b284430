/**
 * The wire format of AS_PATH and AS4_PATH: segments of a type octet, a count octet
 * and 2- or 4-octet AS numbers, as aspath_put writes and assegments_parse reads them.
 */
module AsPathWire {
  import opened Octets
  import opened Sequences
  import opened Wrappers
  import opened SortedSets
  import opened AsPath

  const SEGMENT_MAX := 255

  /** Octets that n AS numbers take. */
  function Span(n: nat, use32: bool): nat {
    if use32 then 4 * n else 2 * n
  }

  // ---------- AS numbers ----------

  /** Big-endian, four octets or two; a 2-octet session carries AS_TRANS for what does not fit. */
  function EncAsn(x: Word, use32: bool): (b: seq<Octet>)
    ensures |b| == Span(1, use32)
  {
    if use32 then Enc16(x / 0x1_0000) + Enc16(x % 0x1_0000) else Enc16(Trans(x))
  }

  function DecAsn(b: seq<Octet>, use32: bool): Word
    requires |b| == Span(1, use32)
  {
    if use32 then Dec16(b[..2]) * 0x1_0000 + Dec16(b[2..]) else Dec16(b)
  }

  /** What survives of an AS number. */
  function Via(x: Word, use32: bool): Word {
    if use32 then x else Trans(x)
  }

  /** An AS number is written with its most significant octet first, and so read. */
  lemma AsnOctets(x: Word, use32: bool)
    ensures |EncAsn(x, use32)| == (if use32 then 4 else 2) && Number(EncAsn(x, use32)) == Via(x, use32)
  {
    if use32 {
      var b := EncAsn(x, true);
      assert b[..2] == Enc16(x / 0x1_0000) && b[2..] == Enc16(x % 0x1_0000);
      NumberOfFour(b);
    } else {
      NumberOfTwo(EncAsn(x, false));
    }
  }

  lemma OctetsAsn(b: seq<Octet>, use32: bool)
    requires |b| == Span(1, use32)
    ensures DecAsn(b, use32) == Number(b)
  {
    if use32 {
      NumberOfFour(b);
    } else {
      NumberOfTwo(b);
    }
  }

  lemma AsnRoundTrip(x: Word, use32: bool)
    ensures DecAsn(EncAsn(x, use32), use32) == Via(x, use32)
  {
    if use32 {
      var b := EncAsn(x, true);
      assert b[..2] == Enc16(x / 0x1_0000) && b[2..] == Enc16(x % 0x1_0000);
    }
  }

  lemma AsnUnique(b: seq<Octet>, use32: bool)
    requires |b| == Span(1, use32)
    ensures EncAsn(DecAsn(b, use32), use32) == b && Via(DecAsn(b, use32), use32) == DecAsn(b, use32)
  {
    if use32 {
      assert b == b[..2] + b[2..];
      assert Enc16(Dec16(b[..2])) == b[..2] && Enc16(Dec16(b[2..])) == b[2..];
    } else {
      assert Enc16(Dec16(b)) == b;
    }
  }

  function EncAsns(a: seq<Word>, use32: bool): (b: seq<Octet>)
    ensures |b| == Span(|a|, use32)
  {
    if a == [] then [] else EncAsn(a[0], use32) + EncAsns(a[1..], use32)
  }

  function DecAsns(b: seq<Octet>, n: nat, use32: bool): (a: seq<Word>)
    requires |b| == Span(n, use32)
    ensures |a| == n
  {
    if n == 0 then [] else [DecAsn(b[..Span(1, use32)], use32)] + DecAsns(b[Span(1, use32)..], n - 1, use32)
  }

  function ViaAsns(a: seq<Word>, use32: bool): (r: seq<Word>)
    ensures |r| == |a| && forall i :: 0 <= i < |a| ==> r[i] == Via(a[i], use32)
  {
    if use32 then a else TransAsns(a)
  }

  lemma AsnsRoundTrip(a: seq<Word>, use32: bool)
    ensures DecAsns(EncAsns(a, use32), |a|, use32) == ViaAsns(a, use32)
  {
    if a != [] {
      var b, w := EncAsns(a, use32), Span(1, use32);
      assert b[..w] == EncAsn(a[0], use32) && b[w..] == EncAsns(a[1..], use32);
      AsnRoundTrip(a[0], use32);
      AsnsRoundTrip(a[1..], use32);
    }
  }

  lemma AsnsUnique(b: seq<Octet>, n: nat, use32: bool)
    requires |b| == Span(n, use32)
    ensures var a := DecAsns(b, n, use32); EncAsns(a, use32) == b && ViaAsns(a, use32) == a
  {
    if n != 0 {
      var w := Span(1, use32);
      var a := DecAsns(b, n, use32);
      AsnUnique(b[..w], use32);
      AsnsUnique(b[w..], n - 1, use32);
      assert a[1..] == DecAsns(b[w..], n - 1, use32);
      assert b == b[..w] + b[w..];
    }
  }

  // ---------- segments ----------

  function Code(k: SegType): Octet {
    match k
    case Set => 1
    case Sequence => 2
    case ConfedSequence => 3
    case ConfedSet => 4
  }

  function KindOf(c: Octet): Option<SegType> {
    if c == 1 then Some(Set) else if c == 2 then Some(Sequence)
    else if c == 3 then Some(ConfedSequence) else if c == 4 then Some(ConfedSet) else None
  }

  function EncSeg(s: Segment, use32: bool): (b: seq<Octet>)
    requires |s.asns| <= SEGMENT_MAX
    ensures |b| == 2 + Span(|s.asns|, use32)
  {
    [Code(s.kind), |s.asns|] + EncAsns(s.asns, use32)
  }

  function ViaSeg(s: Segment, use32: bool): Segment {
    Segment(s.kind, ViaAsns(s.asns, use32))
  }

  function ViaPath(p: Path, use32: bool): (r: Path)
    ensures |r| == |p| && forall i :: 0 <= i < |p| ==> r[i] == ViaSeg(p[i], use32)
  {
    if use32 then p else TransPath(p)
  }

  /** Segments that fit the count octet, none empty. */
  predicate Sendable(raw: Path) {
    forall i :: 0 <= i < |raw| ==> 0 < |raw[i].asns| <= SEGMENT_MAX
  }

  /** What may be on the wire: besides, no number too wide for it. */
  predicate WellFormed(raw: Path, use32: bool) {
    Sendable(raw) && ViaPath(raw, use32) == raw
  }

  /** A path written segment by segment, as it is. */
  function Wire(raw: Path, use32: bool): seq<Octet>
    requires Sendable(raw)
  {
    if raw == [] then [] else EncSeg(raw[0], use32) + Wire(raw[1..], use32)
  }

  /** The octets start with a complete, non-empty segment of a known type. */
  predicate HeadOk(b: seq<Octet>, use32: bool) {
    |b| > 2 && b[1] != 0 && KindOf(b[0]).Some? && 2 + Span(b[1], use32) <= |b|
  }

  function HeadSize(b: seq<Octet>, use32: bool): nat
    requires |b| > 2
  {
    2 + Span(b[1], use32)
  }

  function Head(b: seq<Octet>, use32: bool): Segment
    requires HeadOk(b, use32)
  {
    Segment(KindOf(b[0]).value, DecAsns(b[2..HeadSize(b, use32)], b[1], use32))
  }

  /** Reading the segments of exactly these octets. */
  function ParseRaw(b: seq<Octet>, use32: bool): Option<Path> {
    if b == [] then Some([])
    else if !HeadOk(b, use32) then None
    else Prefixed([Head(b, use32)], ParseRaw(b[HeadSize(b, use32)..], use32))
  }

  function Prefixed<T>(p: seq<T>, q: Option<seq<T>>): Option<seq<T>> {
    if q.Some? then Some(p + q.value) else None
  }

  lemma HeadOfEnc(s: Segment, rest: seq<Octet>, use32: bool)
    requires 0 < |s.asns| <= SEGMENT_MAX
    ensures var b := EncSeg(s, use32) + rest;
      HeadOk(b, use32) && b[HeadSize(b, use32)..] == rest && Head(b, use32) == ViaSeg(s, use32)
  {
    var b := EncSeg(s, use32) + rest;
    assert b[0] == Code(s.kind) && b[1] == |s.asns|;
    assert b[2..2 + Span(|s.asns|, use32)] == EncAsns(s.asns, use32);
    AsnsRoundTrip(s.asns, use32);
  }

  lemma EncOfHead(b: seq<Octet>, use32: bool)
    requires HeadOk(b, use32)
    ensures var s := Head(b, use32);
      0 < |s.asns| <= SEGMENT_MAX && EncSeg(s, use32) + b[HeadSize(b, use32)..] == b && ViaSeg(s, use32) == s
  {
    var s, n := Head(b, use32), HeadSize(b, use32);
    AsnsUnique(b[2..n], b[1], use32);
    assert b == [b[0], b[1]] + b[2..n] + b[n..];
    assert ViaSeg(s, use32).asns == s.asns;
  }

  lemma ViaCons(raw: Path, use32: bool)
    requires raw != []
    ensures ViaPath(raw, use32) == [ViaSeg(raw[0], use32)] + ViaPath(raw[1..], use32)
  {
  }

  /** What was written parses to what survived of it. */
  lemma {:induction false} ParseWire(raw: Path, use32: bool)
    requires Sendable(raw)
    ensures ParseRaw(Wire(raw, use32), use32) == Some(ViaPath(raw, use32))
  {
    if raw != [] {
      ParseWire(raw[1..], use32);
      HeadOfEnc(raw[0], Wire(raw[1..], use32), use32);
      ViaCons(raw, use32);
    }
  }

  /** Whatever parses is the writing of exactly the well-formed segments it parses to. */
  lemma {:induction false} ParsedIsWire(b: seq<Octet>, use32: bool)
    requires ParseRaw(b, use32).Some?
    ensures var raw := ParseRaw(b, use32).value; WellFormed(raw, use32) && Wire(raw, use32) == b
  {
    if b != [] {
      var rest := ParseRaw(b[HeadSize(b, use32)..], use32).value;
      var raw := [Head(b, use32)] + rest;
      ParsedIsWire(b[HeadSize(b, use32)..], use32);
      EncOfHead(b, use32);
      assert raw[1..] == rest;
      assert ViaPath(raw, use32) == [ViaSeg(raw[0], use32)] + ViaPath(rest, use32);
    }
  }

  /** The parser accepts exactly the concatenations of well-formed non-empty segments, and decodes uniquely. */
  lemma ParseExact(b: seq<Octet>, raw: Path, use32: bool)
    ensures ParseRaw(b, use32) == Some(raw) <==> WellFormed(raw, use32) && Wire(raw, use32) == b
  {
    if ParseRaw(b, use32) == Some(raw) {
      ParsedIsWire(b, use32);
    }
    if WellFormed(raw, use32) && Wire(raw, use32) == b {
      ParseWire(raw, use32);
    }
  }

  lemma {:induction false} ParsedInPairs(b: seq<Octet>, use32: bool) returns (pairs: nat)
    requires ParseRaw(b, use32).Some?
    ensures |b| == pairs + pairs
  {
    if b == [] {
      return 0;
    }
    var n: nat := b[1];
    pairs := ParsedInPairs(b[HeadSize(b, use32)..], use32);
    pairs := pairs + 1 + (if use32 then n + n else n);
  }

  lemma ParsedIsEven(b: seq<Octet>, use32: bool)
    requires ParseRaw(b, use32).Some?
    ensures |b| % 2 == 0
  {
    var pairs := ParsedInPairs(b, use32);
  }

  // ---------- what aspath_put writes for a normalised path ----------

  /** How often the overlength loop runs for a segment of n ASNs. */
  function FullChunks(n: nat): nat {
    if n <= SEGMENT_MAX then 0 else 1 + FullChunks(n - SEGMENT_MAX)
  }

  lemma FullChunksLeave(n: nat)
    ensures SEGMENT_MAX * FullChunks(n) <= n && n - SEGMENT_MAX * FullChunks(n) <= SEGMENT_MAX
    ensures n > 0 ==> n > SEGMENT_MAX * FullChunks(n)
    ensures FullChunks(n) <= 1 <==> n <= 2 * SEGMENT_MAX
  {
  }

  /** What is left for the final piece once the overlength loop is through. */
  function Final(a: seq<Word>): (r: seq<Word>)
    ensures |r| <= SEGMENT_MAX && (a != [] ==> r != [])
  {
    FullChunksLeave(|a|);
    a[SEGMENT_MAX * FullChunks(|a|)..]
  }

  /** The piece the overlength loop writes, every time the same. */
  function Chunk(a: seq<Word>): (r: seq<Word>)
    ensures |a| > SEGMENT_MAX ==> |r| == SEGMENT_MAX
  {
    if |a| <= SEGMENT_MAX then a else a[..SEGMENT_MAX]
  }

  function Copies<T>(x: T, n: nat): (r: seq<T>)
    ensures |r| == n && forall i :: 0 <= i < n ==> r[i] == x
  {
    if n == 0 then [] else [x] + Copies(x, n - 1)
  }

  /** One segment as it goes out: the first chunk once per full chunk, then the remainder. */
  function Split(s: Segment): Path {
    Copies(Segment(s.kind, Chunk(s.asns)), FullChunks(|s.asns|)) + [Segment(s.kind, Final(s.asns))]
  }

  function RawPut(p: Path): Path {
    if p == [] then [] else Split(p[0]) + RawPut(p[1..])
  }

  predicate NoneEmpty(p: Path) {
    forall i :: 0 <= i < |p| ==> p[i].asns != []
  }

  /** The ASNs that arrive for a split sequence. */
  function Repeat(a: seq<Word>, n: nat): seq<Word> {
    if n == 0 then [] else a + Repeat(a, n - 1)
  }

  function Garbled(a: seq<Word>): seq<Word> {
    Repeat(Chunk(a), FullChunks(|a|)) + Final(a)
  }

  /** Every full chunk equals the first: always so up to two chunks. */
  predicate Periodic(a: seq<Word>) {
    forall c :: 1 <= c < FullChunks(|a|) ==> SameChunk(a, c)
  }

  predicate SameChunk(a: seq<Word>, c: nat) {
    SEGMENT_MAX * (c + 1) <= |a| && a[SEGMENT_MAX * c..SEGMENT_MAX * (c + 1)] == Chunk(a)
  }

  /** A run of copies of a, then b, is one sequence again after normalisation. */
  lemma {:induction false} MergeCopies(a: seq<Word>, n: nat, b: seq<Word>, x: Path)
    ensures Normalise(Copies(Segment(Sequence, a), n) + ([Segment(Sequence, b)] + x))
         == Join(Segment(Sequence, Repeat(a, n) + b), Normalise(x))
  {
    var sa, y := Segment(Sequence, a), [Segment(Sequence, b)] + x;
    if n == 0 {
      assert Copies(sa, 0) + y == y && Repeat(a, 0) + b == b;
      NormaliseCons(Segment(Sequence, b), x);
    } else {
      MergeCopies(a, n - 1, b, x);
      AppendAssoc([sa], Copies(sa, n - 1), y);
      NormaliseCons(sa, Copies(sa, n - 1) + y);
      JoinCut(a, Repeat(a, n - 1) + b, Normalise(x));
      assert a + (Repeat(a, n - 1) + b) == Repeat(a, n) + b;
    }
  }

  lemma {:induction false} RepeatSnoc(a: seq<Word>, n: nat)
    ensures Repeat(a, n + 1) == Repeat(a, n) + a && |Repeat(a, n)| == n * |a|
  {
    if n > 0 {
      RepeatSnoc(a, n - 1);
      assert a + (Repeat(a, n - 1) + a) == a + Repeat(a, n - 1) + a;
      assert n * |a| == (n - 1) * |a| + |a|;
    }
  }

  lemma ExtendEqual(a: seq<Word>, lo: nat, hi: nat, r: seq<Word>, c: seq<Word>)
    requires lo <= hi <= |a| && |r| == lo && |c| == hi - lo
    ensures a[..hi] == r + c <==> a[..lo] == r && a[lo..hi] == c
  {
    assert a[..hi] == a[..lo] + a[lo..hi];
    if a[..hi] == r + c {
      assert a[..lo] == a[..hi][..lo] == (r + c)[..lo] == r;
      assert a[lo..hi] == a[..hi][lo..] == (r + c)[lo..] == c;
    }
  }

  /** The first m chunks are all the first chunk exactly when they spell its repetition. */
  lemma {:induction false} ChunksRepeat(a: seq<Word>, m: nat)
    requires m <= FullChunks(|a|) && |a| > SEGMENT_MAX
    ensures SEGMENT_MAX * m <= |a| && |Repeat(Chunk(a), m)| == SEGMENT_MAX * m
    ensures a[..SEGMENT_MAX * m] == Repeat(Chunk(a), m) <==> forall c :: 1 <= c < m ==> SameChunk(a, c)
  {
    FullChunksLeave(|a|);
    RepeatSnoc(Chunk(a), m);
    if m == 1 {
      assert Repeat(Chunk(a), 1) == Chunk(a) + Repeat(Chunk(a), 0) == Chunk(a);
    } else if m > 1 {
      ChunksRepeat(a, m - 1);
      RepeatSnoc(Chunk(a), m - 1);
      ExtendEqual(a, SEGMENT_MAX * (m - 1), SEGMENT_MAX * m, Repeat(Chunk(a), m - 1), Chunk(a));
      assert SameChunk(a, m - 1) <==> a[SEGMENT_MAX * (m - 1)..SEGMENT_MAX * m] == Chunk(a);
    }
  }

  /** A sequence arrives as it was exactly when its full chunks repeat the first one. */
  lemma GarbledIffPeriodic(a: seq<Word>)
    ensures Garbled(a) == a <==> Periodic(a)
    ensures |a| <= 2 * SEGMENT_MAX ==> Periodic(a)
  {
    FullChunksLeave(|a|);
    if |a| <= SEGMENT_MAX {
      assert Final(a) == a && Garbled(a) == [] + a;
    } else {
      var n := SEGMENT_MAX * FullChunks(|a|);
      ChunksRepeat(a, FullChunks(|a|));
      assert a == a[..n] + a[n..];
      assert Garbled(a)[..n] == Repeat(Chunk(a), FullChunks(|a|)) && Garbled(a)[n..] == a[n..];
    }
  }

  function GarbleSeg(s: Segment): (p: Path)
    ensures |p| >= 1
  {
    if s.kind == Sequence then [Segment(Sequence, Garbled(s.asns))] else Split(s)
  }

  function GarblePath(p: Path): (r: Path)
    ensures |r| >= |p|
  {
    if p == [] then [] else GarbleSeg(p[0]) + GarblePath(p[1..])
  }

  /** The segments that make it across unchanged. */
  predicate Transmissible(s: Segment) {
    s.asns != [] && (|s.asns| <= SEGMENT_MAX || (s.kind == Sequence && Periodic(s.asns)))
  }

  lemma GarbleSegSame(s: Segment)
    requires s.asns != []
    ensures GarbleSeg(s) == [s] <==> Transmissible(s)
  {
    GarbledIffPeriodic(s.asns);
    FullChunksLeave(|s.asns|);
    if s.kind == Sequence {
      assert GarbleSeg(s)[0] == s <==> Garbled(s.asns) == s.asns;
    } else if |s.asns| <= SEGMENT_MAX {
      assert Final(s.asns) == s.asns;
      assert Split(s) == [] + [s];
    }
  }

  lemma {:induction false} GarblePathSame(p: Path)
    requires NoneEmpty(p)
    ensures GarblePath(p) == p <==> forall i :: 0 <= i < |p| ==> Transmissible(p[i])
  {
    if p != [] {
      var g, t := GarbleSeg(p[0]), GarblePath(p[1..]);
      assert NoneEmpty(p[1..]);
      GarblePathSame(p[1..]);
      GarbleSegSame(p[0]);
      assert p == [p[0]] + p[1..];
      if g + t == p {
        assert |g| == 1 && g[0] == (g + t)[0] && (g + t)[1..] == t;
      }
      assert forall i :: 0 <= i < |p[1..]| ==> p[1..][i] == p[i + 1];
    }
  }

  lemma {:induction false} SubIncreasing(a: seq<Word>, lo: nat, hi: nat)
    requires Increasing(a) && lo <= hi <= |a|
    ensures Increasing(a[lo..hi])
  {
    if |a| > 0 && lo < hi {
      if hi == |a| {
        if lo + 1 < hi {
          SubIncreasing(Init(a), lo, hi - 1);
          assert Init(a[lo..hi]) == Init(a)[lo..hi - 1];
        }
      } else {
        SubIncreasing(Init(a), lo, hi);
        assert a[lo..hi] == Init(a)[lo..hi];
      }
    }
  }

  /** Segments that are no sequences do not merge and stay sorted. */
  lemma {:induction false} NormaliseCopies(s: Segment, n: nat, x: Path)
    requires NormSeg(s) == s && s.kind != Sequence
    ensures Normalise(Copies(s, n) + x) == Copies(s, n) + Normalise(x)
  {
    if n == 0 {
      assert Copies(s, 0) + x == x;
    } else {
      AppendAssoc([s], Copies(s, n - 1), x);
      AppendAssoc([s], Copies(s, n - 1), Normalise(x));
      NormaliseCons(s, Copies(s, n - 1) + x);
      NormaliseCopies(s, n - 1, x);
    }
  }

  lemma ChunkNormal(s: Segment)
    requires s.kind != Sequence && (SetKind(s.kind) ==> Increasing(s.asns))
    ensures NormSeg(Segment(s.kind, Chunk(s.asns))).asns == Chunk(s.asns)
    ensures NormSeg(Segment(s.kind, Final(s.asns))).asns == Final(s.asns)
  {
    if SetKind(s.kind) {
      var a, n := s.asns, SEGMENT_MAX * FullChunks(|s.asns|);
      FullChunksLeave(|a|);
      SubIncreasing(a, 0, |Chunk(a)|);
      SubIncreasing(a, n, |a|);
      assert Chunk(a) == a[0..|Chunk(a)|] && Final(a) == a[n..|a|];
      CanonFixpoint(Chunk(a));
      CanonFixpoint(Final(a));
    }
  }

  lemma NormaliseSplit(s: Segment, x: Path)
    requires SetKind(s.kind) ==> Increasing(s.asns)
    requires s.kind == Sequence ==> x == [] || x[0].kind != Sequence
    ensures Normalise(Split(s) + x) == GarbleSeg(s) + Normalise(x)
  {
    var c, f, n := Segment(s.kind, Chunk(s.asns)), Segment(s.kind, Final(s.asns)), FullChunks(|s.asns|);
    AppendAssoc(Copies(c, n), [f], x);
    if s.kind == Sequence {
      MergeCopies(Chunk(s.asns), n, Final(s.asns), x);
      NormaliseHead(x);
    } else {
      ChunkNormal(s);
      NormaliseCopies(c, n, [f] + x);
      NormaliseCons(f, x);
      AppendAssoc(Copies(c, n), [f], Normalise(x));
    }
  }

  lemma NormalTail(p: Path)
    requires Normal(p) && p != []
    ensures Normal(p[1..])
  {
    assert forall i :: 0 <= i < |p[1..]| ==> p[1..][i] == p[i + 1];
  }

  lemma RawPutHead(p: Path)
    requires p != []
    ensures RawPut(p) != [] && RawPut(p)[0].kind == p[0].kind
  {
  }

  lemma {:induction false} NormaliseRawPut(p: Path)
    requires Normal(p)
    ensures Normalise(RawPut(p)) == GarblePath(p)
  {
    if p != [] {
      NormalTail(p);
      NormaliseRawPut(p[1..]);
      if |p| > 1 {
        RawPutHead(p[1..]);
      }
      NormaliseSplit(p[0], RawPut(p[1..]));
    }
  }

  // ---------- what aspath_put writes and counts, for any path ----------

  /** How many of the following sequences are packed into the segment just written. */
  function PackRun(s: Segment, rest: Path): (k: nat)
    ensures k <= |rest|
  {
    if rest != [] && s.kind == Sequence && rest[0].kind == Sequence && |s.asns| + |rest[0].asns| <= SEGMENT_MAX
    then 1 + PackRun(s, rest[1..]) else 0
  }

  function EncAll(p: Path, use32: bool): seq<Octet> {
    if p == [] then [] else EncAsns(p[0].asns, use32) + EncAll(p[1..], use32)
  }

  /** The count octet: what is left of the segment, overwritten when others are packed in, by the last of them only. */
  function CountOctet(s: Segment, packed: Path): int {
    if packed == [] then |Final(s.asns)| else |s.asns| + |packed[|packed| - 1].asns|
  }

  function ChunkOctets(s: Segment, n: nat, use32: bool): seq<Octet> {
    if n == 0 then [] else [Code(s.kind), SEGMENT_MAX] + EncAsns(Chunk(s.asns), use32) + ChunkOctets(s, n - 1, use32)
  }

  /** Count octet patched, the rest of the segment, the packed ones. */
  function LastPiece(s: Segment, packed: Path, use32: bool): seq<Octet>
    requires 0 <= CountOctet(s, packed) <= SEGMENT_MAX
  {
    [Code(s.kind), CountOctet(s, packed)] + (EncAsns(Final(s.asns), use32) + EncAll(packed, use32))
  }

  /** One turn of the outer loop: full chunks, the rest of the segment, the packed ones. */
  function PutSeg(s: Segment, packed: Path, use32: bool): seq<Octet>
    requires 0 <= CountOctet(s, packed) <= SEGMENT_MAX
  {
    ChunkOctets(s, FullChunks(|s.asns|), use32) + LastPiece(s, packed, use32)
  }

  lemma PackedFits(s: Segment, rest: Path)
    ensures 0 <= CountOctet(s, rest[..PackRun(s, rest)]) <= SEGMENT_MAX
    ensures PackRun(s, rest) > 0 ==> |s.asns| <= SEGMENT_MAX
  {
    if PackRun(s, rest) > 1 {
      PackedFits(s, rest[1..]);
      assert rest[..PackRun(s, rest)][1..] == rest[1..][..PackRun(s, rest[1..])];
    }
  }

  function PutAll(p: Path, use32: bool): seq<Octet> {
    if p == [] then [] else
    var rest := p[1..];
    var k := PackRun(p[0], rest);
    PackedFits(p[0], rest);
    PutSeg(p[0], rest[..k], use32) + PutAll(rest[k..], use32)
  }

  function PutBytes(p: Path, use32: bool): seq<Octet> {
    if p == [] || p[0].asns == [] then [] else PutAll(p, use32)
  }

  /** The overlength loop adds the size of everything written so far, not of the chunk. */
  function ChunkCount(n: nat, use32: bool): nat {
    if n == 0 then 0 else ChunkCount(n - 1, use32) + 2 + Span(SEGMENT_MAX * n, use32)
  }

  function CountSeg(s: Segment, packed: Path, use32: bool): nat {
    ChunkCount(FullChunks(|s.asns|), use32) + 2 + Span(|Final(s.asns)| + AsnCount(packed), use32)
  }

  function CountAll(p: Path, use32: bool): nat {
    if p == [] then 0 else
    var rest := p[1..];
    var k := PackRun(p[0], rest);
    CountSeg(p[0], rest[..k], use32) + CountAll(rest[k..], use32)
  }

  /** The octet count aspath_put returns. */
  function PutCount(p: Path, use32: bool): nat {
    if p == [] || p[0].asns == [] then 0 else CountAll(p, use32)
  }

  lemma EncAllLength(p: Path, use32: bool)
    ensures |EncAll(p, use32)| == Span(AsnCount(p), use32)
  {
  }

  lemma ChunkOctetsLength(s: Segment, n: nat, use32: bool)
    requires n <= FullChunks(|s.asns|)
    ensures |ChunkOctets(s, n, use32)| == n * (2 + Span(SEGMENT_MAX, use32))
    ensures ChunkCount(n, use32) >= n * (2 + Span(SEGMENT_MAX, use32))
    ensures ChunkCount(n, use32) == n * (2 + Span(SEGMENT_MAX, use32)) <==> n <= 1
  {
    if n > 0 {
      ChunkOctetsLength(s, n - 1, use32);
    }
  }

  lemma CountSegExact(s: Segment, packed: Path, use32: bool)
    requires 0 <= CountOctet(s, packed) <= SEGMENT_MAX
    ensures CountSeg(s, packed, use32) >= |PutSeg(s, packed, use32)|
    ensures CountSeg(s, packed, use32) == |PutSeg(s, packed, use32)| <==> |s.asns| <= 2 * SEGMENT_MAX
  {
    FullChunksLeave(|s.asns|);
    ChunkOctetsLength(s, FullChunks(|s.asns|), use32);
    EncAllLength(packed, use32);
  }

  predicate TwoChunksAtMost(p: Path) {
    forall i :: 0 <= i < |p| ==> |p[i].asns| <= 2 * SEGMENT_MAX
  }

  lemma PackedShort(s: Segment, rest: Path, i: nat)
    requires i < PackRun(s, rest)
    ensures |rest[i].asns| <= SEGMENT_MAX
  {
    if i > 0 {
      PackedShort(s, rest[1..], i - 1);
    }
  }

  lemma TwoChunksGroup(p: Path)
    requires p != []
    ensures TwoChunksAtMost(p) <==> |p[0].asns| <= 2 * SEGMENT_MAX && TwoChunksAtMost(p[1..][PackRun(p[0], p[1..])..])
  {
    var k := 1 + PackRun(p[0], p[1..]);
    assert p[1..][k - 1..] == p[k..];
    forall i | 0 < i < k ensures |p[i].asns| <= SEGMENT_MAX {
      PackedShort(p[0], p[1..], i - 1);
    }
    if |p[0].asns| <= 2 * SEGMENT_MAX && TwoChunksAtMost(p[k..]) {
      forall i | k <= i < |p| ensures |p[i].asns| <= 2 * SEGMENT_MAX {
        assert p[i] == p[k..][i - k];
      }
    }
  }

  lemma {:induction false} CountAllExact(p: Path, use32: bool)
    ensures CountAll(p, use32) >= |PutAll(p, use32)|
    ensures CountAll(p, use32) == |PutAll(p, use32)| <==> TwoChunksAtMost(p)
  {
    if p != [] {
      var rest := p[1..];
      var k := PackRun(p[0], rest);
      PackedFits(p[0], rest);
      CountSegExact(p[0], rest[..k], use32);
      CountAllExact(rest[k..], use32);
      TwoChunksGroup(p);
    }
  }

  /** The returned count is the number of octets written exactly when no segment needs more than two chunks. */
  lemma PutCountExact(p: Path, use32: bool)
    ensures PutCount(p, use32) == |PutBytes(p, use32)| <==> p == [] || p[0].asns == [] || TwoChunksAtMost(p)
  {
    CountAllExact(p, use32);
  }

  // ---------- there and back ----------

  /** Receiving exactly these octets as an AS_PATH. */
  function Parse(b: seq<Octet>, use32: bool): Option<Path> {
    var raw := ParseRaw(b, use32);
    if raw.Some? then Some(Normalise(raw.value)) else None
  }

  lemma {:induction false} ParseAppend(raw: Path, rest: seq<Octet>, use32: bool)
    requires Sendable(raw)
    ensures ParseRaw(Wire(raw, use32) + rest, use32) == Prefixed(ViaPath(raw, use32), ParseRaw(rest, use32))
  {
    if raw == [] {
      assert Wire(raw, use32) + rest == rest;
      var r := ParseRaw(rest, use32);
      assert r.Some? ==> [] + r.value == r.value;
    } else {
      ParseAppend(raw[1..], rest, use32);
      AppendAssoc(EncSeg(raw[0], use32), Wire(raw[1..], use32), rest);
      HeadOfEnc(raw[0], Wire(raw[1..], use32) + rest, use32);
      ViaCons(raw, use32);
      var r := ParseRaw(rest, use32);
      if r.Some? {
        AppendAssoc([ViaSeg(raw[0], use32)], ViaPath(raw[1..], use32), r.value);
      }
    }
  }

  lemma {:induction false} WireConcat(a: Path, b: Path, use32: bool)
    requires Sendable(a) && Sendable(b)
    ensures Sendable(a + b) && Wire(a + b, use32) == Wire(a, use32) + Wire(b, use32)
  {
    if a == [] {
      assert a + b == b;
    } else {
      assert (a + b)[1..] == a[1..] + b;
      WireConcat(a[1..], b, use32);
      AppendAssoc(EncSeg(a[0], use32), Wire(a[1..], use32), Wire(b, use32));
    }
  }

  lemma {:induction false} WireCopies(s: Segment, n: nat, use32: bool)
    requires n <= FullChunks(|s.asns|)
    ensures Sendable(Copies(Segment(s.kind, Chunk(s.asns)), n))
    ensures Wire(Copies(Segment(s.kind, Chunk(s.asns)), n), use32) == ChunkOctets(s, n, use32)
  {
    if n > 0 {
      var c := Segment(s.kind, Chunk(s.asns));
      WireCopies(s, n - 1, use32);
      assert Copies(c, n)[1..] == Copies(c, n - 1);
    }
  }

  lemma WireOne(f: Segment, use32: bool)
    requires 0 < |f.asns| <= SEGMENT_MAX
    ensures Sendable([f]) && Wire([f], use32) == EncSeg(f, use32)
  {
    assert [f][1..] == [];
    assert EncSeg(f, use32) + [] == EncSeg(f, use32);
  }

  lemma PutSegAlone(s: Segment, use32: bool)
    ensures PutSeg(s, [], use32) ==
      ChunkOctets(s, FullChunks(|s.asns|), use32) + EncSeg(Segment(s.kind, Final(s.asns)), use32)
  {
    assert EncAsns(Final(s.asns), use32) + [] == EncAsns(Final(s.asns), use32);
  }

  /** A segment that is not empty and has nothing packed into it goes out as its split. */
  lemma PutSegIsWire(s: Segment, use32: bool)
    requires s.asns != []
    ensures Sendable(Split(s)) && PutSeg(s, [], use32) == Wire(Split(s), use32)
  {
    var n, f := FullChunks(|s.asns|), Segment(s.kind, Final(s.asns));
    WireCopies(s, n, use32);
    WireOne(f, use32);
    WireConcat(Copies(Segment(s.kind, Chunk(s.asns)), n), [f], use32);
    PutSegAlone(s, use32);
  }

  lemma PutAllNormal(p: Path, use32: bool)
    requires Normal(p) && p != []
    ensures PutAll(p, use32) == PutSeg(p[0], [], use32) + PutAll(p[1..], use32)
  {
    assert PackRun(p[0], p[1..]) == 0 && p[1..][..0] == [] && p[1..][0..] == p[1..];
  }

  lemma EmptySegmentRejected(s: Segment, rest: seq<Octet>, use32: bool)
    requires s.asns == []
    ensures ParseRaw(PutSeg(s, [], use32) + rest, use32) == None
  {
    PutSegAlone(s, use32);
    assert PutSeg(s, [], use32) == [] + EncSeg(Segment(s.kind, []), use32);
    assert (PutSeg(s, [], use32) + rest)[1] == 0;
  }

  lemma ViaConcat(a: Path, b: Path, use32: bool)
    ensures ViaPath(a + b, use32) == ViaPath(a, use32) + ViaPath(b, use32)
  {
  }

  /** Reading back what was written for a normalised path: its split segments, unless one was empty. */
  lemma {:induction false} ParsePut(p: Path, use32: bool)
    requires Normal(p)
    ensures ParseRaw(PutAll(p, use32), use32) == if NoneEmpty(p) then Some(ViaPath(RawPut(p), use32)) else None
  {
    if p != [] {
      NormalTail(p);
      ParsePut(p[1..], use32);
      PutAllNormal(p, use32);
      if p[0].asns == [] {
        EmptySegmentRejected(p[0], PutAll(p[1..], use32), use32);
      } else {
        PutSegIsWire(p[0], use32);
        ParseAppend(Split(p[0]), PutAll(p[1..], use32), use32);
        ViaConcat(Split(p[0]), RawPut(p[1..]), use32);
        NoneEmptyTail(p);
      }
    }
  }

  lemma NoneEmptyTail(p: Path)
    requires p != [] && p[0].asns != []
    ensures NoneEmpty(p) <==> NoneEmpty(p[1..])
  {
    if NoneEmpty(p[1..]) {
      forall i | 0 < i < |p| ensures p[i].asns != [] {
        assert p[i] == p[1..][i - 1];
      }
    }
  }

  /**
   * A normalised path survives a 4-octet session unchanged exactly when no segment is
   * empty, sets and confederation segments fit one chunk, and longer sequences are at
   * most two chunks or repeat their first chunk.
   */
  lemma WireRoundTrip(p: Path)
    requires Normal(p)
    ensures Parse(PutBytes(p, true), true) == Some(p) <==> forall i :: 0 <= i < |p| ==> Transmissible(p[i])
  {
    if p != [] && p[0].asns != [] {
      ParsePut(p, true);
      if NoneEmpty(p) {
        NormaliseRawPut(p);
        GarblePathSame(p);
      }
    }
  }

  /** The numbers below n, in order. */
  function Numbers(n: nat): (r: seq<Word>)
    requires n <= 0x10000
    ensures |r| == n && forall i :: 0 <= i < n ==> r[i] == i
  {
    seq(n, i requires 0 <= i < n => i)
  }

  lemma {:induction false} NumbersIncrease(n: nat)
    requires n <= 0x10000
    ensures Increasing(Numbers(n))
  {
    if n > 1 {
      assert Init(Numbers(n)) == Numbers(n - 1);
      NumbersIncrease(n - 1);
    }
  }

  /** A sequence of 511 different numbers arrives as another path, and its octets are miscounted. */
  lemma LongSequenceGarbled()
    ensures var p := [Segment(Sequence, Numbers(511))];
      Normal(p) && Parse(PutBytes(p, true), true) != Some(p) && PutCount(p, true) != |PutBytes(p, true)|
  {
    var a := Numbers(511);
    var p := [Segment(Sequence, a)];
    assert FullChunks(511) == 1 + FullChunks(256) && FullChunks(256) == 1 + FullChunks(1) && FullChunks(1) == 0;
    assert !SameChunk(a, 1) by {
      assert a[SEGMENT_MAX * 1..SEGMENT_MAX * 2][0] == 255 && Chunk(a)[0] == 0;
    }
    assert !Transmissible(p[0]);
    WireRoundTrip(p);
    PutCountExact(p, true);
    assert !TwoChunksAtMost(p);
  }

  /** A set of 256 different numbers arrives as another path. */
  lemma LargeSetSplit()
    ensures var p := [Segment(Set, Numbers(256))]; Normal(p) && Parse(PutBytes(p, true), true) != Some(p)
  {
    var p := [Segment(Set, Numbers(256))];
    NumbersIncrease(256);
    assert !Transmissible(p[0]);
    WireRoundTrip(p);
  }

  // ---------- without room for everything ----------

  lemma LastPieceSize(seg: Segment, packed: Path, use32: bool)
    requires 0 <= CountOctet(seg, packed) <= SEGMENT_MAX
    ensures |LastPiece(seg, packed, use32)| >= 2 + Span(|Final(seg.asns)|, use32)
  {
  }

  lemma SpanChunks(n: nat, m: nat, use32: bool)
    ensures n * (2 + Span(SEGMENT_MAX, use32)) + Span(m, use32) >= Span(SEGMENT_MAX * n + m, use32)
  {
  }

  lemma PutSegSize(seg: Segment, packed: Path, use32: bool)
    requires 0 <= CountOctet(seg, packed) <= SEGMENT_MAX
    ensures |PutSeg(seg, packed, use32)| >= 2 + Span(|seg.asns|, use32)
  {
    var n := FullChunks(|seg.asns|);
    FullChunksLeave(|seg.asns|);
    ChunkOctetsLength(seg, n, use32);
    LastPieceSize(seg, packed, use32);
    SpanChunks(n, |Final(seg.asns)|, use32);
  }

  /** One turn of the writer: the room it looks for, the octets it writes, and the octets it counts. */
  datatype Turn = Turn(need: nat, octets: seq<Octet>, count: nat)

  function TurnOf(p: Path, use32: bool): Turn
    requires p != []
  {
    var rest := p[1..];
    var k := PackRun(p[0], rest);
    PackedFits(p[0], rest);
    Turn(2 + Span(|p[0].asns|, use32), PutSeg(p[0], rest[..k], use32), CountSeg(p[0], rest[..k], use32))
  }

  /** What a turn leaves of the path. */
  function TurnRest(p: Path): (r: Path)
    requires p != []
    ensures |r| < |p|
  {
    p[1..][PackRun(p[0], p[1..])..]
  }

  function Turns(p: Path, use32: bool): seq<Turn>
    decreases |p|
  {
    if p == [] then [] else [TurnOf(p, use32)] + Turns(TurnRest(p), use32)
  }

  /** All that turns write, and all they count. */
  function Whole(ts: seq<Turn>): seq<Octet> {
    if ts == [] then [] else ts[0].octets + Whole(ts[1..])
  }

  function Total(ts: seq<Turn>): nat {
    if ts == [] then 0 else ts[0].count + Total(ts[1..])
  }

  lemma {:induction false} TurnsWhole(p: Path, use32: bool)
    ensures Whole(Turns(p, use32)) == PutAll(p, use32) && Total(Turns(p, use32)) == CountAll(p, use32)
    decreases |p|
  {
    if p != [] {
      TurnsWhole(TurnRest(p), use32);
      assert ([TurnOf(p, use32)] + Turns(TurnRest(p), use32))[1..] == Turns(TurnRest(p), use32);
    }
  }

  /** No turn writes less than it looks for. */
  predicate Ample(ts: seq<Turn>) {
    forall i :: 0 <= i < |ts| ==> |ts[i].octets| >= ts[i].need
  }

  lemma {:induction false} TurnsAmple(p: Path, use32: bool)
    ensures Ample(Turns(p, use32))
    decreases |p|
  {
    if p != [] {
      TurnsAmple(TurnRest(p), use32);
      PackedFits(p[0], p[1..]);
      PutSegSize(p[0], p[1..][..PackRun(p[0], p[1..])], use32);
    }
  }

  /** What turns write in so much room, stopping where the room looked for is not there; None when a write runs out. */
  function Emitted(ts: seq<Turn>, room: nat): Option<seq<Octet>> {
    if ts == [] || ts[0].need > room then Some([])
    else if |ts[0].octets| > room then None
    else Prefixed(ts[0].octets, Emitted(ts[1..], room - |ts[0].octets|))
  }

  /** What they count. */
  function Counted(ts: seq<Turn>, room: nat): nat {
    if ts == [] || ts[0].need > room || |ts[0].octets| > room then 0
    else ts[0].count + Counted(ts[1..], room - |ts[0].octets|)
  }

  /** With room for everything, everything is written and counted. */
  lemma {:induction false} RoomEnough(ts: seq<Turn>, room: nat)
    requires Ample(ts) && |Whole(ts)| <= room
    ensures Emitted(ts, room) == Some(Whole(ts)) && Counted(ts, room) == Total(ts)
  {
    if ts != [] {
      assert |Whole(ts)| == |ts[0].octets| + |Whole(ts[1..])|;
      RoomEnough(ts[1..], room - |ts[0].octets|);
    }
  }

  /** What aspath_put writes with so much room, and the count it returns. */
  function BytesInRoom(p: Path, room: nat, use32: bool): Option<seq<Octet>> {
    if p == [] || p[0].asns == [] then Some([]) else Emitted(Turns(p, use32), room)
  }

  function CountInRoom(p: Path, room: nat, use32: bool): nat {
    if p == [] || p[0].asns == [] then 0 else Counted(Turns(p, use32), room)
  }

  lemma EnoughRoom(p: Path, room: nat, use32: bool)
    ensures |PutBytes(p, use32)| <= room ==>
      BytesInRoom(p, room, use32) == Some(PutBytes(p, use32)) && CountInRoom(p, room, use32) == PutCount(p, use32)
  {
    if p != [] && p[0].asns != [] && |PutBytes(p, use32)| <= room {
      TurnsWhole(p, use32);
      TurnsAmple(p, use32);
      RoomEnough(Turns(p, use32), room);
    }
  }

  lemma PrefixedTwice<T>(a: seq<T>, b: seq<T>, r: Option<seq<T>>)
    ensures Prefixed(a, Prefixed(b, r)) == Prefixed(a + b, r)
  {
    if r.Some? {
      AppendAssoc(a, b, r.value);
    }
  }

  lemma PrefixedNone<T>(r: Option<seq<T>>)
    ensures Prefixed([], r) == r
  {
    if r.Some? {
      assert [] + r.value == r.value;
    }
  }

  /** A turn for which there is room, after what was written before it. */
  lemma EmittedStep(done: seq<Octet>, t: Turn, ts: seq<Turn>, room: nat)
    requires t.need <= room && |t.octets| <= room
    ensures Prefixed(done, Emitted([t] + ts, room)) == Prefixed(done + t.octets, Emitted(ts, room - |t.octets|))
    ensures Counted([t] + ts, room) == t.count + Counted(ts, room - |t.octets|)
  {
    assert ([t] + ts)[1..] == ts;
    PrefixedTwice(done, t.octets, Emitted(ts, room - |t.octets|));
  }

  /** The first turn of a path, after what was written before it: it runs out of room, or the rest follows. */
  lemma TurnsStep(done: seq<Octet>, p: Path, room: nat, use32: bool)
    requires p != [] && TurnOf(p, use32).need <= room
    ensures var t := TurnOf(p, use32); var rest := Turns(TurnRest(p), use32);
      && (|t.octets| > room ==> Emitted(Turns(p, use32), room) == None)
      && (|t.octets| <= room ==> Prefixed(done, Emitted(Turns(p, use32), room)) ==
                                 Prefixed(done + t.octets, Emitted(rest, room - |t.octets|)))
      && (|t.octets| <= room ==> Counted(Turns(p, use32), room) == t.count + Counted(rest, room - |t.octets|))
  {
    if |TurnOf(p, use32).octets| <= room {
      EmittedStep(done, TurnOf(p, use32), Turns(TurnRest(p), use32), room);
    }
  }

  // ---------- paths cut short ----------

  /** How many leading turns fit the room. */
  function Fitting(ts: seq<Turn>, room: nat): (j: nat)
    ensures j <= |ts|
  {
    if ts == [] || |ts[0].octets| > room then 0 else 1 + Fitting(ts[1..], room - |ts[0].octets|)
  }

  /** As many turns fit as there is room for all they write, and no more. */
  lemma {:induction false} FittingExact(ts: seq<Turn>, room: nat)
    ensures var j := Fitting(ts, room); |Whole(ts[..j])| <= room && (j < |ts| ==> |Whole(ts[..j + 1])| > room)
  {
    var j := Fitting(ts, room);
    if ts != [] {
      if j == 0 {
        assert ts[..0] == [] && ts[..1][1..] == [];
      } else {
        FittingExact(ts[1..], room - |ts[0].octets|);
        assert ts[..j][1..] == ts[1..][..j - 1];
        assert j < |ts| ==> ts[..j + 1][1..] == ts[1..][..j];
      }
    }
  }

  /** Turns that look for exactly what they write never run out of room: they stop at the first that does not fit. */
  lemma {:induction false} EmittedExact(ts: seq<Turn>, room: nat)
    requires Exact(ts)
    ensures Emitted(ts, room) == Some(Whole(ts[..Fitting(ts, room)]))
  {
    var j := Fitting(ts, room);
    if j == 0 {
      assert ts[..0] == [];
    } else {
      EmittedExact(ts[1..], room - |ts[0].octets|);
      assert ts[..j][1..] == ts[1..][..j - 1];
    }
  }

  /** Every segment fits one chunk. */
  predicate OneChunkEach(p: Path) {
    forall i :: 0 <= i < |p| ==> 0 < |p[i].asns| <= SEGMENT_MAX
  }

  lemma TurnAlone(p: Path, use32: bool)
    requires Normal(p) && OneChunkEach(p) && p != []
    ensures TurnRest(p) == p[1..] && TurnOf(p, use32).octets == PutSeg(p[0], [], use32)
    ensures |TurnOf(p, use32).octets| == TurnOf(p, use32).need
  {
    assert PackRun(p[0], p[1..]) == 0 && p[1..][..0] == [] && p[1..][0..] == p[1..];
    PutSegAlone(p[0], use32);
    FullChunksLeave(|p[0].asns|);
  }

  /** Turns that look for exactly what they write. */
  predicate Exact(ts: seq<Turn>) {
    forall i :: 0 <= i < |ts| ==> |ts[i].octets| == ts[i].need
  }

  lemma ExactCons(t: Turn, ts: seq<Turn>)
    requires |t.octets| == t.need && Exact(ts)
    ensures Exact([t] + ts)
  {
  }

  /** A normalised path of such segments is written one segment a turn. */
  lemma {:induction false} OneTurnEach(p: Path, use32: bool)
    requires Normal(p) && OneChunkEach(p)
    ensures |Turns(p, use32)| == |p| && Exact(Turns(p, use32))
    decreases |p|
  {
    if p != [] {
      TurnAlone(p, use32);
      NormalTail(p);
      OneTurnEach(p[1..], use32);
      ExactCons(TurnOf(p, use32), Turns(p[1..], use32));
    }
  }

  lemma TurnOfPrefix(p: Path, j: nat, use32: bool)
    requires Normal(p) && OneChunkEach(p) && 0 < j <= |p|
    ensures TurnOf(p[..j], use32) == TurnOf(p, use32) && TurnRest(p[..j]) == p[1..][..j - 1]
  {
    NormalPrefix(p, j);
    assert PackRun(p[0], p[1..]) == 0 && p[1..][..0] == [];
    assert p[..j][0] == p[0] && p[..j][1..] == p[1..][..j - 1];
    assert PackRun(p[0], p[..j][1..]) == 0 && p[..j][1..][..0] == [] && p[..j][1..][0..] == p[..j][1..];
  }

  lemma {:induction false} TurnsPrefix(p: Path, j: nat, use32: bool)
    requires Normal(p) && OneChunkEach(p) && j <= |p|
    ensures |Turns(p, use32)| == |p| && Turns(p, use32)[..j] == Turns(p[..j], use32)
    decreases |p|
  {
    OneTurnEach(p, use32);
    if j > 0 {
      TurnAlone(p, use32);
      TurnOfPrefix(p, j, use32);
      NormalTail(p);
      TurnsPrefix(p[1..], j - 1, use32);
      SeqPrefix(TurnOf(p, use32), Turns(p[1..], use32), j);
    }
  }

  lemma SeqPrefix<T>(x: T, s: seq<T>, j: nat)
    requires 0 < j <= |s| + 1
    ensures ([x] + s)[..j] == [x] + s[..j - 1]
  {
  }

  lemma NormalPrefix(p: Path, j: nat)
    requires Normal(p) && j <= |p|
    ensures Normal(p[..j])
  {
  }

  /**
   * A normalised path whose segments each fit one chunk never aborts the writer: it is cut at the first segment for
   * which there is no room, and what the peer of a 4-octet session reads is the shorter path.
   */
  lemma CutArrives(p: Path, room: nat)
    requires Normal(p) && OneChunkEach(p)
    ensures var j := Fitting(Turns(p, true), room);
      && j <= |p| && BytesInRoom(p, room, true) == Some(PutBytes(p[..j], true))
      && Parse(PutBytes(p[..j], true), true) == Some(p[..j])
      && |PutBytes(p[..j], true)| <= room && (j < |p| ==> |PutBytes(p[..j + 1], true)| > room)
  {
    var ts := Turns(p, true);
    var j := Fitting(ts, room);
    OneTurnEach(p, true);
    EmittedExact(ts, room);
    FittingExact(ts, room);
    PrefixOnWire(p, j);
    if j < |p| {
      PrefixOnWire(p, j + 1);
    }
  }

  /** The first turns of a path write its first segments, which are read back as they are. */
  lemma PrefixOnWire(p: Path, j: nat)
    requires Normal(p) && OneChunkEach(p) && j <= |p|
    ensures |Turns(p, true)| == |p| && PutBytes(p[..j], true) == Whole(Turns(p, true)[..j])
    ensures Parse(PutBytes(p[..j], true), true) == Some(p[..j])
  {
    TurnsPrefix(p, j, true);
    TurnsWhole(p[..j], true);
    NormalPrefix(p, j);
    WireRoundTrip(p[..j]);
  }

  // ---------- over 2-octet sessions ----------

  lemma ViaRepeat(a: seq<Word>, n: nat, use32: bool)
    ensures ViaAsns(Repeat(a, n), use32) == Repeat(ViaAsns(a, use32), n)
  {
    if n > 0 {
      ViaRepeat(a, n - 1, use32);
      ViaAppend(a, Repeat(a, n - 1), use32);
    }
  }

  lemma ViaAppend(a: seq<Word>, b: seq<Word>, use32: bool)
    ensures ViaAsns(a + b, use32) == ViaAsns(a, use32) + ViaAsns(b, use32)
  {
  }

  lemma ViaCopies(s: Segment, n: nat, use32: bool)
    ensures ViaPath(Copies(s, n), use32) == Copies(ViaSeg(s, use32), n)
  {
  }

  /** Splitting a segment that arrives whole makes no difference to the receiver. */
  lemma NormaliseViaSplit(s: Segment, x: Path, use32: bool)
    requires Transmissible(s)
    ensures Normalise(ViaPath(Split(s), use32) + x) == Normalise([ViaSeg(s, use32)] + x)
  {
    var c, f, n := Segment(s.kind, Chunk(s.asns)), Segment(s.kind, Final(s.asns)), FullChunks(|s.asns|);
    ViaConcat(Copies(c, n), [f], use32);
    ViaCopies(c, n, use32);
    assert ViaPath([f], use32) == [ViaSeg(f, use32)];
    AppendAssoc(Copies(ViaSeg(c, use32), n), [ViaSeg(f, use32)], x);
    if n == 0 {
      assert Final(s.asns) == s.asns;
      assert Copies(ViaSeg(c, use32), 0) + ([ViaSeg(f, use32)] + x) == [ViaSeg(f, use32)] + x;
    } else {
      MergeCopies(ViaAsns(Chunk(s.asns), use32), n, ViaAsns(Final(s.asns), use32), x);
      GarbledIffPeriodic(s.asns);
      ViaAppend(Repeat(Chunk(s.asns), n), Final(s.asns), use32);
      ViaRepeat(Chunk(s.asns), n, use32);
      NormaliseCons(ViaSeg(s, use32), x);
    }
  }

  predicate AllTransmissible(p: Path) {
    forall i :: 0 <= i < |p| ==> Transmissible(p[i])
  }

  lemma {:induction false} NormaliseViaRawPut(p: Path, use32: bool)
    requires AllTransmissible(p)
    ensures Normalise(ViaPath(RawPut(p), use32)) == Normalise(ViaPath(p, use32))
  {
    if p != [] {
      assert AllTransmissible(p[1..]);
      NormaliseViaRawPut(p[1..], use32);
      ViaConcat(Split(p[0]), RawPut(p[1..]), use32);
      NormaliseViaSplit(p[0], ViaPath(RawPut(p[1..]), use32), use32);
      NormaliseCong([ViaSeg(p[0], use32)], ViaPath(RawPut(p[1..]), use32), ViaPath(p[1..], use32));
      ViaCons(p, use32);
    }
  }

  /** On a 2-octet session the path arrives substituted and re-normalised. */
  lemma NarrowTrip(p: Path)
    requires Normal(p) && AllTransmissible(p)
    ensures Parse(PutBytes(p, false), false) == Some(Squeezed(p))
  {
    if p != [] {
      assert Transmissible(p[0]);
      ParsePut(p, false);
      NormaliseViaRawPut(p, false);
    }
  }

  /** The octets after a chain of 2-octet routers, each reading the path, adding its AS and sending it on. */
  function Relay(b: seq<Octet>, ks: seq<Word>): Option<seq<Octet>> {
    if ks == [] then Some(b) else
    match Relay(b, ks[1..])
    case None => None
    case Some(sent) =>
      match Parse(sent, false)
      case None => None
      case Some(q) => Some(PutBytes(AddOne(q, ks[0], Sequence), false))
  }

  /** All AS numbers fit two octets. */
  predicate Narrow(p: Path) {
    forall x <- AllAsns(p) :: x <= AS_MAX16
  }

  /** A path is narrow exactly when nothing of it is lost on a 2-octet session. */
  lemma NarrowExactly(p: Path)
    ensures Narrow(p) <==> TransPath(p) == p
  {
    if Narrow(p) {
      NarrowUnchanged(p);
    } else {
      TransNarrow(p);
    }
  }

  /** One path on the wire, octet by octet. */
  lemma WireExample()
    ensures EncSeg(Segment(Sequence, [1, 70000]), true) == [2, 2, 0, 0, 0, 1, 0, 1, 0x11, 0x70]
    ensures EncSeg(Segment(Set, [1]), false) == [1, 1, 0, 1]
    ensures EncSeg(Segment(ConfedSequence, [1]), false) == [3, 1, 0, 1]
    ensures EncSeg(Segment(ConfedSet, [70000]), false) == [4, 1, 0x5b, 0xa0]
  {
    var a: seq<Word> := [1, 70000];
    assert a[1..] == [70000] && [70000 as Word][1..] == [] && [1 as Word][1..] == [];
  }

  lemma AsnIn(p: Path, i: nat, j: nat)
    requires i < |p| && j < |p[i].asns|
    ensures p[i].asns[j] in AllAsns(p)
  {
    if i == 0 {
      MembersIn(p[0].asns);
    } else {
      AsnIn(p[1..], i - 1, j);
    }
  }

  lemma TransNarrow(p: Path)
    ensures Narrow(TransPath(p))
  {
    if p != [] {
      TransNarrow(p[1..]);
      MembersIn(TransAsns(p[0].asns));
      assert TransPath(p)[1..] == TransPath(p[1..]);
    }
  }

  lemma NarrowUnchanged(p: Path)
    requires Narrow(p)
    ensures TransPath(p) == p
  {
    forall i | 0 <= i < |p| ensures TransPath(p)[i] == p[i] {
      forall j | 0 <= j < |p[i].asns| ensures p[i].asns[j] <= AS_MAX16 {
        AsnIn(p, i, j);
      }
      assert TransAsns(p[i].asns) == p[i].asns;
    }
  }

  lemma AddOneKeeps(p: Path, k: Word)
    requires Normal(p) && Narrow(p) && k <= AS_MAX16
    ensures Normal(AddOne(p, k, Sequence)) && Narrow(AddOne(p, k, Sequence))
  {
    assert Members([k]) == {k} by { assert Init([k]) == []; }
    if p == [] || p[0].asns == [] {
      assert AllAsns([Segment(Sequence, [k])]) == {k};
    } else {
      PrependIsJoin([k], p);
      assert Prepend([k], p) == AddOne(Prepend([], p), k, Sequence);
      JoinNormal(Segment(Sequence, [k]), p);
      JoinKeeps(Segment(Sequence, [k]), p);
    }
  }

  /** Every path on the way from the first 2-octet router to the last is one that arrives whole. */
  predicate RelayFits(p: Path, ks: seq<Word>) {
    AllTransmissible(Prepend(ks, p)) && (ks != [] ==> RelayFits(p, ks[1..]))
  }

  lemma {:induction false} RelayArrives(p: Path, ks: seq<Word>)
    requires Normal(p) && AllTransmissible(p) && RelayFits(Squeezed(p), ks)
    requires forall i :: 0 <= i < |ks| ==> ks[i] <= AS_MAX16
    ensures var sent := Relay(PutBytes(p, false), ks);
      sent.Some? && Parse(sent.value, false) == Some(Prepend(ks, Squeezed(p)))
    ensures Normal(Prepend(ks, Squeezed(p))) && Narrow(Prepend(ks, Squeezed(p)))
  {
    if ks == [] {
      NarrowTrip(p);
      NormaliseNormal(TransPath(p));
      NormaliseKeeps(TransPath(p));
      TransNarrow(p);
    } else {
      RelayArrives(p, ks[1..]);
      AddOneKeeps(Prepend(ks[1..], Squeezed(p)), ks[0]);
      var r := Prepend(ks, Squeezed(p));
      NarrowTrip(r);
      NarrowUnchanged(r);
      NormalFixpoint(r);
    }
  }

  /** Whether a path holds a number that two octets do not. */
  method HasAs4(p: Path) returns (b: bool)
    ensures b <==> !Narrow(p)
  {
    for i := 0 to |p|
      invariant forall k, j :: 0 <= k < i && 0 <= j < |p[k].asns| ==> p[k].asns[j] <= AS_MAX16
    {
      for j := 0 to |p[i].asns|
        invariant forall l :: 0 <= l < j ==> p[i].asns[l] <= AS_MAX16
      {
        if p[i].asns[j] > AS_MAX16 {
          AsnIn(p, i, j);
          return true;
        }
      }
    }
    NarrowIf(p);
    return false;
  }

  lemma {:induction false} NarrowIf(p: Path)
    requires forall k, j :: 0 <= k < |p| && 0 <= j < |p[k].asns| ==> p[k].asns[j] <= AS_MAX16
    ensures Narrow(p)
  {
    if p != [] {
      MembersIn(p[0].asns);
      NarrowIf(p[1..]);
    }
  }

  /** The AS4_PATH sent along with a path on a 2-octet session: only when some number needs it. */
  function As4Sent(p: Path): Option<seq<Octet>> {
    if Narrow(p) then None else Some(PutBytes(p, true))
  }

  /** What the receiver of an AS_PATH and perhaps an AS4_PATH from a 2-octet neighbour makes of them. */
  function Received(path: seq<Octet>, as4: Option<seq<Octet>>): Option<Path> {
    var p := Parse(path, false);
    if p == None || as4 == None then p else
    var q := Parse(as4.value, true);
    if q == None then None else Some(Reconcile(p.value, q.value))
  }

  /**
   * End to end: a router sends its path narrowed, and whole besides when it has numbers that do not fit; any number of
   * 2-octet routers hand the two on; and the router at the far end gets the path with their ASes in front.
   */
  lemma TunnelOnWire(p: Path, ks: seq<Word>)
    requires Normal(p) && ConfedFree(p) && AllTransmissible(p) && RelayFits(Squeezed(p), ks)
    requires forall i :: 0 <= i < |ks| ==> ks[i] <= AS_MAX16
    ensures var sent := Relay(PutBytes(p, false), ks);
      sent.Some? && Received(sent.value, As4Sent(p)) == Some(Prepend(ks, p))
  {
    RelayArrives(p, ks);
    SqueezedPut(p, ks);
  }

  lemma SqueezedPut(p: Path, ks: seq<Word>)
    requires Normal(p) && ConfedFree(p) && AllTransmissible(p)
    ensures Narrow(p) ==> Squeezed(p) == p
    ensures Parse(PutBytes(p, true), true) == Some(p)
    ensures Reconcile(Prepend(ks, Squeezed(p)), p) == Prepend(ks, p)
  {
    WireRoundTrip(p);
    assert p != [] ==> Transmissible(p[0]);
    TunnelAny(p, ks);
    if Narrow(p) {
      NarrowUnchanged(p);
      NormalFixpoint(p);
    }
  }

  lemma TunnelAny(p: Path, ks: seq<Word>)
    requires Normal(p) && ConfedFree(p) && Prependable(p)
    ensures Reconcile(Prepend(ks, Squeezed(p)), p) == Prepend(ks, p)
  {
    if ks == [] {
      SqueezedHead(p);
      ConfedFreeTail(Squeezed(p));
    } else {
      TunnelLossless(p, ks);
    }
  }
}
