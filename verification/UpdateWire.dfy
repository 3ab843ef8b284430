/**
 * UPDATE messages as octets: how prefixes are written (stream_put_prefix), and how a message is taken apart again
 * (bgp_update_receive, bgp_nlri_sanity_check, bgp_nlri_parse).
 */
module UpdateWire {
  import opened Octets
  import opened Prefixes
  import opened Sequences
  import opened Wrappers

  const ADDRESS_BITS := 32

  /** An IPv4 prefix: as many bits as its length says. */
  type Prefix = b: Bits | |b| <= ADDRESS_BITS

  /** The octets that hold n bits: enough, and no more than that. */
  function PSize(n: nat): (r: nat)
    ensures n <= 8 * r < n + 8
  {
    (n + 7) / 8
  }

  // ---------- writing prefixes ----------

  /** The leading octets of the address: the bits, and zeros up to the next octet. */
  function Address(b: Bits): (o: seq<Octet>)
    ensures |o| == PSize(|b|)
  {
    if b == [] then []
    else if |b| <= 8 then [OctetOf(b + Zeros(8 - |b|))]
    else [OctetOf(b[..8])] + Address(b[8..])
  }

  /** The bits of a string of octets. */
  function BitsIn(o: seq<Octet>): (b: Bits)
    ensures |b| == 8 * |o|
  {
    if o == [] then [] else BitsFrom(o[0], 8) + BitsIn(o[1..])
  }

  lemma {:induction false} AddressBits(b: Bits)
    ensures BitsIn(Address(b)) == b + Zeros(8 * PSize(|b|) - |b|)
  {
    if b == [] {
    } else if |b| <= 8 {
      BitsOfBinary(b + Zeros(8 - |b|));
      assert Address(b)[1..] == [] && BitsIn([]) == [];
    } else {
      BitsOfBinary(b[..8]);
      AddressBits(b[8..]);
      assert Address(b)[1..] == Address(b[8..]);
      assert b == b[..8] + b[8..];
    }
  }

  function EncPrefix(p: Prefix): (o: seq<Octet>)
    ensures |o| == 1 + PSize(|p|)
  {
    [|p|] + Address(p)
  }

  function EncPrefixes(ps: seq<Prefix>): seq<Octet> {
    if ps == [] then [] else EncPrefix(ps[0]) + EncPrefixes(ps[1..])
  }

  lemma {:induction false} EncSnoc(ps: seq<Prefix>, p: Prefix)
    ensures EncPrefixes(ps + [p]) == EncPrefixes(ps) + EncPrefix(p)
  {
    if ps == [] {
      assert [] + [p] == [p] && [p][1..] == [] && EncPrefixes([p]) == EncPrefix(p) + [];
    } else {
      assert (ps + [p])[1..] == ps[1..] + [p];
      EncSnoc(ps[1..], p);
      AppendAssoc(EncPrefix(ps[0]), EncPrefixes(ps[1..]), EncPrefix(p));
    }
  }

  // ---------- reading prefixes ----------

  /** One prefix can be read: its length octet is no more than 32, and its octets are there. */
  predicate HeadSane(b: seq<Octet>) {
    b != [] && b[0] <= ADDRESS_BITS && 1 + PSize(b[0]) <= |b|
  }

  function First(b: seq<Octet>): (p: Prefix)
    requires HeadSane(b)
    ensures |p| == b[0]
  {
    BitsIn(b[1..1 + PSize(b[0])])[..b[0]]
  }

  function Rest(b: seq<Octet>): (r: seq<Octet>)
    requires HeadSane(b)
    ensures |r| < |b|
  {
    b[1 + PSize(b[0])..]
  }

  predicate Sane(b: seq<Octet>) {
    b == [] || (HeadSane(b) && Sane(Rest(b)))
  }

  /** The prefixes of a well-formed field. */
  function Listed(b: seq<Octet>): seq<Prefix>
    requires Sane(b)
  {
    if b == [] then [] else [First(b)] + Listed(Rest(b))
  }

  /** An address 224.0.0.0 to 239.255.255.255 once zeros are filled in. */
  predicate Multicast(p: Prefix) {
    |p| >= 3 && p[0] && p[1] && p[2] && (|p| > 3 ==> !p[3])
  }

  /** That is, its first octet is between 224 and 239. */
  lemma MulticastOctet(p: Prefix)
    ensures Multicast(p) <==> p != [] && 224 <= Address(p)[0] <= 239
  {
    if p != [] {
      var b: Bits := if |p| <= 8 then p + Zeros(8 - |p|) else p[..8];
      assert Address(p)[0] == OctetOf(b);
      assert forall k :: 0 <= k < 8 ==> b[k] == (k < |p| && p[k]);
      OctetByBits(b);
    }
  }

  datatype Taken = Taken(prefixes: seq<Prefix>, whole: bool)

  /** What is acted upon: prefixes up to the first that is malformed or multicast. */
  function TakenFrom(b: seq<Octet>): Taken {
    if b == [] then Taken([], true)
    else if !HeadSane(b) || Multicast(First(b)) then Taken([], false)
    else var t := TakenFrom(Rest(b)); Taken([First(b)] + t.prefixes, t.whole)
  }

  lemma HeadOfEnc(p: Prefix, x: seq<Octet>)
    ensures HeadSane(EncPrefix(p) + x) && First(EncPrefix(p) + x) == p && Rest(EncPrefix(p) + x) == x
  {
    var b := EncPrefix(p) + x;
    assert b[1..1 + PSize(|p|)] == Address(p);
    AddressBits(p);
  }

  /** Whatever prefixes are written, the octets are well formed and list exactly them. */
  lemma {:induction false} PrefixesRead(ps: seq<Prefix>)
    ensures Sane(EncPrefixes(ps)) && Listed(EncPrefixes(ps)) == ps
  {
    if ps != [] {
      PrefixesRead(ps[1..]);
      HeadOfEnc(ps[0], EncPrefixes(ps[1..]));
    }
  }

  /** Reading and writing back takes as many octets, and lists the same prefixes. */
  lemma {:induction false} PrefixesRewritten(b: seq<Octet>)
    requires Sane(b)
    ensures |EncPrefixes(Listed(b))| == |b|
    ensures Sane(EncPrefixes(Listed(b))) && Listed(EncPrefixes(Listed(b))) == Listed(b)
  {
    PrefixesRead(Listed(b));
    if b != [] {
      PrefixesRewritten(Rest(b));
      assert Listed(b)[1..] == Listed(Rest(b));
    }
  }

  function FirstMulticast(ps: seq<Prefix>): (k: nat)
    ensures k <= |ps| && (forall i :: 0 <= i < k ==> !Multicast(ps[i])) && (k < |ps| ==> Multicast(ps[k]))
  {
    if ps == [] || Multicast(ps[0]) then 0 else 1 + FirstMulticast(ps[1..])
  }

  /** The receiver acts on the prefixes before the first multicast one, so on all of them exactly when there is none. */
  lemma {:induction false} PrefixesTaken(ps: seq<Prefix>)
    ensures var k := FirstMulticast(ps); TakenFrom(EncPrefixes(ps)) == Taken(ps[..k], k == |ps|)
  {
    if ps != [] {
      PrefixesTaken(ps[1..]);
      HeadOfEnc(ps[0], EncPrefixes(ps[1..]));
      if !Multicast(ps[0]) {
        var k := FirstMulticast(ps[1..]);
        assert FirstMulticast(ps) == 1 + k;
        assert ps[..1 + k] == [ps[0]] + ps[1..][..k];
      }
    }
  }

  /** The syntax check, with a pointer that runs over the field. */
  method SanityCheck(b: seq<Octet>) returns (ok: bool)
    ensures ok <==> Sane(b)
  {
    var pnt := 0;
    while pnt < |b|
      invariant 0 <= pnt <= |b| && (Sane(b) <==> Sane(b[pnt..]))
    {
      var prefixlen := b[pnt];
      if prefixlen > ADDRESS_BITS {
        return false;
      }
      var psize := PSize(prefixlen);
      if pnt + 1 + psize > |b| {
        return false;
      }
      assert Rest(b[pnt..]) == b[pnt + 1 + psize..];
      pnt := pnt + 1 + psize;
    }
    ok := true;
  }

  lemma TakenStep(b: seq<Octet>, pnt: nat)
    requires pnt < |b| && HeadSane(b[pnt..])
    ensures var next := pnt + 1 + PSize(b[pnt]);
      && next <= |b| && First(b[pnt..]) == BitsIn(b[pnt + 1..next])[..b[pnt]] && Rest(b[pnt..]) == b[next..]
  {
    assert b[pnt..][1..1 + PSize(b[pnt])] == b[pnt + 1..pnt + 1 + PSize(b[pnt])];
  }

  ghost predicate Awaits(all: Taken, done: seq<Prefix>, left: Taken) {
    all == Taken(done + left.prefixes, left.whole)
  }

  lemma AwaitsNext(all: Taken, ps: seq<Prefix>, b: seq<Octet>, p: Prefix)
    requires HeadSane(b) && p == First(b) && !Multicast(p) && Awaits(all, ps, TakenFrom(b))
    ensures Awaits(all, ps + [p], TakenFrom(Rest(b)))
  {
    AppendAssoc(ps, [p], TakenFrom(Rest(b)).prefixes);
  }

  /** Reads the prefix at the pointer, and where the next one starts. */
  method GetPrefix(b: seq<Octet>, pnt: nat) returns (r: Option<(Prefix, nat)>)
    requires pnt < |b|
    ensures r.Some? <==> HeadSane(b[pnt..])
    ensures r.Some? ==> pnt < r.value.1 <= |b| && r.value.0 == First(b[pnt..]) && b[r.value.1..] == Rest(b[pnt..])
  {
    var prefixlen := b[pnt];
    if prefixlen > ADDRESS_BITS {
      return None;
    }
    var next := pnt + 1 + PSize(prefixlen);
    if next > |b| {
      return None;
    }
    TakenStep(b, pnt);
    r := Some((BitsIn(b[pnt + 1..next])[..prefixlen], next));
  }

  /** The prefixes acted upon, and whether the whole field was. */
  method NlriParse(b: seq<Octet>) returns (ps: seq<Prefix>, ok: bool)
    ensures Taken(ps, ok) == TakenFrom(b)
  {
    ps := [];
    var pnt := 0;
    ghost var all := TakenFrom(b);
    assert b[0..] == b;
    while pnt < |b|
      invariant 0 <= pnt <= |b| && Awaits(all, ps, TakenFrom(b[pnt..]))
    {
      var r := GetPrefix(b, pnt);
      if r == None || Multicast(r.value.0) {
        return ps, false;
      }
      AwaitsNext(all, ps, b[pnt..], r.value.0);
      ps := ps + [r.value.0];
      pnt := r.value.1;
    }
    ok := true;
  }

  // ---------- messages ----------

  const MARKER_SIZE := 16
  const HEADER_SIZE := 19
  const UPDATE: Octet := 2

  /** Marker, length of the whole message, type. */
  function Header(size: nat): (h: seq<Octet>)
    requires size < 0x1_0000
    ensures |h| == HEADER_SIZE
  {
    seq(MARKER_SIZE, _ => 255) + Enc16(size) + [UPDATE]
  }

  /** The withdrawn routes, attributes and announced routes of an UPDATE, each field as it stands. */
  datatype Parts = Parts(withdrawn: seq<Octet>, attrs: seq<Octet>, nlri: seq<Octet>)

  /** A field behind its length. */
  function Field(x: seq<Octet>): (b: seq<Octet>)
    requires |x| < 0x1_0000
    ensures |b| == 2 + |x|
  {
    Enc16(|x|) + x
  }

  function Body(m: Parts): (b: seq<Octet>)
    requires |m.withdrawn| < 0x1_0000 && |m.attrs| < 0x1_0000
    ensures |b| == 4 + |m.withdrawn| + |m.attrs| + |m.nlri|
  {
    Field(m.withdrawn) + (Field(m.attrs) + m.nlri)
  }

  function PacketSize(m: Parts): nat {
    HEADER_SIZE + 4 + |m.withdrawn| + |m.attrs| + |m.nlri|
  }

  function Packet(m: Parts): (b: seq<Octet>)
    requires PacketSize(m) < 0x1_0000
    ensures |b| == PacketSize(m)
  {
    Header(PacketSize(m)) + Body(m)
  }

  /** Cuts off a field, when there are two octets for its length and as many as that says. */
  function Cut(b: seq<Octet>): (r: Option<(seq<Octet>, seq<Octet>)>)
    ensures r.Some? ==> |r.value.0| < 0x1_0000
  {
    if |b| < 2 || 2 + Dec16(b[..2]) > |b| then None else
    var n := 2 + Dec16(b[..2]);
    Some((b[2..n], b[n..]))
  }

  /** Taking the body of an UPDATE apart, with every length checked against what is left. */
  function ReadBody(b: seq<Octet>): Option<Parts> {
    var w := Cut(b);
    if w == None || !Sane(w.value.0) then None else
    var a := Cut(w.value.1);
    if a == None || !Sane(a.value.1) then None
    else Some(Parts(w.value.0, a.value.0, a.value.1))
  }

  lemma CutField(x: seq<Octet>, y: seq<Octet>)
    requires |x| < 0x1_0000
    ensures Cut(Field(x) + y) == Some((x, y))
  {
    var b := Field(x) + y;
    assert b[..2] == Enc16(|x|);
    Word16Value(|x|);
    assert b[2..2 + |x|] == x && b[2 + |x|..] == y;
  }

  lemma FieldCut(b: seq<Octet>)
    requires Cut(b).Some?
    ensures Field(Cut(b).value.0) + Cut(b).value.1 == b
  {
    assert Enc16(Dec16(b[..2])) == b[..2];
  }

  lemma BodyRead(m: Parts)
    requires |m.withdrawn| < 0x1_0000 && |m.attrs| < 0x1_0000 && Sane(m.withdrawn) && Sane(m.nlri)
    ensures ReadBody(Body(m)) == Some(m)
  {
    CutField(m.withdrawn, Field(m.attrs) + m.nlri);
    CutField(m.attrs, m.nlri);
  }

  lemma HeaderRead(size: nat)
    requires size < 0x1_0000
    ensures var h := Header(size);
      && (forall i :: 0 <= i < MARKER_SIZE ==> h[i] == 255)
      && h[MARKER_SIZE..HEADER_SIZE - 1] == Enc16(size) && h[HEADER_SIZE - 1] == UPDATE
  {
  }

  /** A message comes apart into the parts it was made of, and carries its own length. */
  lemma PacketRead(m: Parts)
    requires PacketSize(m) < 0x1_0000 && Sane(m.withdrawn) && Sane(m.nlri)
    ensures var b := Packet(m);
      && (forall i :: 0 <= i < MARKER_SIZE ==> b[i] == 255)
      && b[MARKER_SIZE..HEADER_SIZE - 1] == Enc16(|b|) && b[HEADER_SIZE - 1] == UPDATE
      && ReadBody(b[HEADER_SIZE..]) == Some(m)
  {
    var h, b := Header(PacketSize(m)), Packet(m);
    HeaderRead(PacketSize(m));
    assert b[HEADER_SIZE..] == Body(m) && b[..HEADER_SIZE] == h;
    assert b[MARKER_SIZE..HEADER_SIZE - 1] == h[MARKER_SIZE..HEADER_SIZE - 1];
    BodyRead(m);
  }

  /** Every body that is accepted is the body of what it comes apart into. */
  lemma BodyExact(b: seq<Octet>)
    requires ReadBody(b).Some?
    ensures |ReadBody(b).value.withdrawn| < 0x1_0000 && |ReadBody(b).value.attrs| < 0x1_0000
    ensures Body(ReadBody(b).value) == b && Sane(ReadBody(b).value.withdrawn) && Sane(ReadBody(b).value.nlri)
  {
    FieldCut(b);
    FieldCut(Cut(b).value.1);
  }
}
