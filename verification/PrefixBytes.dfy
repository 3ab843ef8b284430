/**
 * Prefixes as the byte arrays the daemon keeps. The byte-wise comparison and
 * common-prefix routines are shown to compute the bit-string notions of Prefixes.
 */
module PrefixBytes {
  import opened Prefixes

  /** An octet: its eight bits, high bit first, in the order prefix_bit numbers them. */
  type Byte = b: Bits | |b| == 8 witness seq(8, _ => false)

  type Bytes = seq<Byte>

  // ---------- the C operators on octets ----------

  function And(a: Byte, b: Byte): (r: Byte)
    ensures forall k :: 0 <= k < 8 ==> r[k] == (a[k] && b[k])
  {
    seq(8, k requires 0 <= k < 8 => a[k] && b[k])
  }

  function Xor(a: Byte, b: Byte): (r: Byte)
    ensures forall k :: 0 <= k < 8 ==> r[k] == (a[k] != b[k])
  {
    seq(8, k requires 0 <= k < 8 => a[k] != b[k])
  }

  /** 0x80 >> m. */
  function WalkingBit(m: nat): (r: Byte)
    ensures forall k :: 0 <= k < 8 ==> r[k] == (k == m)
  {
    seq(8, k requires 0 <= k < 8 => k == m)
  }

  /** maskbit[m]: the m high bits of an octet. */
  function MaskBit(m: nat): (r: Byte)
    ensures forall k :: 0 <= k < 8 ==> r[k] == (k < m)
  {
    seq(8, k requires 0 <= k < 8 => k < m)
  }

  /** All the bits of a byte array; a prefix of length n is the first n of them. */
  function BitsOf(b: Bytes): (s: Bits)
    ensures |s| == 8 * |b|
  {
    if b == [] then [] else b[0] + BitsOf(b[1..])
  }

  // ---------- one byte ----------

  /** Bytes differ under maskbit[m] exactly when their first m bits differ. */
  lemma PartialByte(a: Byte, b: Byte, m: nat)
    requires m <= 8
    ensures And(MaskBit(m), Xor(a, b)) == Zeros(8) <==> a[..m] == b[..m]
  {
    if a[..m] == b[..m] {
      forall k | 0 <= k < m ensures a[k] == b[k] {
        assert a[k] == a[..m][k] == b[..m][k] == b[k];
      }
    } else {
      var k :| 0 <= k < m && a[k] != b[k];
      assert And(MaskBit(m), Xor(a, b))[k];
    }
  }

  lemma WalkingBitTests(a: Byte, b: Byte, m: nat)
    requires m < 8
    ensures And(WalkingBit(m), Xor(a, b)) == Zeros(8) <==> a[m] == b[m]
  {
    if a[m] != b[m] {
      assert And(WalkingBit(m), Xor(a, b))[m];
    }
  }

  // ---------- byte arrays ----------

  lemma BitsOfAppend(a: Bytes, b: Bytes)
    ensures BitsOf(a + b) == BitsOf(a) + BitsOf(b)
  {
    if a != [] {
      assert (a + b)[1..] == a[1..] + b;
      BitsOfAppend(a[1..], b);
    } else {
      assert a + b == b;
    }
  }

  lemma BitsOfInjective(a: Bytes, b: Bytes)
    requires |a| == |b| && BitsOf(a) == BitsOf(b)
    ensures a == b
  {
    if a != [] {
      assert BitsOf(a)[..8] == a[0] && BitsOf(b)[..8] == b[0];
      assert BitsOf(a)[8..] == BitsOf(a[1..]) && BitsOf(b)[8..] == BitsOf(b[1..]);
      BitsOfInjective(a[1..], b[1..]);
      assert a == [a[0]] + a[1..] && b == [b[0]] + b[1..];
    }
  }

  /** The bits before, inside and after byte i. */
  lemma BitsOfSplit(b: Bytes, i: nat)
    requires i < |b|
    ensures BitsOf(b) == BitsOf(b[..i]) + (b[i] + BitsOf(b[i + 1..]))
  {
    assert b == b[..i] + b[i..] && b[i..][1..] == b[i + 1..];
    BitsOfAppend(b[..i], b[i..]);
  }

  lemma BitsOfZeros(b: Bytes)
    requires forall j :: 0 <= j < |b| ==> b[j] == Zeros(8)
    ensures BitsOf(b) == Zeros(8 * |b|)
  {
  }

  /** The first 8 * i + m bits: i whole bytes and m bits of the next. */
  function Cut(b: Bytes, i: nat, m: nat): (s: Bits)
    requires m < 8 && i <= |b| && (m > 0 ==> i < |b|)
    ensures |s| == 8 * i + m
  {
    BitsOf(b[..i]) + if m > 0 then b[i][..m] else []
  }

  lemma CutIsPrefix(b: Bytes, i: nat, m: nat)
    requires m < 8 && i <= |b| && (m > 0 ==> i < |b|)
    ensures BitsOf(b)[..8 * i + m] == Cut(b, i, m)
  {
    if i == |b| {
      assert b[..i] == b;
    } else {
      BitsOfSplit(b, i);
    }
  }

  lemma CutsEqual(a: Bytes, b: Bytes, i: nat, m: nat)
    requires m < 8 && i <= |a| && i <= |b| && (m > 0 ==> i < |a| && i < |b|)
    ensures Cut(a, i, m) == Cut(b, i, m) <==> a[..i] == b[..i] && (m > 0 ==> a[i][..m] == b[i][..m])
  {
    var x, y := Cut(a, i, m), Cut(b, i, m);
    assert x[..8 * i] == BitsOf(a[..i]) && y[..8 * i] == BitsOf(b[..i]);
    assert m > 0 ==> x[8 * i..] == a[i][..m] && y[8 * i..] == b[i][..m];
    if x == y {
      BitsOfInjective(a[..i], b[..i]);
    }
  }

  /** Byte-wise prefix test; agrees with the prefix order on bit strings. */
  method PrefixMatch(np: Bytes, nlen: nat, pp: Bytes, plen: nat) returns (ok: bool)
    requires nlen <= 8 * |np| && plen <= 8 * |pp|
    ensures ok <==> BitsOf(np)[..nlen] <= BitsOf(pp)[..plen]
  {
    if nlen > plen {
      return false;
    }
    var offset, shift := nlen / 8, nlen % 8;
    ghost var whole := offset;
    CutIsPrefix(np, offset, shift);
    CutIsPrefix(pp, offset, shift);
    CutsEqual(np, pp, offset, shift);
    assert BitsOf(pp)[..plen][..nlen] == BitsOf(pp)[..nlen];
    if shift != 0 {
      PartialByte(np[offset], pp[offset], shift);
      if And(MaskBit(shift), Xor(np[offset], pp[offset])) != Zeros(8) {
        return false;
      }
    }
    while offset > 0
      invariant 0 <= offset <= whole && np[offset..whole] == pp[offset..whole]
    {
      offset := offset - 1;
      if np[offset] != pp[offset] {
        assert np[..whole][offset] != pp[..whole][offset];
        return false;
      }
      assert np[offset..whole] == [np[offset]] + np[offset + 1..whole];
      assert pp[offset..whole] == [pp[offset]] + pp[offset + 1..whole];
    }
    return true;
  }

  /** How many leading bits two bytes share, up to max: the mask walk of route_common. */
  method SharedBits(a: Byte, b: Byte, max: nat) returns (n: nat)
    requires max <= 8 && (max == 8 ==> a != b)
    ensures n <= max && n < 8 && a[..n] == b[..n] && (n < max ==> a[n] != b[n])
  {
    var diff := Xor(a, b);
    n := 0;
    WalkingBitTests(a, b, 0);
    while n < max && And(WalkingBit(n), diff) == Zeros(8)
      invariant n <= max && n < 8 && a[..n] == b[..n]
      invariant And(WalkingBit(n), diff) == Zeros(8) <==> a[n] == b[n]
    {
      assert a[..n + 1] == a[..n] + [a[n]] && b[..n + 1] == b[..n] + [b[n]];
      assert a[..8] == a && b[..8] == b;
      n := n + 1;
      WalkingBitTests(a, b, n);
    }
  }

  /** Bit m of byte i. */
  lemma BitAt(b: Bytes, i: nat, m: nat)
    requires i < |b| && m < 8
    ensures BitsOf(b)[8 * i + m] == b[i][m]
  {
    BitsOfSplit(b, i);
  }

  lemma LeadIsCut(b: Bytes, plen: nat, i: nat, m: nat)
    requires m < 8 && 8 * i + m <= plen <= 8 * |b|
    ensures BitsOf(b)[..plen][..8 * i + m] == Cut(b, i, m)
  {
    CutIsPrefix(b, i, m);
    assert BitsOf(b)[..plen][..8 * i + m] == BitsOf(b)[..8 * i + m];
  }

  /** i shared bytes and m shared bits of the next, then a difference: the common prefix. */
  lemma CommonAt(np: Bytes, pp: Bytes, plen: nat, i: nat, m: nat)
    requires |np| == |pp| && m < 8 && 8 * i + m <= plen <= 8 * |pp|
    requires np[..i] == pp[..i] && (i < |np| ==> np[i][..m] == pp[i][..m])
    requires 8 * i + m < plen ==> np[i][m] != pp[i][m]
    ensures Common(BitsOf(np)[..plen], BitsOf(pp)[..plen]) == Cut(np, i, m)
  {
    var n, p, k := BitsOf(np)[..plen], BitsOf(pp)[..plen], 8 * i + m;
    LeadIsCut(np, plen, i, m);
    LeadIsCut(pp, plen, i, m);
    if k < plen {
      BitAt(np, i, m);
      BitAt(pp, i, m);
    }
    CommonStops(n, p, k);
  }

  /** Whole bytes of np, its next byte cut to m bits, then zeros. */
  lemma CutThenZeros(np: Bytes, b: Bytes, i: nat, m: nat)
    requires |b| == |np| && i < |np| && m < 8 && b[..i] == np[..i] && b[i] == And(np[i], MaskBit(m))
    requires forall j :: i < j < |b| ==> b[j] == Zeros(8)
    ensures BitsOf(b) == Cut(np, i, m) + Zeros(8 * |b| - 8 * i - m)
  {
    BitsOfSplit(b, i);
    BitsOfZeros(b[i + 1..]);
    assert b[i] == np[i][..m] + Zeros(8 - m);
    assert Zeros(8 - m) + Zeros(8 * (|b| - i - 1)) == Zeros(8 * |b| - 8 * i - m);
  }

  /** Writes the common prefix of n and p into `newp`, zero elsewhere, and returns its length. */
  method RouteCommon(np: Bytes, pp: Bytes, plen: nat, newp: array<Byte>) returns (len: nat)
    requires |np| == |pp| == newp.Length && plen <= 8 * |pp|
    requires forall i :: 0 <= i < newp.Length ==> newp[i] == Zeros(8)
    modifies newp
    ensures len <= plen && BitsOf(newp[..])[..len] == Common(BitsOf(np)[..plen], BitsOf(pp)[..plen])
    ensures BitsOf(newp[..])[len..] == Zeros(8 * newp.Length - len)
  {
    var i := 0;
    while i < plen / 8
      invariant 0 <= i <= plen / 8
      invariant forall j :: 0 <= j < i ==> newp[j] == np[j] == pp[j]
      invariant forall j :: i <= j < newp.Length ==> newp[j] == Zeros(8)
    {
      if np[i] != pp[i] {
        break;
      }
      newp[i] := np[i];
      i := i + 1;
    }
    assert np[..i] == pp[..i] == newp[..i];
    len := 8 * i;
    if len != plen {
      var more := SharedBits(np[i], pp[i], if plen - len < 8 then plen - len else 8);
      CommonAt(np, pp, plen, i, more);
      newp[i] := And(np[i], MaskBit(more));
      CutThenZeros(np, newp[..], i, more);
      len := len + more;
    } else {
      CommonAt(np, pp, plen, i, 0);
      WholeThenZeros(np, newp[..], i);
    }
  }

  lemma WholeThenZeros(np: Bytes, b: Bytes, i: nat)
    requires |b| == |np| && i <= |np| && b[..i] == np[..i] && forall j :: i <= j < |b| ==> b[j] == Zeros(8)
    ensures BitsOf(b) == Cut(np, i, 0) + Zeros(8 * |b| - 8 * i)
  {
    assert b == b[..i] + b[i..];
    BitsOfAppend(b[..i], b[i..]);
    BitsOfZeros(b[i..]);
  }

  /** Clears everything behind the first plen bits. */
  method ApplyMask(a: array<Byte>, plen: nat)
    modifies a
    ensures plen >= 8 * a.Length ==> a[..] == old(a[..])
    ensures plen < 8 * a.Length ==> BitsOf(a[..]) == old(BitsOf(a[..]))[..plen] + Zeros(8 * a.Length - plen)
  {
    var index := plen / 8;
    if index < a.Length {
      ghost var was := a[..];
      var offset := plen % 8;
      a[index] := And(a[index], MaskBit(offset));
      var i := index + 1;
      while i < a.Length
        invariant index < i <= a.Length && a[..index] == was[..index]
        invariant a[index] == And(was[index], MaskBit(offset))
        invariant forall j :: index < j < i ==> a[j] == Zeros(8)
      {
        a[i] := Zeros(8);
        i := i + 1;
      }
      CutThenZeros(was, a[..], index, offset);
      CutIsPrefix(was, index, offset);
    }
  }

  /** That is the common part of node and query as bgp_node_get needs it, whichever is longer. */
  lemma CommonOfNode(np: Bytes, nlen: nat, p: Bits)
    requires nlen <= 8 * |np| && |p| <= 8 * |np| && !(BitsOf(np)[..nlen] <= p)
    ensures Common(BitsOf(np)[..|p|], p) == Common(BitsOf(np)[..nlen], p)
  {
    CommonOfComparable(BitsOf(np)[..nlen], BitsOf(np)[..|p|], p);
  }
}
