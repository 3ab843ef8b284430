/** Prefixes as bit strings, their common part, and the order in which a trie walk meets them. */
module Prefixes {

  /** A masked prefix: its first prefixlen bits, most significant first. */
  type Bits = seq<bool>

  function Zeros(n: nat): (s: Bits)
    ensures |s| == n && forall k :: 0 <= k < n ==> !s[k]
  {
    seq(n, _ => false)
  }

  /** The longest common prefix of two bit strings. */
  function Common(a: Bits, b: Bits): (c: Bits)
    ensures c <= a && c <= b
    ensures |c| < |a| && |c| < |b| ==> a[|c|] != b[|c|]
  {
    if a != [] && b != [] && a[0] == b[0] then [a[0]] + Common(a[1..], b[1..]) else []
  }

  /** Child prefixes extend the parent by at least the branching bit. */
  predicate Branch(a: Bits, bit: bool, b: Bits) {
    a < b && b[|a|] == bit
  }

  /** Preorder: a prefix before its extensions, the 0 branch before the 1 branch. */
  predicate Before(a: Bits, b: Bits) {
    b != [] && (a == [] || if a[0] == b[0] then Before(a[1..], b[1..]) else b[0])
  }

  lemma BeforeExtension(a: Bits, b: Bits)
    requires a < b
    ensures Before(a, b)
  {
  }

  lemma BeforeTransitive(a: Bits, b: Bits, c: Bits)
    requires Before(a, b) && Before(b, c)
    ensures Before(a, c)
  {
  }

  lemma BeforeAsymmetric(a: Bits, b: Bits)
    requires Before(a, b)
    ensures !Before(b, a) && a != b
  {
  }

  lemma BeforeTotal(a: Bits, b: Bits)
    ensures a == b || Before(a, b) || Before(b, a)
  {
    if a != [] && b != [] && a[0] == b[0] {
      BeforeTotal(a[1..], b[1..]);
    }
  }

  lemma BeforeBranch(q: Bits, a: Bits, b: Bits)
    requires Branch(q, false, a) && Branch(q, true, b)
    ensures Before(a, b)
  {
    if q != [] {
      BeforeBranch(q[1..], a[1..], b[1..]);
    }
  }

  /** A string that leaves q inside q is on the same side of q and of every extension of q. */
  lemma BeforeDiverging(q: Bits, m: Bits, x: Bits)
    requires !(q <= m) && !(m <= q) && q <= x
    ensures Before(m, x) == Before(m, q) && Before(x, m) == Before(q, m)
  {
    if m[0] == q[0] {
      BeforeDiverging(q[1..], m[1..], x[1..]);
    }
  }

  predicate AtOrBefore(a: Bits, b: Bits) {
    a == b || Before(a, b)
  }

  /** A string outside q's subtree is before every string in it, or after every string in it. */
  lemma OutsideSubtree(q: Bits, m: Bits, a: Bits, b: Bits)
    requires !(q <= m) && q <= a && q <= b
    ensures Before(m, a) || Before(b, m)
  {
    if m <= q {
      BeforeExtension(m, a);
    } else {
      BeforeDiverging(q, m, a);
      BeforeDiverging(q, m, b);
      BeforeTotal(m, q);
    }
  }

  lemma BeforeThenAtOrBefore(a: Bits, b: Bits, c: Bits)
    requires Before(a, b) && AtOrBefore(b, c)
    ensures Before(a, c) && a != c && !AtOrBefore(c, a)
  {
    if b != c {
      BeforeTransitive(a, b, c);
    }
    BeforeAsymmetric(a, c);
  }

  /** Two prefixes of one string are comparable. */
  lemma PrefixesComparable(a: Bits, b: Bits, c: Bits)
    requires a <= c && b <= c
    ensures |a| <= |b| ==> a <= b
  {
  }

  lemma CommonIsLongest(a: Bits, b: Bits, c: Bits)
    requires c <= a && c <= b
    ensures c <= Common(a, b)
  {
    if c != [] {
      CommonIsLongest(a[1..], b[1..], c[1..]);
    }
  }

  /** Agreement up to k and disagreement there make the common prefix k long. */
  lemma CommonStops(a: Bits, b: Bits, k: nat)
    requires k <= |a| && k <= |b| && a[..k] == b[..k]
    requires k < |a| && k < |b| ==> a[k] != b[k]
    ensures Common(a, b) == a[..k]
  {
    if k > 0 {
      assert a[0] == a[..k][0] == b[..k][0] == b[0];
      assert a[1..][..k - 1] == a[..k][1..] == b[..k][1..] == b[1..][..k - 1];
      CommonStops(a[1..], b[1..], k - 1);
    }
  }

  /** Lengthening or cutting n to x past the point where it leaves p does not change the common part. */
  lemma CommonOfComparable(n: Bits, x: Bits, p: Bits)
    requires !(n <= p) && |x| == |p| && (n <= x || x <= n)
    ensures Common(x, p) == Common(n, p)
  {
    var c := Common(n, p);
    assert |c| == |n| ==> n == c;
    assert x[..|c|] == n[..|c|] == p[..|c|];
    CommonStops(x, p, |c|);
  }
}
