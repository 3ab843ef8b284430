/**
 * The path-compressed binary trie of bgp_table.c: nodes with parent and child
 * links, lock counts, glue nodes and cascading deletion.
 */
module Table {
  import opened Wrappers
  import opened Prefixes

  class Node<T> {
    const p: Bits
    var parent: Node?<T>
    var left: Node?<T>
    var right: Node?<T>
    var info: Option<T>
    var lock: nat

    constructor (p: Bits)
      ensures this.p == p && parent == null && left == null && right == null
      ensures info == None && lock == 0
    {
      this.p := p;
      parent, left, right := null, null, null;
      info, lock := None, 0;
    }

    function Link(bit: bool): Node?<T>
      reads this`left, this`right
    {
      if bit then right else left
    }

    /** Both links are in use. */
    predicate Full()
      reads this`left, this`right
    {
      left != null && right != null
    }
  }

  class BgpTable<T> {
    var top: Node?<T>
    var count: nat
    ghost var nodes: set<Node<T>>
    ghost var entries: map<Bits, T>  // the plain prefix map that the trie refines

    constructor ()
      ensures Valid() && nodes == {} && entries == map[]
    {
      top, count, nodes, entries := null, 0, {}, map[];
    }

    // ---------- the invariant ----------

    ghost predicate ChildOk(n: Node<T>, bit: bool)
      requires n in nodes
      reads this`top, this`count, this`nodes, nodes`parent, nodes`left, nodes`right
    {
      var c := n.Link(bit);
      c != null ==> c in nodes && c.parent == n && Branch(n.p, bit, c.p)
    }

    ghost predicate ParentOk(n: Node<T>)
      requires n in nodes
      reads this`top, this`count, this`nodes, nodes`parent, nodes`left, nodes`right
    {
      if n.parent == null then top == n
      else n.parent in nodes && (n.parent.left == n || n.parent.right == n)
    }

    ghost predicate Linked(n: Node<T>)
      requires n in nodes
      reads this`top, this`count, this`nodes, nodes`parent, nodes`left, nodes`right
    {
      ChildOk(n, false) && ChildOk(n, true) && ParentOk(n)
    }

    /** Links agree in both directions and children extend their parent on the right bit. */
    ghost predicate Shape()
      reads this`top, this`count, this`nodes, nodes`parent, nodes`left, nodes`right
    {
      && (top != null ==> top in nodes && top.parent == null)
      && (forall n {:trigger Linked(n)} :: n in nodes ==> Linked(n))
      && count == |nodes|
    }

    /** A node nobody holds is glue: two children and no payload. */
    ghost predicate Held(n: Node<T>)
      reads n
    {
      n.lock == 0 ==> n.Full() && n.info == None
    }

    static function Get(e: map<Bits, T>, q: Bits): Option<T> {
      if q in e then Some(e[q]) else None
    }

    ghost predicate HasNode(q: Bits)
      reads this`nodes
    {
      exists n <- nodes :: n.p == q
    }

    /** The payloads are exactly the entries. */
    ghost predicate Refines()
      reads this`nodes, this`entries, nodes`info
    {
      && (forall n {:trigger n.info} :: n in nodes ==> n.info == Get(entries, n.p))
      && (forall q {:trigger HasNode(q)} :: q in entries ==> HasNode(q))
    }

    ghost predicate Valid()
      reads this, nodes
    {
      Shape() && Refines() && forall n {:trigger Held(n)} :: n in nodes ==> Held(n)
    }

    // ---------- structure of a well-linked trie ----------

    lemma TopBelow(m: Node<T>)
      requires Shape() && m in nodes
      ensures top != null && top.p <= m.p
      decreases |m.p|
    {
      assert Linked(m);
      if m.parent != null {
        assert Linked(m.parent);
        TopBelow(m.parent);
      }
    }

    /** If n's prefix covers m's, m is n or lies under n's child on m's next bit. */
    lemma Descend(n: Node<T>, m: Node<T>)
      requires Shape() && n in nodes && m in nodes && n.p <= m.p
      ensures m == n || (|n.p| < |m.p| && n.Link(m.p[|n.p|]) != null && n.Link(m.p[|n.p|]).p <= m.p)
      decreases |m.p|, |n.p|
    {
      assert Linked(m) && Linked(n);
      var x := m.parent;
      if x == null {
        TopBelow(n);
        if n != m {
          assert Linked(n.parent);
          TopBelow(n.parent);
        }
      } else {
        assert Linked(x);
        PrefixesComparable(n.p, x.p, m.p);
        PrefixesComparable(x.p, n.p, m.p);
        if |n.p| <= |x.p| {
          Descend(n, x);
        } else if |n.p| < |m.p| {
          Descend(x, n);
        } else {
          SamePrefix(n, m);
        }
      }
    }

    /** Two nodes with one prefix have one parent, hence are the same child of it. */
    lemma SamePrefix(n: Node<T>, m: Node<T>)
      requires Shape() && n in nodes && m in nodes && n.p == m.p && m.parent != null
      ensures n == m
      decreases |m.p|, |n.p|, 0
    {
      assert Linked(m) && Linked(n) && Linked(m.parent);
      var x, y := m.parent, n.parent;
      if y == null {
        TopBelow(x);
      } else {
        assert Linked(y);
        PrefixesComparable(x.p, y.p, m.p);
        PrefixesComparable(y.p, x.p, m.p);
        if |x.p| < |y.p| {
          Descend(x, y);
        } else {
          Descend(y, x);
        }
      }
    }

    lemma UniquePrefixes(n: Node<T>, m: Node<T>)
      requires Shape() && n in nodes && m in nodes && n.p == m.p
      ensures n == m
    {
      Descend(n, m);
    }

    lemma DistinctPrefixes()
      requires Shape()
      ensures forall n, m :: n in nodes && m in nodes && n.p == m.p ==> n == m
    {
      forall n, m | n in nodes && m in nodes && n.p == m.p ensures n == m {
        UniquePrefixes(n, m);
      }
    }

    lemma EntryNode(q: Bits) returns (n: Node<T>)
      requires Refines() && q in entries
      ensures n in nodes && n.p == q && n.info == Some(entries[q])
    {
      assert HasNode(q);
      n :| n in nodes && n.p == q;
    }

    // ---------- locks ----------

    method Lock(node: Node<T>)
      requires Valid() && node in nodes
      modifies node`lock
      ensures Valid() && node.lock == old(node.lock) + 1
    {
      node.lock := node.lock + 1;
    }

    // ---------- searching ----------

    /** Bit i of a query; pad is whatever memory holds past its last bit. */
    static function PrefixBit(p: Bits, i: nat, pad: bool): bool {
      if i < |p| then p[i] else pad
    }

    /** m is node or lies below it. */
    ghost predicate Ahead(node: Node?<T>, m: Node<T>) {
      node != null && node.p <= m.p
    }

    lemma AllAheadOfTop()
      requires Shape()
      ensures forall m <- nodes :: Ahead(top, m)
    {
      forall m | m in nodes ensures Ahead(top, m) { TopBelow(m); }
    }

    /** Following the query's next bit loses only the node just passed. */
    lemma StepDown(node: Node<T>, p: Bits, pad: bool)
      requires Shape() && node in nodes && node.p <= p
      ensures var c := node.Link(PrefixBit(p, |node.p|, pad));
        && (c != null ==> c in nodes && |node.p| < |c.p|)
        && forall m <- nodes :: m.p <= p && Ahead(node, m) && m != node ==> Ahead(c, m)
    {
      assert Linked(node);
      var c := node.Link(PrefixBit(p, |node.p|, pad));
      forall m | m in nodes && m.p <= p && Ahead(node, m) && m != node ensures Ahead(c, m) {
        Descend(node, m);
      }
    }

    /** best is the longest key of e that is a prefix of p, and None exactly when no key is. */
    static ghost predicate LongestMatch(e: map<Bits, T>, p: Bits, best: Option<Bits>) {
      match best
      case None => forall q <- e :: !(q <= p)
      case Some(b) => b in e && b <= p && forall q <- e :: q <= p ==> q <= b
    }

    static function PrefixOf(n: Node?<T>): Option<Bits> {
      if n == null then None else Some(n.p)
    }

    lemma LongestEntry(r: Node?<T>, p: Bits)
      requires Shape() && Refines()
      requires r != null ==> r in nodes && r.info.Some? && r.p <= p
      requires forall m <- nodes :: m.p <= p && m.info.Some? ==> r != null && |m.p| <= |r.p|
      ensures LongestMatch(entries, p, PrefixOf(r))
    {
      forall q | q in entries && q <= p ensures r != null && q <= r.p {
        var m := EntryNode(q);
        PrefixesComparable(q, r.p, p);
      }
    }

    /** Longest-prefix match: the longest entry covering the query, locked once, or null when none does. */
    method Match(p: Bits, pad: bool) returns (r: Node?<T>)
      requires Valid()
      modifies nodes`lock
      ensures Valid()
      ensures LongestMatch(entries, p, PrefixOf(r))
      ensures r != null ==> r in nodes && r.info.Some?
      ensures forall n <- nodes :: n.lock == old(n.lock) + if n == r then 1 else 0
    {
      r := null;
      var node := top;
      AllAheadOfTop();
      while node != null && |node.p| <= |p| && node.p <= p
        invariant node != null ==> node in nodes
        invariant r != null ==> r in nodes && r.info.Some? && r.p <= p
        invariant r != null && node != null ==> |r.p| < |node.p|
        invariant forall m <- nodes :: m.p <= p && m.info.Some? ==> Ahead(node, m) || (r != null && |m.p| <= |r.p|)
        decreases node != null, if node == null then 0 else |p| - |node.p|
        modifies {}
      {
        StepDown(node, p, pad);
        if node.info.Some? {
          r := node;
        }
        node := node.Link(PrefixBit(p, |node.p|, pad));
      }
      LongestEntry(r, p);
      if r != null {
        Lock(r);
      }
    }

    /** Exact lookup among entries. */
    method Lookup(p: Bits, pad: bool) returns (r: Node?<T>)
      requires Valid()
      modifies nodes`lock
      ensures Valid()
      ensures r != null <==> p in entries
      ensures r != null ==> r in nodes && r.p == p && r.info == Some(entries[p])
      ensures forall n <- nodes :: n.lock == old(n.lock) + if n == r then 1 else 0
    {
      var node := top;
      AllAheadOfTop();
      while node != null && |node.p| <= |p| && node.p <= p
        invariant node != null ==> node in nodes
        invariant Valid() && forall n <- nodes :: n.lock == old(n.lock)
        invariant forall m <- nodes :: m.p == p && m.info.Some? ==> Ahead(node, m)
        decreases node != null, if node == null then 0 else |p| - |node.p|
      {
        if |node.p| == |p| && node.info.Some? {
          assert node.p == p && node.info == Get(entries, p);
          Lock(node);
          return node;
        }
        StepDown(node, p, pad);
        node := node.Link(PrefixBit(p, |node.p|, pad));
      }
      if p in entries {
        var m := EntryNode(p);
      }
      r := null;
    }

    // ---------- deletion ----------

    /** Field by field, what taking node out and putting its only child in its place does. */
    twostate predicate Spliced(node: Node<T>)
      requires node in old(nodes)
      reads this, nodes, node
    {
      var child := old(if node.left != null then node.left else node.right);
      && nodes == old(nodes) - {node}
      && (child != null ==> child in nodes)
      && top == (if old(node.parent) == null then child else old(top))
      && forall n {:trigger n in nodes} :: n in nodes ==>
          && n.parent == (if n == child then old(node.parent) else old(n.parent))
          && n.left == (if old(n.left) == node then child else old(n.left))
          && n.right == (if old(n.right) == node then child else old(n.right))
    }

    twostate lemma SpliceShape(node: Node<T>)
      requires old(Shape()) && node in old(nodes) && !old(node.Full())
      requires Spliced(node) && count == old(count) - 1
      ensures Shape()
    {
      var child := old(if node.left != null then node.left else node.right);
      assert old(Linked(node));
      assert old(node.parent) != null ==> old(Linked(node.parent));
      assert child != null ==> old(Linked(child));
      forall n | n in nodes ensures ChildOk(n, false) && ChildOk(n, true) {
        assert old(Linked(n));
        assert n.left != null && n.left != child ==> old(Linked(n.left));
        assert n.right != null && n.right != child ==> old(Linked(n.right));
      }
      forall n | n in nodes ensures ParentOk(n) {
        assert old(Linked(n));
      }
    }

    /** Unlinks and frees a node with at most one child, which takes its place. */
    method Splice(node: Node<T>)
      requires Shape() && node in nodes && !node.Full()
      modifies this, nodes`parent, nodes`left, nodes`right
      ensures Spliced(node) && count == old(count) - 1 && entries == old(entries)
    {
      assert Linked(node);
      var c := if node.left != null then node.left else node.right;
      var parent := node.parent;
      assert c != null ==> Linked(c);
      assert parent != null ==> Linked(parent);
      if c != null {
        c.parent := parent;
      }
      if parent != null {
        if parent.left == node {
          parent.left := c;
        } else {
          parent.right := c;
        }
      } else {
        top := c;
      }
      count := count - 1;
      nodes := nodes - {node};
      forall n | n in nodes ensures old(n.left) == node || old(n.right) == node ==> n == parent {
        assert old(Linked(n));
      }
    }

    twostate predicate SameShape()
      reads this, nodes
    {
      && nodes == old(nodes) && top == old(top) && count == old(count)
      && forall n <- nodes :: n.left == old(n.left) && n.right == old(n.right) && n.parent == old(n.parent)
    }

    method Delete(node: Node<T>)
      requires Shape() && Refines() && node in nodes
      requires forall n {:trigger Held(n)} :: n in nodes && n != node ==> Held(n)
      requires node.lock == 0 && node.info == None
      modifies this, nodes`parent, nodes`left, nodes`right
      ensures Valid() && entries == old(entries)
      ensures old(node.Full()) ==> SameShape()
      ensures !old(node.Full()) && (old(node.left) != null || old(node.right) != null) ==> nodes == old(nodes) - {node}
      ensures old(node.left) == null && old(node.right) == null ==>
        nodes == old(nodes) -
          if old(node.parent) != null && old(node.parent).lock == 0 then {node, old(node.parent)} else {node}
      decreases |nodes|
    {
      if node.left != null && node.right != null {
        return;
      }
      assert Linked(node);
      var parent := node.parent;
      Splice(node);
      SpliceShape(node);
      forall q | q in entries ensures HasNode(q) {
        assert old(HasNode(q));
        assert old(node.info) == Get(entries, node.p);
        var n :| n in old(nodes) && n.p == q;
      }
      forall n | n in nodes && n != parent ensures Held(n) {
        assert old(Held(n)) && old(Linked(n));
      }
      if parent != null {
        assert old(Held(parent)) && old(Linked(parent));
        if parent.lock == 0 {
          Delete(parent);
        }
      }
    }

    /** Drops one hold; frees at most this node and its glue parent, and never touches the entries. */
    method Unlock(node: Node<T>)
      requires Valid() && node in nodes && node.lock > 0
      requires node.lock == 1 ==> node.info == None
      modifies this, nodes`parent, nodes`left, nodes`right, node`lock
      ensures Valid() && entries == old(entries) && node.lock == old(node.lock) - 1
      ensures nodes <= old(nodes) && |old(nodes)| <= |nodes| + 2
      ensures node.lock > 0 || old(node.Full()) ==> SameShape()
      ensures forall n <- old(nodes) :: n.lock > 0 ==> n in nodes
    {
      node.lock := node.lock - 1;
      forall n | n in nodes && n != node ensures Held(n) {
        assert old(Held(n));
      }
      if node.lock == 0 {
        Delete(node);
      }
    }

    // ---------- insertion ----------

    lemma EmptyTop()
      requires Shape() && top == null
      ensures nodes == {}
    {
      if n :| n in nodes { TopBelow(n); }
    }

    /** Models set_link: node takes c as its child on c's branching bit. */
    method SetLink(node: Node<T>, c: Node<T>)
      requires |node.p| < |c.p|
      modifies node`left, node`right, c`parent
      ensures c.parent == node
      ensures node.left == if c.p[|node.p|] then old(node.left) else c
      ensures node.right == if c.p[|node.p|] then c else old(node.right)
    {
      if c.p[|node.p|] { node.right := c; } else { node.left := c; }
      c.parent := node;
    }

    /** c, on its branching bit, is what hangs at n when n is `at`. */
    static function Relink(n: Node<T>, at: Node?<T>, c: Node<T>, bit: bool, was: Node?<T>): Node?<T> {
      if n == at && |n.p| < |c.p| && c.p[|n.p|] == bit then c else was
    }

    /** Field by field, what hanging c under its parent does to the nodes that were there. */
    twostate predicate Hung(new c: Node<T>)
      reads this, nodes, c
    {
      && nodes == old(nodes) + {c}
      && top == (if c.parent == null then c else old(top))
      && forall n :: n in old(nodes) ==>
          && n.left == Relink(n, c.parent, c, false, old(n.left))
          && n.right == Relink(n, c.parent, c, true, old(n.right))
    }

    twostate lemma AttachShape(leaf: Node<T>)
      requires old(Shape()) && leaf !in old(nodes) && Hung(leaf) && count == old(count) + 1
      requires leaf.left == null && leaf.right == null
      requires forall n <- old(nodes) :: n.parent == old(n.parent)
      requires leaf.parent == null ==> old(nodes) == {}
      requires var at := leaf.parent;
        at != null ==> at in old(nodes) && at.p < leaf.p && old(at.Link(leaf.p[|at.p|])) == null
      ensures Shape()
    {
      assert Linked(leaf);
      forall n | n in old(nodes) ensures Linked(n) {
        assert old(Linked(n));
      }
    }

    twostate lemma GrowRefines(c: Node<T>)
      requires old(Refines()) && nodes == old(nodes) + {c} && entries == old(entries)
      requires c.info == None && !old(HasNode(c.p)) && forall n <- old(nodes) :: n.info == old(n.info)
      ensures Refines()
    {
      assert old(HasNode(c.p)) <==> c.p in entries || old(HasNode(c.p));
      forall q | q in entries ensures HasNode(q) {
        assert old(HasNode(q));
        var n :| n in old(nodes) && n.p == q;
      }
    }

    twostate lemma GrowHeld(c: Node<T>)
      requires nodes == old(nodes) + {c} && Hung(c)
      requires forall n <- old(nodes) :: n.lock == old(n.lock) && n.info == old(n.info)
      ensures forall n {:trigger Held(n)} :: n in old(nodes) && old(Held(n)) ==> Held(n)
    {
    }

    /** Makes c the child of `at`, or the top. */
    method Hang(at: Node?<T>, c: Node<T>)
      requires c !in nodes && c.parent == null
      requires at != null ==> at in nodes && |at.p| < |c.p|
      modifies this, nodes`left, nodes`right, c`parent
      ensures Hung(c) && c.parent == at && count == old(count) + 1 && entries == old(entries)
    {
      if at != null {
        SetLink(at, c);
      } else {
        top := c;
      }
      nodes := nodes + {c};
      count := count + 1;
    }

    /** Hangs a fresh leaf under `at`, or makes it the top of an empty table. */
    method Attach(at: Node?<T>, leaf: Node<T>)
      requires Shape() && leaf !in nodes && leaf.left == null && leaf.right == null && leaf.parent == null
      requires at == null ==> top == null
      requires at != null ==> at in nodes && at.p < leaf.p && at.Link(leaf.p[|at.p|]) == null
      requires Refines() && leaf.info == None && !HasNode(leaf.p)
      modifies this, nodes`left, nodes`right, leaf`parent
      ensures Shape() && Refines() && nodes == old(nodes) + {leaf} && entries == old(entries)
      ensures forall n {:trigger Held(n)} :: n in old(nodes) && old(Held(n)) ==> Held(n)
      ensures at != null && old(at.Link(!leaf.p[|at.p|])) != null ==> at.Full()
    {
      if at == null {
        EmptyTop();
      }
      Hang(at, leaf);
      AttachShape(leaf);
      GrowRefines(leaf);
      GrowHeld(leaf);
    }

    /** The nodes are as after putting node's new parent between it and its old one. */
    twostate predicate Between(node: Node<T>)
      reads this, nodes, node, node.parent
    {
      && node in old(nodes) && node.parent != null && node.parent !in old(nodes) && Hung(node.parent)
      && node.parent.parent == old(node.parent)
      && node.parent.p < node.p
      && (node.parent.parent != null ==> node.parent.parent.p < node.parent.p)
      && node.parent.Link(node.p[|node.parent.p|]) == node && node.parent.Link(!node.p[|node.parent.p|]) == null
      && forall n <- old(nodes) :: n != node ==> n.parent == old(n.parent)
    }

    twostate lemma InterposeShape(node: Node<T>)
      requires old(Shape()) && Between(node) && count == old(count) + 1
      ensures Shape()
    {
      var at := old(node.parent);
      assert old(Linked(node));
      assert at != null ==> old(Linked(at));
      assert Linked(node.parent);
      forall n | n in old(nodes) ensures Linked(n) {
        assert old(Linked(n));
      }
    }

    /** Puts a fresh node between `node` and its parent `at`. */
    method Interpose(at: Node?<T>, mid: Node<T>, node: Node<T>)
      requires Shape() && node in nodes && node.parent == at
      requires mid !in nodes && mid.left == null && mid.right == null && mid.parent == null
      requires mid.p < node.p && (at != null ==> at.p < mid.p)
      requires Refines() && mid.info == None && !HasNode(mid.p)
      modifies this, nodes`left, nodes`right, nodes`parent, mid`parent, mid`left, mid`right
      ensures Shape() && Refines() && nodes == old(nodes) + {mid} && entries == old(entries)
      ensures forall n {:trigger Held(n)} :: n in old(nodes) && old(Held(n)) ==> Held(n)
      ensures mid.Link(node.p[|mid.p|]) == node && mid.Link(!node.p[|mid.p|]) == null
    {
      assert Linked(node);
      SetLink(mid, node);
      Hang(at, mid);
      InterposeShape(node);
      GrowRefines(mid);
      GrowHeld(mid);
    }

    /** The descent of bgp_node_get: where p's node is, or between which nodes it belongs. */
    method FindSpot(p: Bits) returns (at: Node?<T>, node: Node?<T>)
      requires Shape()
      ensures node != null ==> node in nodes && node.parent == at
      ensures at == null ==> node == top
      ensures at != null ==> at in nodes && at.p < p && at.Link(p[|at.p|]) == node
      ensures node != null && node.p < p ==> false
      ensures HasNode(p) <==> node != null && node.p == p
    {
      at := null;
      node := top;
      AllAheadOfTop();
      while node != null && |node.p| <= |p| && node.p <= p
        invariant node != null ==> node in nodes && node.parent == at
        invariant at == null ==> node == top
        invariant at != null ==> at in nodes && at.p < p && at.Link(p[|at.p|]) == node
        invariant forall m <- nodes :: m.p == p ==> Ahead(node, m)
        decreases node != null, if node == null then 0 else |p| - |node.p|
      {
        if |node.p| == |p| {
          return;
        }
        StepDown(node, p, false);
        assert Linked(node);
        at := node;
        node := node.Link(p[|node.p|]);
      }
    }

    lemma NothingBetween(at: Node?<T>, node: Node<T>, q: Bits, p: Bits)
      requires Shape() && node in nodes && node.parent == at && q == Common(node.p, p) && !(node.p <= p)
      requires at == null ==> node == top
      requires at != null ==> at in nodes && at.p < p && at.Link(p[|at.p|]) == node
      ensures q < node.p && (at != null ==> at.p < q) && !HasNode(q)
    {
      if at != null {
        assert Linked(at);
        CommonIsLongest(node.p, p, p[..|at.p| + 1]);
      }
      if m :| m in nodes && m.p == q {
        if at == null { TopBelow(m); } else { Descend(at, m); }
      }
    }

    /** p's node goes on a free link, perhaps the one a new glue node is still missing. */
    method InsertLeaf(p: Bits, at: Node?<T>) returns (r: Node<T>)
      requires Shape() && Refines() && !HasNode(p)
      requires at == null ==> top == null
      requires at != null ==> at in nodes && at.p < p && at.Link(p[|at.p|]) == null
      requires forall n {:trigger Held(n)} :: n in nodes ==>
        Held(n) || (n == at && n.info == None && n.Link(!p[|n.p|]) != null)
      modifies this, nodes`left, nodes`right
      ensures Valid() && entries == old(entries)
      ensures fresh(r) && r.p == p && r.lock == 1 && r.info == None && nodes == old(nodes) + {r}
    {
      r := new Node(p);
      Attach(at, r);
      r.lock := r.lock + 1;
      forall n | n in nodes ensures Held(n) {
        assert n in old(nodes) && n != at ==> old(Held(n));
      }
    }

    /** A new node for the part p shares with `node`, put above `node`; its other link is still free. */
    method InsertGlue(p: Bits, at: Node?<T>, node: Node<T>) returns (glue: Node<T>)
      requires Valid() && node in nodes && node.parent == at && !(node.p <= p)
      requires at == null ==> node == top
      requires at != null ==> at in nodes && at.p < p && at.Link(p[|at.p|]) == node
      modifies this, nodes`parent, nodes`left, nodes`right
      ensures Shape() && Refines() && entries == old(entries)
      ensures fresh(glue) && glue.p == Common(node.p, p) && glue.info == None && glue.lock == 0
      ensures |glue.p| < |node.p| && glue.Link(node.p[|glue.p|]) == node && glue.Link(!node.p[|glue.p|]) == null
      ensures nodes == old(nodes) + {glue} && forall n {:trigger Held(n)} :: n in old(nodes) ==> Held(n)
    {
      glue := new Node(Common(node.p, p));
      NothingBetween(at, node, glue.p, p);
      Interpose(at, glue, node);
      forall n | n in old(nodes) ensures Held(n) {
        assert old(Held(n));
      }
    }

    /** Finds or makes the node for p and takes one hold on it; every other node keeps its locks and payload. */
    method NodeGet(p: Bits) returns (r: Node<T>)
      requires Valid()
      modifies this, nodes`parent, nodes`left, nodes`right, nodes`lock
      ensures Valid() && entries == old(entries)
      ensures r in nodes && r.p == p
      ensures old(nodes) <= nodes && fresh(nodes - old(nodes)) && |nodes| <= |old(nodes)| + 2
      ensures r in old(nodes) <==> old(HasNode(p))
      ensures forall n <- old(nodes) :: n.lock == old(n.lock) + if n == r then 1 else 0
      ensures forall n <- nodes - old(nodes) :: n.lock == (if n == r then 1 else 0) && n.info == None
    {
      var at, node := FindSpot(p);
      if node != null && |node.p| == |p| && node.p <= p {
        Lock(node);
        return node;
      }
      if node == null {
        r := InsertLeaf(p, at);
      } else {
        r := InsertGlue(p, at, node);
        if |r.p| != |p| {
          assert HasNode(p) ==> old(HasNode(p));
          r := InsertLeaf(p, r);
        } else {
          r.lock := r.lock + 1;
        }
      }
    }

    // ---------- traversal ----------

    /** next comes right after start among the nodes, in preorder; null when start is last. */
    static ghost predicate Succeeds(among: set<Node<T>>, start: Bits, next: Node?<T>)
    {
      && (next != null ==> Before(start, next.p))
      && forall m <- among :: AtOrBefore(m.p, start) || (next != null && AtOrBefore(next.p, m.p))
    }

    lemma LeftIsNext(node: Node<T>)
      requires Shape() && node in nodes && node.left != null
      ensures Succeeds(nodes, node.p, node.left)
    {
      assert Linked(node);
      BeforeExtension(node.p, node.left.p);
      forall m | m in nodes ensures AtOrBefore(m.p, node.p) || AtOrBefore(node.left.p, m.p) {
        if node.p <= m.p {
          Descend(node, m);
          if m != node && m.p[|node.p|] {
            BeforeBranch(node.p, node.left.p, m.p);
          } else if m != node && node.left.p < m.p {
            BeforeExtension(node.left.p, m.p);
          }
        } else {
          OutsideSubtree(node.p, m.p, node.p, node.left.p);
        }
      }
    }

    lemma OnlyRightIsNext(node: Node<T>)
      requires Shape() && node in nodes && node.left == null && node.right != null
      ensures Succeeds(nodes, node.p, node.right)
    {
      assert Linked(node);
      BeforeExtension(node.p, node.right.p);
      forall m | m in nodes ensures AtOrBefore(m.p, node.p) || AtOrBefore(node.right.p, m.p) {
        if node.p <= m.p {
          Descend(node, m);
          if m != node && node.right.p < m.p {
            BeforeExtension(node.right.p, m.p);
          }
        } else {
          OutsideSubtree(node.p, m.p, node.p, node.right.p);
        }
      }
    }

    /** Everything under cur is at or before start. */
    ghost predicate Done(cur: Node<T>, start: Bits)
      reads this
    {
      cur.p <= start && forall m <- nodes :: cur.p <= m.p ==> AtOrBefore(m.p, start)
    }

    lemma UncleIsNext(cur: Node<T>, start: Bits)
      requires Shape() && cur in nodes && Done(cur, start)
      requires cur.parent != null && cur.parent.left == cur && cur.parent.right != null
      ensures Succeeds(nodes, start, cur.parent.right)
    {
      var q := cur.parent;
      assert Linked(cur) && Linked(q);
      BeforeBranch(q.p, start, q.right.p);
      forall m | m in nodes ensures AtOrBefore(m.p, start) || AtOrBefore(q.right.p, m.p) {
        if q.p <= m.p {
          Descend(q, m);
          if m == q {
            BeforeExtension(q.p, start);
          } else if m.p[|q.p|] && q.right.p < m.p {
            BeforeExtension(q.right.p, m.p);
          }
        } else {
          OutsideSubtree(q.p, m.p, start, q.right.p);
        }
      }
    }

    lemma ParentDone(cur: Node<T>, start: Bits)
      requires Shape() && cur in nodes && Done(cur, start)
      requires cur.parent != null && !(cur.parent.left == cur && cur.parent.right != null)
      ensures cur.parent in nodes && |cur.parent.p| < |cur.p| && Done(cur.parent, start)
    {
      var q := cur.parent;
      assert Linked(cur) && Linked(q);
      forall m | m in nodes && q.p <= m.p ensures AtOrBefore(m.p, start) {
        Descend(q, m);
        if m == q {
          BeforeExtension(q.p, start);
        } else if !(cur.p <= m.p) {
          BeforeBranch(q.p, m.p, start);
        }
      }
    }

    /** The climb of bgp_route_next: the node that follows in preorder. */
    method FindNext(node: Node<T>) returns (next: Node?<T>)
      requires Shape() && node in nodes
      ensures Succeeds(nodes, node.p, next) && (next != null ==> next in nodes)
    {
      assert Linked(node);
      if node.left != null {
        LeftIsNext(node);
        return node.left;
      }
      if node.right != null {
        OnlyRightIsNext(node);
        return node.right;
      }
      var cur := node;
      forall m | m in nodes && node.p <= m.p ensures AtOrBefore(m.p, node.p) { Descend(node, m); }
      while cur.parent != null
        invariant cur in nodes && Done(cur, node.p)
        decreases |cur.p|
      {
        if cur.parent.left == cur && cur.parent.right != null {
          UncleIsNext(cur, node.p);
          assert Linked(cur) && Linked(cur.parent);
          return cur.parent.right;
        }
        ParentDone(cur, node.p);
        cur := cur.parent;
      }
      assert Linked(cur);
      forall m | m in nodes ensures AtOrBefore(m.p, node.p) { TopBelow(m); }
      next := null;
    }

    method Top() returns (r: Node?<T>)
      requires Valid()
      modifies nodes`lock
      ensures Valid() && r == top && (r == null <==> nodes == {})
      ensures r != null ==> r in nodes && forall m <- nodes :: AtOrBefore(r.p, m.p)
      ensures forall n <- nodes :: n.lock == old(n.lock) + if n == r then 1 else 0
    {
      if top == null {
        EmptyTop();
        return null;
      }
      forall m | m in nodes ensures AtOrBefore(top.p, m.p) {
        TopBelow(m);
        if top.p < m.p { BeforeExtension(top.p, m.p); }
      }
      Lock(top);
      return top;
    }

    /** Moves the traversal hold from node to the node after it in preorder, freeing node if nobody else holds it. */
    method RouteNext(node: Node<T>) returns (next: Node?<T>)
      requires Valid() && node in nodes && node.lock > 0
      requires node.lock == 1 ==> node.info == None
      modifies this, nodes`parent, nodes`left, nodes`right, nodes`lock
      ensures Valid() && entries == old(entries) && nodes <= old(nodes)
      ensures Succeeds(old(nodes), node.p, next) && (next != null ==> next in nodes)
      ensures forall n <- old(nodes) ::
        n.lock == old(n.lock) + (if n == next then 1 else 0) - if n == node then 1 else 0
      ensures forall n <- old(nodes) :: n.lock > 0 ==> n in nodes
      ensures node.lock > 0 || old(node.Full()) ==> SameShape()
    {
      next := FindNext(node);
      if next != null {
        BeforeAsymmetric(node.p, next.p);
        Lock(next);
      }
      Unlock(node);
    }

    /** A traversal now at rn has met, in preorder, exactly the wanted nodes that come before rn. */
    static ghost predicate Progress(wanted: set<Node<T>>, met: seq<Node<T>>, rn: Node?<T>) {
      && (forall n <- wanted :: n in met || (rn != null && AtOrBefore(rn.p, n.p)))
      && (forall n <- met :: n in wanted && (rn != null ==> Before(n.p, rn.p)))
      && (forall i, j :: 0 <= i < j < |met| ==> Before(met[i].p, met[j].p))
    }

    static lemma ProgressStep(wanted: set<Node<T>>, met: seq<Node<T>>, rn: Node<T>, next: Node?<T>, among: set<Node<T>>)
      requires Progress(wanted, met, rn) && Succeeds(among, rn.p, next)
      requires forall n <- wanted :: n in met || n in among
      requires forall n <- wanted :: n.p == rn.p ==> n == rn
      ensures Progress(wanted, if rn in wanted then met + [rn] else met, next)
    {
      var met' := if rn in wanted then met + [rn] else met;
      forall n | n in met && next != null ensures Before(n.p, next.p) {
        BeforeTransitive(n.p, rn.p, next.p);
      }
      forall n | n in wanted && n !in met' ensures next != null && AtOrBefore(next.p, n.p) {
        if AtOrBefore(n.p, rn.p) { BeforeAsymmetric(rn.p, n.p); }
      }
    }

    /** Stepping from rn to next leaves rn behind for good, so a traversal terminates. */
    static lemma StillAhead(ahead: set<Node<T>>, rn: Node<T>, next: Node?<T>, among: set<Node<T>>)
      requires next != null ==> Before(rn.p, next.p)
      requires forall n <- among :: AtOrBefore(rn.p, n.p) ==> n in ahead
      ensures next != null ==> forall n <- among :: AtOrBefore(next.p, n.p) ==> n in ahead - {rn}
    {
      forall n | n in among && next != null && AtOrBefore(next.p, n.p) ensures n in ahead && n != rn {
        BeforeThenAtOrBefore(rn.p, next.p, n.p);
        assert AtOrBefore(rn.p, n.p);
      }
    }

    /** The traversal idiom top / next: every node once, in preorder, with shape and locks as before. */
    method Walk() returns (visited: seq<Node<T>>)
      requires Valid()
      modifies this, nodes`parent, nodes`left, nodes`right, nodes`lock
      ensures Valid() && entries == old(entries) && SameShape()
      ensures forall n <- nodes :: n.lock == old(n.lock)
      ensures forall i, j :: 0 <= i < j < |visited| ==> Before(visited[i].p, visited[j].p)
      ensures forall n :: n in nodes <==> n in visited
    {
      visited := [];
      DistinctPrefixes();
      ghost var wanted, ahead := nodes, nodes;
      var rn := Top();
      while rn != null
        invariant Valid() && entries == old(entries) && SameShape()
        invariant rn != null ==> rn in nodes && forall n <- nodes :: AtOrBefore(rn.p, n.p) ==> n in ahead
        invariant forall n <- nodes :: n.lock == old(n.lock) + if n == rn then 1 else 0
        invariant Progress(wanted, visited, rn)
        decreases ahead
      {
        var was := rn;
        assert old(Held(rn));
        rn := RouteNext(rn);
        ProgressStep(wanted, visited, was, rn, wanted);
        visited := visited + [was];
        StillAhead(ahead, was, rn, nodes);
        ahead := ahead - {was};
      }
    }

    // ---------- bulk deletion ----------

    /** Frees a leaf below the top, clearing its parent's link to it. */
    method FreeLeaf(leaf: Node<T>)
      requires Shape() && leaf in nodes && leaf.left == null && leaf.right == null && leaf.parent != null
      modifies this`count, this`nodes, nodes`left, nodes`right, leaf`lock
      ensures Shape() && nodes == old(nodes) - {leaf} && leaf.lock == 0 && leaf.parent in nodes
    {
      assert Linked(leaf) && Linked(leaf.parent);
      var parent := leaf.parent;
      count := count - 1;
      leaf.lock := 0;
      if parent.left == leaf {
        parent.left := null;
      } else {
        parent.right := null;
      }
      nodes := nodes - {leaf};
      forall n | n in nodes ensures old(n.left) == leaf || old(n.right) == leaf ==> n == parent {
        assert old(Linked(n));
      }
      SpliceShape(leaf);
    }

    static ghost function Depth(ns: set<Node<T>>): (d: nat)
      ensures forall n <- ns :: |n.p| <= d
    {
      if ns == {} then 0 else
      var n :| n in ns;
      var d := Depth(ns - {n});
      assert forall m <- ns :: m == n || m in ns - {n};
      if |n.p| <= d then d else |n.p|
    }

    /** Frees every node, held or not, leaf by leaf; the count the source asserts on comes out as zero. */
    method Free()
      requires Shape()
      modifies this`count, this`nodes, nodes`left, nodes`right, nodes`lock
      ensures count == 0 && nodes == {} && forall n <- old(nodes) :: n.lock == 0
    {
      var node := top;
      ghost var depth := Depth(nodes);
      if node == null {
        EmptyTop();
      }
      while node != null
        invariant Shape() && nodes <= old(nodes)
        invariant forall n <- nodes :: |n.p| <= depth
        invariant forall n <- old(nodes) - nodes :: n.lock == 0
        invariant if node == null then nodes == {} else node in nodes
        decreases |nodes|, if node == null then 0 else depth - |node.p|
      {
        assert Linked(node);
        if node.left != null {
          node := node.left;
          continue;
        }
        if node.right != null {
          node := node.right;
          continue;
        }
        var leaf := node;
        node := node.parent;
        if node != null {
          FreeLeaf(leaf);
        } else {
          forall m | m in nodes ensures m == leaf {
            TopBelow(m);
            Descend(leaf, m);
          }
          count := count - 1;
          leaf.lock := 0;
          nodes := nodes - {leaf};
          break;
        }
      }
    }

    // ---------- payloads ----------

    method SetInfo(node: Node<T>, info: T)
      requires Valid() && node in nodes && node.lock > 0
      modifies this`entries, node`info
      ensures Valid() && entries == old(entries)[node.p := info] && node.info == Some(info)
    {
      DistinctPrefixes();
      node.info := Some(info);
      entries := entries[node.p := info];
      forall n | n in nodes ensures Held(n) {
        assert old(Held(n));
      }
      assert Refines() by {
        forall n | n in nodes ensures n.info == Get(entries, n.p) {
          assert old(n.info) == Get(old(entries), n.p);
        }
        forall q | q in entries ensures HasNode(q) {
          assert q in old(entries) ==> old(HasNode(q));
        }
      }
    }

    method ClearInfo(node: Node<T>)
      requires Valid() && node in nodes
      modifies this`entries, node`info
      ensures Valid() && entries == old(entries) - {node.p} && node.info == None
    {
      DistinctPrefixes();
      node.info := None;
      entries := entries - {node.p};
      forall n | n in nodes ensures Held(n) {
        assert old(Held(n));
      }
      assert Refines() by {
        forall n | n in nodes ensures n.info == Get(entries, n.p) {
          assert old(n.info) == Get(old(entries), n.p);
        }
        forall q | q in entries ensures HasNode(q) {
          assert q in old(entries) ==> old(HasNode(q));
        }
      }
    }

    // ---------- the shape is a function of the held prefixes ----------

    ghost predicate HeldPrefix(q: Bits)
      reads this, nodes`lock
    {
      exists n <- nodes :: n.p == q && n.lock > 0
    }

    /** Below every node there is a held one. */
    lemma HeldBelow(n: Node<T>) returns (m: Node<T>)
      requires Valid() && n in nodes
      ensures m in nodes && m.lock > 0 && n.p <= m.p
    {
      var best := n;
      var below := set x | x in nodes && n.p < x.p;
      while best.lock == 0
        invariant best in nodes && n.p <= best.p
        invariant forall x <- nodes :: best.p < x.p ==> x in below
        decreases below
      {
        assert Held(best) && Linked(best);
        below := below - {best.left};
        best := best.left;
      }
      m := best;
    }

    /** Two held prefixes that part somewhere have a node where they part. */
    lemma MeetingNode(m1: Node<T>, m2: Node<T>) returns (n: Node<T>)
      requires Shape() && m1 in nodes && m2 in nodes
      ensures n in nodes && n.p == Common(m1.p, m2.p)
    {
      TopBelow(m1);
      TopBelow(m2);
      n := top;
      var c := Common(m1.p, m2.p);
      CommonIsLongest(m1.p, m2.p, n.p);
      while n.p != c
        invariant n in nodes && n.p <= c
        decreases |c| - |n.p|
      {
        Descend(n, m1);
        Descend(n, m2);
        assert Linked(n);
        n := n.Link(c[|n.p|]);
        CommonIsLongest(m1.p, m2.p, n.p);
      }
    }

    /** Path compression: a prefix has a node exactly when it is held or two held prefixes part there. */
    lemma CompressedShape(q: Bits)
      requires Valid()
      ensures HasNode(q) <==> HeldPrefix(q) || exists a, b :: HeldPrefix(a) && HeldPrefix(b) && q == Common(a, b)
    {
      if HasNode(q) {
        var n :| n in nodes && n.p == q;
        if n.lock == 0 {
          assert Held(n) && Linked(n);
          var l := HeldBelow(n.left);
          var r := HeldBelow(n.right);
          CommonIsLongest(l.p, r.p, q);
          assert HeldPrefix(l.p) && HeldPrefix(r.p);
          assert Common(l.p, r.p) == q;
        }
      }
      forall a, b | HeldPrefix(a) && HeldPrefix(b) && q == Common(a, b) ensures HasNode(q) {
        var m1 :| m1 in nodes && m1.p == a && m1.lock > 0;
        var m2 :| m2 in nodes && m2.p == b && m2.lock > 0;
        var n := MeetingNode(m1, m2);
      }
    }
  }
}
