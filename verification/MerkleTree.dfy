// The flat array of a Merkle tree and its operations. `nodes` is the abstract
// value: the map of the nodes that are known.
module MerkleTree {
  import opened MerkleShape
  import opened MerkleSpec
  import opened MerkleProofs
  import Arithmetic
  import MerkleFill

  datatype Cell<T> = Cell(known: bool, hash: T)

  class MerkleTree<T(==)> {
    const h: Hash2<T>
    const blank: T
    var size: nat
    var cells: array<Cell<T>>
    ghost var nodes: Nodes<T>

    ghost predicate Valid()
      reads this, cells
    {
      && cells.Length == CellCount(size)
      && (forall q: Node :: KeyOk(q))
      && (forall k: nat, i: nat :: CellOk(k, i))
    }

    ghost predicate KeyOk(q: Node)
      reads this
    {
      q in nodes ==> IsNode(size, q.0, q.1)
    }

    ghost predicate CellOk(k: nat, i: nat)
      reads this, cells
    {
      var p := Offset(size, k) + i;
      IsNode(size, k, i) ==>
        && p < cells.Length
        && cells[p] == if (k, i) in nodes then Cell(true, nodes[(k, i)]) else Cell(false, blank)
    }

    constructor (h: Hash2<T>, blank: T)
      ensures Valid() && size == 0 && nodes == map[] && this.h == h && this.blank == blank
      ensures fresh(cells)
    {
      this.h, this.blank, size, nodes := h, blank, 0, map[];
      cells := new Cell<T>[0];
    }

    method Resize(v: nat)
      modifies this
      ensures Valid() && size == v && nodes == map[] && fresh(cells)
    {
      size, nodes := v, map[];
      var c := MerkleTreeSize(v);
      cells := new Cell<T>[c](_ => Cell(false, blank));
      CellsInside();
    }

    lemma CellsInside()
      requires cells.Length == CellCount(size)
      ensures forall k: nat, i: nat | IsNode(size, k, i) :: Offset(size, k) + i < cells.Length
    {
      forall k: nat, i: nat | IsNode(size, k, i)
        ensures Offset(size, k) + i < cells.Length
      {
        NodeFits(size, k, i);
      }
    }

    method Invalidate()
      requires Valid()
      modifies this, cells
      ensures Valid() && size == old(size) && nodes == map[] && cells == old(cells)
    {
      forall p | 0 <= p < cells.Length {
        cells[p] := Cell(false, blank);
      }
      nodes := map[];
      CellsInside();
    }

    // Overwrites the cell of one node.
    method Set0(p: nat, v: T, ghost k: nat, ghost i: nat)
      requires Valid() && IsNode(size, k, i) && p == Offset(size, k) + i
      modifies this`nodes, cells
      ensures Valid() && nodes == old(nodes)[(k, i) := v]
    {
      NodeFits(size, k, i);
      cells[p] := Cell(true, v);
      nodes := nodes[(k, i) := v];
      forall q: Node
        ensures KeyOk(q)
      {
        if q != (k, i) && q in nodes {
          assert old(KeyOk(q));
        }
      }
      forall k': nat, i': nat | IsNode(size, k', i')
        ensures CellOk(k', i')
      {
        NodeFits(size, k', i');
        assert old(CellOk(k', i'));
        if Offset(size, k') + i' == p {
          CellsAreDistinct(size, k, i, k', i');
        }
      }
    }

    ghost function At(k: nat, i: nat): T
      reads this
    {
      if (k, i) in nodes then nodes[(k, i)] else blank
    }

    method Known0(p: nat, ghost k: nat, ghost i: nat) returns (r: bool)
      requires Valid() && IsNode(size, k, i) && p == Offset(size, k) + i
      ensures r <==> (k, i) in nodes
    {
      assert CellOk(k, i);
      r := cells[p].known;
    }

    method Get0(p: nat, ghost k: nat, ghost i: nat) returns (r: T)
      requires Valid() && IsNode(size, k, i) && p == Offset(size, k) + i
      ensures r == At(k, i)
    {
      assert CellOk(k, i);
      r := cells[p].hash;
    }

    method Has(i: nat) returns (r: bool)
      requires Valid() && i < size
      ensures r <==> (0, i) in nodes
    {
      r := Known0(i, 0, i);
    }

    method Get(i: nat) returns (r: T)
      requires Valid() && i < size
      ensures r == At(0, i)
    {
      r := Get0(i, 0, i);
    }

    method Root() returns (r: T)
      requires Valid() && size > 0
      ensures r == At(Height(size), 0)
    {
      HeightExact(size, Height(size));
      r := Get0(cells.Length - 1, Height(size), 0);
    }

    method SetRoot(v: T)
      requires Valid() && size > 0
      modifies this`nodes, cells
      ensures Valid() && nodes == old(nodes)[(Height(size), 0) := v]
    {
      HeightExact(size, Height(size));
      Set0(cells.Length - 1, v, Height(size), 0);
    }

    // The hash chain of a leaf, `c` levels of it; a negative `c` never runs out.
    method Proof(leaf: nat, c0: int) returns (v: seq<T>)
      requires Valid() && leaf < size
      ensures v == Extract(size, nodes, blank, 0, leaf, c0)
    {
      v := [];
      var a, b, i, c := 0, size, leaf, c0;
      ghost var k := 0;
      while b - a >= 2 && c != 0
        invariant OnLevel(size, k, i, a, b)
        invariant Extract(size, nodes, blank, 0, leaf, c0) == v + Extract(size, nodes, blank, k, i, c)
        decreases Height(size) - k
      {
        NextLevel(size, k, i, a, b);
        var e := ProofLevel(a, b, i, k, c);
        c := c - 1;
        Arithmetic.ConcatIsAssociative(v, e, Extract(size, nodes, blank, k + 1, i / 2, c));
        v := v + e;
        a, b := b, b + (b - a + 1) / 2;
        i := i / 2;
        k := k + 1;
      }
    }

    // The sibling of node `i` of the level [a, b), if there is one.
    method ProofLevel(a: nat, b: nat, i: nat, ghost k: nat, ghost c: int) returns (e: seq<T>)
      requires Valid() && OnLevel(size, k, i, a, b) && k < Height(size) && c != 0 && IsNode(size, k + 1, i / 2)
      ensures Extract(size, nodes, blank, k, i, c) == e + Extract(size, nodes, blank, k + 1, i / 2, c - 1)
    {
      HeightExact(size, k);
      e := [];
      var j := if i % 2 == 0 then i + 1 else i - 1;
      if a + j < b {
        var x := Get0(a + j, k, j);
        e := [x];
      } else {
        ghost var rest := Extract(size, nodes, blank, k + 1, i / 2, c - 1);
        assert [] + rest == rest;
      }
    }

    method Test(leaf: nat, v: T, w: seq<T>) returns (r: bool)
      requires Valid() && leaf < size
      ensures r == TestFrom(h, size, nodes, 0, leaf, v, w)
    {
      var a, b, i, z, x := 0, size, leaf, 0, v;
      ghost var k := 0;
      while true
        invariant OnLevel(size, k, i, a, b) && z <= |w|
        invariant TestFrom(h, size, nodes, 0, leaf, v, w) == TestFrom(h, size, nodes, k, i, x, w[z..])
        decreases Height(size) - k
      {
        var known := Known0(a + i, k, i);
        if known {
          var y := Get0(a + i, k, i);
          return x == y;
        }
        if b - a < 2 || z + 1 > |w| {
          return false;
        }
        NextLevel(size, k, i, a, b);
        var j := if i % 2 == 0 then i + 1 else i - 1;
        ghost var rest := w[z..];
        if a + j < b {
          x := if i < j then h(x, w[z]) else h(w[z], x);
          z := z + 1;
          assert w[z..] == rest[1..];
        }
        assert w[z..] == NextChain(size, k, i, rest);
        a, b := b, b + (b - a + 1) / 2;
        i := i / 2;
        k := k + 1;
      }
    }

    // The hash of the parent of node `i` of the level [a, b), unless a sibling is
    // missing or the parent is known.
    method ParentHash(a: nat, b: nat, i0: nat, ghost k: nat) returns (ready: bool, x: T)
      requires Valid() && OnLevel(size, k, i0, a, b) && k < Height(size)
      requires (k, i0) in nodes && IsNode(size, k + 1, i0 / 2)
      ensures ready <==> (k + 1, i0 / 2) !in nodes && (Sibling(i0) < Width(size, k) ==> (k, Sibling(i0)) in nodes)
      ensures ready ==>
        MerkleFill.ChildrenKnown(size, nodes, k, i0 / 2) && x == MerkleFill.Joined(h, size, nodes, k, i0 / 2)
    {
      hide Valid, Height;
      ready, x := false, blank;
      var i := i0;
      var j: nat := if i % 2 == 0 then i + 1 else i - 1;
      if a + j < b {
        var known := Known0(a + j, k, j);
        if !known {
          return;
        }
      }
      if i > j {
        i, j := j, i;
      }
      ghost var p := i0 / 2;
      assert i == 2 * p && j == 2 * p + 1;
      i := i / 2;
      var known := Known0(b + i, k + 1, p);
      if known {
        return;
      }
      x := Get0(a + j - 1, k, 2 * p);
      ready := true;
      if a + j < b {
        var r := Get0(a + j, k, 2 * p + 1);
        x := h(x, r);
      }
    }

    // One turn of the loop of SetLeaf: completes the parent, if it can be.
    method SetParent(a: nat, b: nat, i: nat, ghost k: nat) returns (more: bool)
      requires Valid() && OnLevel(size, k, i, a, b) && (k, i) in nodes && k < Height(size)
      modifies this`nodes, cells
      ensures Valid() && IsNode(size, k + 1, i / 2)
      ensures !more ==> nodes == old(nodes) == MerkleFill.Climb(h, size, old(nodes), k, i)
      ensures more ==>
        && (k + 1, i / 2) in nodes
        && MerkleFill.Climb(h, size, old(nodes), k, i) == MerkleFill.Climb(h, size, nodes, k + 1, i / 2)
    {
      hide Valid;
      HeightExact(size, k);
      ParentIsNode(size, k, i);
      var x;
      more, x := ParentHash(a, b, i, k);
      if more {
        MerkleFill.ClimbStep(h, size, nodes, k, i);
        Set0(b + i / 2, x, k + 1, i / 2);
      }
    }

    method SetLeaf(leaf: nat, v: T)
      requires Valid() && leaf < size
      modifies this`nodes, cells
      ensures Valid() && nodes == MerkleFill.SetLeaf(h, size, old(nodes), leaf, v)
    {
      hide Valid, Height;
      Set0(leaf, v, 0, leaf);
      var a, b, i := 0, size, leaf;
      ghost var k := 0;
      while b - a >= 2
        invariant Valid() && OnLevel(size, k, i, a, b)
        invariant (k, i) in nodes
        invariant MerkleFill.SetLeaf(h, size, old(nodes), leaf, v) == MerkleFill.Climb(h, size, nodes, k, i)
        decreases Height(size) - k
      {
        NextLevel(size, k, i, a, b);
        var more := SetParent(a, b, i, k);
        if !more {
          break;
        }
        a, b := b, b + (b - a + 1) / 2;
        i := i / 2;
        k := k + 1;
      }
    }

    // The same nodes are known from level `k` up, but for a leaf.
    ghost predicate SameFrom(m: Nodes<T>, m': Nodes<T>, k: nat, leaf: nat) {
      forall q: Node :: q.0 >= k && q != (0, leaf) ==> (q in m <==> q in m')
    }

    // The tree with what is still to be cached.
    ghost function AllCached(m: Nodes<T>, k: nat, i: nat, w: seq<T>): Nodes<T>
      requires IsNode(size, k, i)
      reads this
    {
      nodes + Cached(size, m, k, i, w)
    }

    lemma CachedUp(m: Nodes<T>, k: nat, i: nat, w: seq<T>)
      requires IsNode(size, k, i) && (Width(size, k) < 2 || w == [])
      ensures AllCached(m, k, i, w) == nodes
    {
    }

    // One turn of the loop of SetProof: stores the sibling of node `i` of the
    // level [a, b), if there is one; a known sibling ends the walk.
    method SetSibling(a: nat, b: nat, i: nat, w: seq<T>, z0: nat, ghost k: nat, ghost m0: Nodes<T>, ghost leaf: nat)
      returns (more: bool, z: nat)
      requires Valid() && OnLevel(size, k, i, a, b) && k < Height(size) && z0 < |w|
      requires SameFrom(m0, nodes, k, leaf) && (k == 0 ==> i == leaf)
      modifies this`nodes, cells
      ensures Valid() && z <= |w| && IsNode(size, k + 1, i / 2)
      ensures SameFrom(m0, nodes, k + 1, leaf)
      ensures !more ==> nodes == old(nodes) == old(AllCached(m0, k, i, w[z0..]))
      ensures more ==> AllCached(m0, k + 1, i / 2, w[z..]) == old(AllCached(m0, k, i, w[z0..]))
    {
      hide Valid;
      HeightExact(size, k);
      ParentIsNode(size, k, i);
      var j := if i % 2 == 0 then i + 1 else i - 1;
      more, z := true, z0;
      if a + j < b {
        var known := Known0(a + j, k, j);
        if known {
          more := false;
        } else {
          CachedStep(size, m0, nodes, k, i, w[z..]);
          assert w[z..][1..] == w[z + 1..];
          Set0(a + j, w[z], k, j);
          z := z + 1;
        }
      }
    }

    method SetProof(leaf: nat, v: T, w: seq<T>)
      requires Valid() && leaf < size
      modifies this`nodes, cells
      ensures Valid() && nodes == MerkleProofs.SetProof(size, old(nodes), leaf, v, w)
    {
      hide Valid, Height;
      ghost var m0, k := nodes, 0;
      Set0(leaf, v, 0, leaf);
      var a: nat, b: nat, i: nat, z: nat := 0, size, leaf, 0;
      assert w[z..] == w && SameFrom(m0, nodes, k, leaf);
      assert MerkleProofs.SetProof(size, m0, leaf, v, w) == AllCached(m0, k, i, w[z..]);
      hide *;
      while b - a >= 2 && z + 1 <= |w|
        invariant Valid() && OnLevel(size, k, i, a, b) && z <= |w|
        invariant k == 0 ==> i == leaf
        invariant SameFrom(m0, nodes, k, leaf)
        invariant MerkleProofs.SetProof(size, m0, leaf, v, w) == AllCached(m0, k, i, w[z..])
        decreases Height(size) - k
      {
        NextLevel(size, k, i, a, b);
        var more;
        more, z := SetSibling(a, b, i, w, z, k, m0, leaf);
        if !more {
          return;
        }
        a, b := b, b + (b - a + 1) / 2;
        i := i / 2;
        k := k + 1;
      }
      CachedUp(m0, k, i, w[z..]);
    }

    method TestAndSet(leaf: nat, v: T, w: seq<T>) returns (r: bool)
      requires Valid() && leaf < size
      modifies this`nodes, cells
      ensures Valid() && r == TestFrom(h, size, old(nodes), 0, leaf, v, w)
      ensures nodes == MerkleProofs.TestAndSet(h, size, old(nodes), leaf, v, w)
    {
      r := Test(leaf, v, w);
      if r {
        SetProof(leaf, v, w);
      }
    }
  }
}
