// Filling a fresh tree leaf by leaf, in any order.
module MerkleFill {
  import opened MerkleShape
  import opened MerkleSpec

  // The children of (k + 1, p) that exist are known.
  predicate ChildrenKnown<T>(n: nat, m: Nodes<T>, k: nat, p: nat) {
    (k, 2 * p) in m && (2 * p + 1 < Width(n, k) ==> (k, 2 * p + 1) in m)
  }

  // The hash of (k + 1, p).
  function Joined<T>(h: Hash2<T>, n: nat, m: Nodes<T>, k: nat, p: nat): T
    requires ChildrenKnown(n, m, k, p)
  {
    if 2 * p + 1 < Width(n, k) then h(m[(k, 2 * p)], m[(k, 2 * p + 1)]) else m[(k, 2 * p)]
  }

  // After node (k, i) became known: complete the ancestors whose children are
  // all known.
  function Climb<T>(h: Hash2<T>, n: nat, m: Nodes<T>, k: nat, i: nat): Nodes<T>
    requires IsNode(n, k, i) && (k, i) in m
    decreases Height(n) - k
  {
    if Width(n, k) < 2 then m
    else
      HeightExact(n, k);
      ParentIsNode(n, k, i);
      var p := i / 2;
      if Sibling(i) < Width(n, k) && (k, Sibling(i)) !in m then m
      else if (k + 1, p) in m then m
      else
        Climb(h, n, m[(k + 1, p) := Joined(h, n, m, k, p)], k + 1, p)
  }

  lemma {:induction false} ClimbStep<T>(h: Hash2<T>, n: nat, m: Nodes<T>, k: nat, i: nat)
    requires n >= 1 && IsNode(n, k, i) && (k, i) in m && k < Height(n)
    requires (Sibling(i) < Width(n, k) ==> (k, Sibling(i)) in m) && (k + 1, i / 2) !in m
    ensures IsNode(n, k + 1, i / 2) && ChildrenKnown(n, m, k, i / 2)
    ensures Climb(h, n, m, k, i) == Climb(h, n, m[(k + 1, i / 2) := Joined(h, n, m, k, i / 2)], k + 1, i / 2)
  {
    HeightExact(n, k);
    ParentIsNode(n, k, i);
  }

  function SetLeaf<T>(h: Hash2<T>, n: nat, m: Nodes<T>, i: nat, v: T): Nodes<T>
    requires i < n
  {
    Climb(h, n, m[(0, i) := v], 0, i)
  }

  // Known nodes are true ones, and a parent is known iff its children are;
  // (k0, p0) may be the parent that is still to be looked at.
  ghost predicate Filled<T>(n: nat, g: Nodes<T>, m: Nodes<T>, k0: nat, p0: nat) {
    && (forall q :: q in m ==> q in g && m[q] == g[q])
    && (forall k: nat, p: nat :: ParentDone(n, m, k, p) || (k == k0 && p == p0 && (k + 1, p) !in m))
  }

  predicate ParentDone<T>(n: nat, m: Nodes<T>, k: nat, p: nat) {
    IsNode(n, k + 1, p) ==> ((k + 1, p) in m <==> ChildrenKnown(n, m, k, p))
  }

  ghost predicate FillInv<T>(n: nat, g: Nodes<T>, m: Nodes<T>) {
    && (forall q :: q in m ==> q in g && m[q] == g[q])
    && (forall k: nat, p: nat :: ParentDone(n, m, k, p))
  }

  lemma {:induction false} ClimbFills<T>(h: Hash2<T>, n: nat, g: Nodes<T>, m: Nodes<T>, k: nat, i: nat)
    requires n >= 1 && IsTree(h, n, g)
    requires IsNode(n, k, i) && (k, i) in m && Filled(n, g, m, k, i / 2)
    ensures FillInv(n, g, Climb(h, n, m, k, i))
    ensures forall j: nat {:trigger (0, j) in Climb(h, n, m, k, i)} :: (0, j) in Climb(h, n, m, k, i) <==> (0, j) in m
    decreases Height(n) - k
  {
    HeightExact(n, k);
    var p := i / 2;
    if k < Height(n) {
      ParentIsNode(n, k, i);
      assert ParentOk(h, n, g, k, p);
      if !(Sibling(i) < Width(n, k) && (k, Sibling(i)) !in m) && (k + 1, p) !in m {
        var m' := m[(k + 1, p) := Joined(h, n, m, k, p)];
        assert Joined(h, n, m, k, p) == g[(k + 1, p)];
        assert Filled(n, g, m', k + 1, p / 2) by {
          AncestorNext(n, g, m, m', k, p);
        }
        ClimbFills(h, n, g, m', k + 1, p);
      } else {
        assert ParentDone(n, m, k, p);
      }
    } else {
      assert !IsNode(n, k + 1, p);
    }
  }

  lemma {:induction false} AncestorNext<T>(n: nat, g: Nodes<T>, m: Nodes<T>, m': Nodes<T>, k: nat, p: nat)
    requires Filled(n, g, m, k, p) && IsNode(n, k + 1, p) && (k + 1, p) !in m && ChildrenKnown(n, m, k, p)
    requires forall k: nat, i: nat :: (k, i) in g <==> IsNode(n, k, i)
    requires m' == m[(k + 1, p) := g[(k + 1, p)]]
    ensures Filled(n, g, m', k + 1, p / 2)
  {
    forall k1: nat, p1: nat
      ensures ParentDone(n, m', k1, p1) || (k1 == k + 1 && p1 == p / 2 && (k1 + 1, p1) !in m')
    {
      assert ParentDone(n, m, k1, p1) || (k1 == k && p1 == p);
      if k1 == k + 1 && p1 == p / 2 && (k1 + 1, p1) in m {
        assert ChildrenKnown(n, m, k1, p1);
      }
    }
  }

  // All leaves below (k, i) are known.
  ghost predicate LeavesKnown<T>(n: nat, m: Nodes<T>, k: nat, i: nat) {
    forall j: nat | j < n && Up(j, k) == i :: (0, j) in m
  }

  lemma {:induction false} UpSplits(n: nat, k: nat, p: nat, j: nat)
    ensures Up(j, k + 1) == p <==> Up(j, k) == 2 * p || Up(j, k) == 2 * p + 1
    ensures k <= Height(n) && j < n ==> Up(j, k) < Width(n, k)
  {
    if k <= Height(n) && j < n {
      UpIsNode(n, j, k);
    }
  }

  // In a filled tree a node is known iff all leaves below it are, and then it
  // holds its specified hash.
  lemma {:induction false} KnownIffLeavesKnown<T>(n: nat, g: Nodes<T>, m: Nodes<T>, k: nat, i: nat)
    requires FillInv(n, g, m) && IsNode(n, k, i)
    ensures (k, i) in m <==> LeavesKnown(n, m, k, i)
    ensures (k, i) in m ==> (k, i) in g && m[(k, i)] == g[(k, i)]
  {
    if k == 0 {
      assert forall j: nat :: Up(j, 0) == j;
    } else {
      assert ParentDone(n, m, k - 1, i);
      KnownIffLeavesKnown(n, g, m, k - 1, 2 * i);
      if 2 * i + 1 < Width(n, k - 1) {
        KnownIffLeavesKnown(n, g, m, k - 1, 2 * i + 1);
      }
      forall j: nat | j < n
        ensures Up(j, k) == i <==> Up(j, k - 1) == 2 * i || Up(j, k - 1) == 2 * i + 1
        ensures Up(j, k - 1) < Width(n, k - 1)
      {
        UpSplits(n, k - 1, i, j);
      }
    }
  }

  lemma {:induction false} SetLeafKeepsInv<T>(h: Hash2<T>, n: nat, g: Nodes<T>, m: Nodes<T>, i: nat)
    requires IsTree(h, n, g) && i < n && FillInv(n, g, m) && (0, i) in g
    ensures FillInv(n, g, SetLeaf(h, n, m, i, g[(0, i)]))
    ensures forall j: nat :: (0, j) in SetLeaf(h, n, m, i, g[(0, i)]) <==> (0, j) in m || j == i
  {
    var m' := m[(0, i) := g[(0, i)]];
    forall k: nat, p: nat
      ensures ParentDone(n, m', k, p) || (k == 0 && p == i / 2 && (k + 1, p) !in m')
    {
      assert ParentDone(n, m, k, p);
    }
    assert Filled(n, g, m', 0, i / 2);
    ClimbFills(h, n, g, m', 0, i);
  }

  predicate Within(order: seq<nat>, n: nat) {
    forall j | 0 <= j < |order| :: order[j] < n
  }

  function FillAll<T>(h: Hash2<T>, leaves: seq<T>, m: Nodes<T>, order: seq<nat>): Nodes<T>
    requires Within(order, |leaves|)
    decreases |order|
  {
    if order == [] then m
    else FillAll(h, leaves, SetLeaf(h, |leaves|, m, order[0], leaves[order[0]]), order[1..])
  }

  lemma {:induction false} FillAllKeepsInv<T>(h: Hash2<T>, leaves: seq<T>, m: Nodes<T>, order: seq<nat>)
    requires Within(order, |leaves|)
    requires FillInv(|leaves|, TreeOf(h, leaves), m)
    ensures FillInv(|leaves|, TreeOf(h, leaves), FillAll(h, leaves, m, order))
    ensures forall j: nat :: (0, j) in FillAll(h, leaves, m, order) <==> (0, j) in m || j in order
    decreases |order|
  {
    if order != [] {
      var n, g, i := |leaves|, TreeOf(h, leaves), order[0];
      TreeOfIsTree(h, leaves);
      SetLeafKeepsInv(h, n, g, m, i);
      var m' := SetLeaf(h, n, m, i, leaves[i]);
      FillAllKeepsInv(h, leaves, m', order[1..]);
      forall j: nat
        ensures (0, j) in FillAll(h, leaves, m, order) <==> (0, j) in m || j in order
      {
        assert (0, j) in m' <==> (0, j) in m || j == i;
      }
    }
  }

  // The main theorem: whatever the order, a node of the filled tree is known
  // iff all leaves below it have been set, and then it is the reference node.
  lemma {:induction false} FillIsOrderIndependent<T>(h: Hash2<T>, leaves: seq<T>, order: seq<nat>, k: nat, i: nat)
    requires Within(order, |leaves|) && IsNode(|leaves|, k, i)
    ensures var m := FillAll(h, leaves, map[], order);
      && ((k, i) in m <==> forall j: nat | j < |leaves| && Up(j, k) == i :: j in order)
      && ((k, i) in m ==> m[(k, i)] == Level(h, leaves, k)[i])
  {
    FillAllKeepsInv(h, leaves, map[], order);
    var m := FillAll(h, leaves, map[], order);
    KnownIffLeavesKnown(|leaves|, TreeOf(h, leaves), m, k, i);
    assert forall j: nat :: (0, j) in m <==> j in order;
  }

  // Once every leaf has been set, the tree is the reference tree.
  lemma {:induction false} FillCompletes<T>(h: Hash2<T>, leaves: seq<T>, order: seq<nat>)
    requires Within(order, |leaves|)
    requires forall j: nat :: j < |leaves| ==> j in order
    ensures FillAll(h, leaves, map[], order) == TreeOf(h, leaves)
    ensures leaves != [] ==> (Height(|leaves|), 0) in TreeOf(h, leaves)
    ensures leaves != [] ==> FillAll(h, leaves, map[], order)[(Height(|leaves|), 0)] == Root(h, leaves)
  {
    hide FillAll, TreeOf, FillInv, Root, Height;
    var m, g := FillAll(h, leaves, map[], order), TreeOf(h, leaves);
    assert FillInv(|leaves|, g, m) by {
      EmptyInv(|leaves|, g);
      FillAllKeepsInv(h, leaves, map[], order);
    }
    FilledIsTree(h, leaves, order);
    TreeOfIsTree(h, leaves);
  }

  lemma EmptyInv<T>(n: nat, g: Nodes<T>)
    ensures FillInv(n, g, map[])
  {
  }

  lemma {:induction false} FilledIsTree<T>(h: Hash2<T>, leaves: seq<T>, order: seq<nat>)
    requires Within(order, |leaves|) && forall j: nat :: j < |leaves| ==> j in order
    requires FillInv(|leaves|, TreeOf(h, leaves), FillAll(h, leaves, map[], order))
    ensures FillAll(h, leaves, map[], order) == TreeOf(h, leaves)
  {
    var m, g := FillAll(h, leaves, map[], order), TreeOf(h, leaves);
    assert m.Keys <= g.Keys;
    hide *;
    forall q | q in g
      ensures q in m && m[q] == g[q]
    {
      FilledNode(h, leaves, order, q);
    }
    assert m.Keys == g.Keys;
  }

  lemma {:induction false} FilledNode<T>(h: Hash2<T>, leaves: seq<T>, order: seq<nat>, q: Node)
    requires Within(order, |leaves|) && q in TreeOf(h, leaves)
    requires forall j: nat :: j < |leaves| ==> j in order
    ensures q in FillAll(h, leaves, map[], order)
    ensures FillAll(h, leaves, map[], order)[q] == TreeOf(h, leaves)[q]
  {
    assert q == (q.0, q.1) && IsNode(|leaves|, q.0, q.1);
    FillIsOrderIndependent(h, leaves, order, q.0, q.1);
  }
}
