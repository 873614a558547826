// The flattened layout of a Merkle tree with promoted odd nodes: all levels,
// leaves first, in one array. Level `k` is a window of `Width(n, k)` cells that
// starts at `Offset(n, k)`.
module MerkleShape {

  function Width(n: nat, k: nat): nat {
    if k == 0 then n else (Width(n, k - 1) + 1) / 2
  }

  function Offset(n: nat, k: nat): nat {
    if k == 0 then 0 else Offset(n, k - 1) + Width(n, k - 1)
  }

  // The level that holds the root.
  function Height(n: nat): nat {
    if n <= 1 then 0 else 1 + Height((n + 1) / 2)
  }

  function Sibling(i: nat): nat {
    if i % 2 == 0 then i + 1 else i - 1
  }

  // The ancestor, `k` levels up, of the node at position `i`.
  function Up(i: nat, k: nat): nat {
    if k == 0 then i else Up(i, k - 1) / 2
  }

  type Node = (nat, nat)

  predicate IsNode(n: nat, k: nat, i: nat) {
    k <= Height(n) && i < Width(n, k)
  }

  lemma WidthShift(n: nat, k: nat)
    ensures Width((n + 1) / 2, k) == Width(n, k + 1)
  {
    if k > 0 {
      WidthShift(n, k - 1);
    }
  }

  // The walk goes on exactly while the level has two nodes or more.
  lemma {:induction false} HeightExact(n: nat, k: nat)
    requires n >= 1
    ensures k < Height(n) <==> Width(n, k) >= 2
    ensures Width(n, k) >= 1
    decreases n
  {
    if n == 1 {
      WidthOfOne(k);
    } else if k > 0 {
      WidthShift(n, k - 1);
      HeightExact((n + 1) / 2, k - 1);
    }
  }

  lemma WidthOfOne(k: nat)
    ensures Width(1, k) == 1
  {
  }

  lemma OffsetMonotone(n: nat, k: nat, k': nat)
    requires k < k'
    ensures Offset(n, k) + Width(n, k) <= Offset(n, k')
  {
  }

  // No two nodes share a cell.
  lemma {:induction false} CellsAreDistinct(n: nat, k: nat, i: nat, k': nat, i': nat)
    requires i < Width(n, k) && i' < Width(n, k')
    requires Offset(n, k) + i == Offset(n, k') + i'
    ensures k == k' && i == i'
  {
    if k < k' {
      OffsetMonotone(n, k, k');
    } else if k' < k {
      OffsetMonotone(n, k', k);
    }
  }

  function CellCount(n: nat): nat {
    Offset(n, Height(n)) + Width(n, Height(n))
  }

  lemma {:induction false} NodeFits(n: nat, k: nat, i: nat)
    requires IsNode(n, k, i)
    ensures Offset(n, k) + i < CellCount(n)
  {
    if k < Height(n) {
      OffsetMonotone(n, k, Height(n));
    }
  }

  // Every cell belongs to a node: together with CellsAreDistinct, the cells and
  // the nodes of the level walk are in bijection.
  lemma {:induction false} CellHasNode(n: nat, p: nat) returns (k: nat, i: nat)
    requires p < CellCount(n)
    ensures IsNode(n, k, i) && Offset(n, k) + i == p
  {
    k := Height(n);
    while Offset(n, k) > p
      invariant k <= Height(n)
      invariant p < Offset(n, k) + Width(n, k)
      decreases k
    {
      k := k - 1;
    }
    i := p - Offset(n, k);
  }

  lemma {:induction false} ParentIsNode(n: nat, k: nat, i: nat)
    requires IsNode(n, k, i) && k < Height(n)
    ensures IsNode(n, k + 1, i / 2)
  {
  }

  // The level walk is at node `i` of level `k`, the cells [a, b).
  predicate OnLevel(n: nat, k: nat, i: nat, a: nat, b: nat) {
    IsNode(n, k, i) && a == Offset(n, k) && b == a + Width(n, k)
  }

  // One step of the level walk.
  lemma {:induction false} NextLevel(n: nat, k: nat, i: nat, a: nat, b: nat)
    requires OnLevel(n, k, i, a, b) && b - a >= 2
    ensures k < Height(n) && OnLevel(n, k + 1, i / 2, b, b + (b - a + 1) / 2)
  {
    HeightExact(n, k);
    ParentIsNode(n, k, i);
  }

  lemma UpIsNode(n: nat, i: nat, k: nat)
    requires i < n && k <= Height(n)
    ensures IsNode(n, k, Up(i, k))
  {
  }

  // merkle_tree_size: the number of cells of the walk.
  method MerkleTreeSize(v0: nat) returns (r: nat)
    ensures r == CellCount(v0)
  {
    var v := v0;
    r := 0;
    ghost var k := 0;
    while v > 1
      invariant v == Width(v0, k) && r == Offset(v0, k)
      invariant v0 >= 1 ==> k <= Height(v0) && v >= 1
      invariant v0 == 0 ==> k == 0
      decreases v
    {
      HeightExact(v0, k);
      HeightExact(v0, k + 1);
      r := r + v;
      v := v + 1;
      v := v / 2;
      k := k + 1;
    }
    if v == 1 {
      r := r + 1;
    }
    if v0 >= 1 {
      HeightExact(v0, k);
    }
  }
}
