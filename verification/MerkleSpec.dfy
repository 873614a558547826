// The reference tree: level-by-level pairing, an odd last node is promoted.
module MerkleSpec {
  import opened MerkleShape

  type Hash2<!T> = (T, T) -> T

  function PairUp<T>(h: Hash2<T>, xs: seq<T>): (r: seq<T>)
    ensures |r| == (|xs| + 1) / 2
    decreases |xs|
  {
    if |xs| <= 1 then xs else [h(xs[0], xs[1])] + PairUp(h, xs[2..])
  }

  lemma {:induction false} PairUpAt<T>(h: Hash2<T>, xs: seq<T>, i: nat)
    requires i < |PairUp(h, xs)|
    ensures 2 * i < |xs|
    ensures PairUp(h, xs)[i] == if 2 * i + 1 < |xs| then h(xs[2 * i], xs[2 * i + 1]) else xs[2 * i]
    decreases |xs|
  {
    if |xs| > 1 && i > 0 {
      PairUpAt(h, xs[2..], i - 1);
    }
  }

  function Level<T>(h: Hash2<T>, xs: seq<T>, k: nat): (r: seq<T>)
    ensures |r| == Width(|xs|, k)
  {
    if k == 0 then xs else PairUp(h, Level(h, xs, k - 1))
  }

  function Root<T>(h: Hash2<T>, xs: seq<T>): T
    requires xs != []
    decreases |xs|
  {
    if |xs| == 1 then xs[0] else Root(h, PairUp(h, xs))
  }

  lemma LevelShift<T>(h: Hash2<T>, xs: seq<T>, k: nat)
    ensures Level(h, PairUp(h, xs), k) == Level(h, xs, k + 1)
  {
  }

  lemma {:induction false} RootIsTopLevel<T>(h: Hash2<T>, xs: seq<T>)
    requires xs != []
    ensures Level(h, xs, Height(|xs|)) == [Root(h, xs)]
    decreases |xs|
  {
    if |xs| > 1 {
      RootIsTopLevel(h, PairUp(h, xs));
      LevelShift(h, xs, Height((|xs| + 1) / 2));
    }
  }

  // Pairing any number of levels first does not change the root.
  lemma {:induction false} RootOfLevel<T>(h: Hash2<T>, xs: seq<T>, k: nat)
    requires xs != []
    ensures Level(h, xs, k) != [] && Root(h, Level(h, xs, k)) == Root(h, xs)
  {
    if k > 0 {
      RootOfLevel(h, xs, k - 1);
    }
  }

  lemma {:induction false} PairUpConcat<T>(h: Hash2<T>, a: seq<T>, b: seq<T>)
    requires |a| % 2 == 0
    ensures PairUp(h, a + b) == PairUp(h, a) + PairUp(h, b)
    decreases |a|
  {
    if a == [] {
      assert a + b == b;
    } else {
      assert (a + b)[2..] == a[2..] + b;
      PairUpConcat(h, a[2..], b);
    }
  }

  // ----- the reference tree as a map of its nodes -----

  type Nodes<T> = map<Node, T>

  function TreeOf<T>(h: Hash2<T>, xs: seq<T>): (g: Nodes<T>)
    ensures forall k: nat, i: nat :: (k, i) in g <==> IsNode(|xs|, k, i)
    ensures forall k: nat, i: nat :: IsNode(|xs|, k, i) ==> g[(k, i)] == Level(h, xs, k)[i]
  {
    map k: nat, i: nat | k <= Height(|xs|) && i < Width(|xs|, k) :: (k, i) := Level(h, xs, k)[i]
  }

  // The parent (k + 1, p) holds the hash of its children, or its only child.
  predicate ParentOk<T(==)>(h: Hash2<T>, n: nat, g: Nodes<T>, k: nat, p: nat) {
    IsNode(n, k + 1, p) ==>
      && (k + 1, p) in g && (k, 2 * p) in g
      && if 2 * p + 1 < Width(n, k)
         then (k, 2 * p + 1) in g && g[(k + 1, p)] == h(g[(k, 2 * p)], g[(k, 2 * p + 1)])
         else g[(k + 1, p)] == g[(k, 2 * p)]
  }

  ghost predicate IsTree<T>(h: Hash2<T>, n: nat, g: Nodes<T>) {
    && (forall k: nat, i: nat :: (k, i) in g <==> IsNode(n, k, i))
    && (forall k: nat, p: nat :: ParentOk(h, n, g, k, p))
  }

  lemma {:induction false} TreeParentOk<T>(h: Hash2<T>, xs: seq<T>, k: nat, p: nat)
    ensures ParentOk(h, |xs|, TreeOf(h, xs), k, p)
  {
    if IsNode(|xs|, k + 1, p) {
      var g, lower, upper := TreeOf(h, xs), Level(h, xs, k), Level(h, xs, k + 1);
      assert upper == PairUp(h, lower);
      PairUpAt(h, lower, p);
      assert IsNode(|xs|, k, 2 * p) && g[(k, 2 * p)] == lower[2 * p];
      assert g[(k + 1, p)] == upper[p];
      if 2 * p + 1 < Width(|xs|, k) {
        assert IsNode(|xs|, k, 2 * p + 1) && g[(k, 2 * p + 1)] == lower[2 * p + 1];
      }
    }
  }

  lemma {:induction false} TreeOfIsTree<T>(h: Hash2<T>, xs: seq<T>)
    ensures IsTree(h, |xs|, TreeOf(h, xs))
    ensures forall i :: 0 <= i < |xs| ==> (0, i) in TreeOf(h, xs) && TreeOf(h, xs)[(0, i)] == xs[i]
    ensures xs != [] ==> (Height(|xs|), 0) in TreeOf(h, xs) && TreeOf(h, xs)[(Height(|xs|), 0)] == Root(h, xs)
  {
    forall k: nat, p: nat
      ensures ParentOk(h, |xs|, TreeOf(h, xs), k, p)
    {
      TreeParentOk(h, xs, k, p);
    }
    forall i: nat | 0 <= i < |xs|
      ensures (0, i) in TreeOf(h, xs) && TreeOf(h, xs)[(0, i)] == xs[i]
    {
      assert IsNode(|xs|, 0, i);
    }
    if xs != [] {
      TreeTop(h, xs);
    }
  }

  lemma {:induction false} TreeTop<T>(h: Hash2<T>, xs: seq<T>)
    requires xs != []
    ensures IsNode(|xs|, Height(|xs|), 0) && TreeOf(h, xs)[(Height(|xs|), 0)] == Root(h, xs)
  {
    RootIsTopLevel(h, xs);
    HeightExact(|xs|, Height(|xs|));
  }
}
