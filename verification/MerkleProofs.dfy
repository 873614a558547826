// Checking a leaf against a hash chain and caching the chain, as functions on
// the map of the nodes that are known so far.
module MerkleProofs {
  import opened MerkleShape
  import opened MerkleSpec
  import opened Wrappers

  predicate HasSibling(n: nat, k: nat, i: nat) {
    Sibling(i) < Width(n, k)
  }

  // The hash of the parent of (k, i), and what is left of the chain above it.
  function NextHash<T>(h: Hash2<T>, n: nat, k: nat, i: nat, x: T, w: seq<T>): T
    requires |w| > 0
  {
    if !HasSibling(n, k, i) then x else if i < Sibling(i) then h(x, w[0]) else h(w[0], x)
  }

  function NextChain<T>(n: nat, k: nat, i: nat, w: seq<T>): seq<T>
    requires |w| > 0
  {
    if HasSibling(n, k, i) then w[1..] else w
  }

  // Walk up from node (k, i), which would have hash `x`, to the first known
  // node and compare.
  predicate TestFrom<T(==)>(h: Hash2<T>, n: nat, m: Nodes<T>, k: nat, i: nat, x: T, w: seq<T>)
    requires IsNode(n, k, i)
    decreases Height(n) - k
  {
    if (k, i) in m then
      x == m[(k, i)]
    else if Width(n, k) < 2 || |w| == 0 then
      false
    else
      HeightExact(n, k);
      ParentIsNode(n, k, i);
      TestFrom(h, n, m, k + 1, i / 2, NextHash(h, n, k, i, x, w), NextChain(n, k, i, w))
  }

  // The sibling hashes that are stored on the way up from (k, i); the walk
  // stops at a sibling that is already known.
  function Cached<T>(n: nat, m: Nodes<T>, k: nat, i: nat, w: seq<T>): Nodes<T>
    requires IsNode(n, k, i)
    decreases Height(n) - k
  {
    if Width(n, k) < 2 || |w| == 0 then
      map[]
    else
      HeightExact(n, k);
      ParentIsNode(n, k, i);
      if HasSibling(n, k, i) && (k, Sibling(i)) in m then
        map[]
      else
        var above := Cached(n, m, k + 1, i / 2, NextChain(n, k, i, w));
        if HasSibling(n, k, i) then above[(k, Sibling(i)) := w[0]] else above
  }

  function SetProof<T>(n: nat, m: Nodes<T>, i: nat, v: T, w: seq<T>): Nodes<T>
    requires i < n
  {
    m[(0, i) := v] + Cached(n, m, 0, i, w)
  }

  function TestAndSet<T(==)>(h: Hash2<T>, n: nat, m: Nodes<T>, i: nat, v: T, w: seq<T>): Nodes<T>
    requires i < n
  {
    if TestFrom(h, n, m, 0, i, v, w) then SetProof(n, m, i, v, w) else m
  }

  // The hash chain of node (k, i) in the reference tree `g`.
  function Chain<T>(n: nat, g: Nodes<T>, k: nat, i: nat): seq<T>
    requires IsNode(n, k, i)
    requires forall k: nat, i: nat :: IsNode(n, k, i) ==> (k, i) in g
    decreases Height(n) - k
  {
    if Width(n, k) < 2 then
      []
    else
      HeightExact(n, k);
      ParentIsNode(n, k, i);
      var rest := Chain(n, g, k + 1, i / 2);
      if HasSibling(n, k, i) then [g[(k, Sibling(i))]] + rest else rest
  }

  // What `get(i, c)` extracts from an actual tree: `c` levels, none left out
  // when `c` is negative; unknown cells read as `blank`.
  function Extract<T>(n: nat, m: Nodes<T>, blank: T, k: nat, i: nat, c: int): seq<T>
    requires IsNode(n, k, i)
    decreases Height(n) - k
  {
    if Width(n, k) < 2 || c == 0 then
      []
    else
      HeightExact(n, k);
      ParentIsNode(n, k, i);
      var j := (k, Sibling(i));
      var rest := Extract(n, m, blank, k + 1, i / 2, c - 1);
      if HasSibling(n, k, i) then [if j in m then m[j] else blank] + rest else rest
  }

  lemma {:induction false} ExtractIsChain<T>(n: nat, g: Nodes<T>, blank: T, k: nat, i: nat, c: int)
    requires IsNode(n, k, i) && (c < 0 || k + c >= Height(n))
    requires forall k: nat, i: nat :: IsNode(n, k, i) ==> (k, i) in g
    ensures Extract(n, g, blank, k, i, c) == Chain(n, g, k, i)
    decreases Height(n) - k
  {
    if Width(n, k) >= 2 {
      HeightExact(n, k);
      ParentIsNode(n, k, i);
      assert HasSibling(n, k, i) ==> IsNode(n, k, Sibling(i));
      ExtractIsChain(n, g, blank, k + 1, i / 2, c - 1);
    }
  }

  // A run: calls with leaf numbers, hashes and chains chosen by anyone.
  datatype Offer<T> = Offer(leaf: nat, hash: T, chain: seq<T>)

  function Run<T(==)>(h: Hash2<T>, n: nat, m: Nodes<T>, offers: seq<Offer<T>>): Nodes<T>
    requires forall o <- offers :: o.leaf < n
    decreases |offers|
  {
    if offers == [] then m
    else
      var o := offers[0];
      Run(h, n, TestAndSet(h, n, m, o.leaf, o.hash, o.chain), offers[1..])
  }

  function RootOnly<T>(n: nat, root: T): Nodes<T> {
    map[(Height(n), 0) := root]
  }

  ghost predicate Injective<T(!new)>(h: Hash2<T>) {
    forall a, b, c, d :: h(a, b) == h(c, d) ==> a == c && b == d
  }

  // Only the children of the reference tree hash to their parent: weaker than
  // injectivity, and all that soundness needs.
  ghost predicate NoSecondPreimage<T(!new)>(h: Hash2<T>, n: nat, g: Nodes<T>) {
    forall k: nat, p: nat :: Unforgeable(h, n, g, k, p)
  }

  ghost predicate Unforgeable<T(!new)>(h: Hash2<T>, n: nat, g: Nodes<T>, k: nat, p: nat) {
    (k, 2 * p) in g && (k, 2 * p + 1) in g ==>
      forall a, b :: h(a, b) == h(g[(k, 2 * p)], g[(k, 2 * p + 1)]) ==> a == g[(k, 2 * p)] && b == g[(k, 2 * p + 1)]
  }

  // ----- collisions -----

  // Two hashes `a` and `b` in place of the children of node (k + 1, p).
  datatype Pair<T> = Pair(k: nat, p: nat, a: T, b: T)

  // They are not the children, but have the same hash.
  predicate Collides<T(==)>(h: Hash2<T>, g: Nodes<T>, c: Pair<T>) {
    var l, r := (c.k, 2 * c.p), (c.k, 2 * c.p + 1);
    l in g && r in g && h(c.a, c.b) == h(g[l], g[r]) && (c.a != g[l] || c.b != g[r])
  }

  // What is hashed on the way up from node (k, i) and its sibling.
  function PairAt<T>(k: nat, i: nat, x: T, y: T): Pair<T> {
    if i < Sibling(i) then Pair(k, i / 2, x, y) else Pair(k, i / 2, y, x)
  }

  // The first pair on the way up from (k, i) that collides with the true one.
  function CollisionIn<T(==)>(h: Hash2<T>, n: nat, g: Nodes<T>, k: nat, i: nat, x: T, w: seq<T>): (r: Option<Pair<T>>)
    requires IsNode(n, k, i)
    ensures r.Some? ==> Collides(h, g, r.value)
    decreases Height(n) - k
  {
    if Width(n, k) < 2 || |w| == 0 then
      None
    else if HasSibling(n, k, i) && Collides(h, g, PairAt(k, i, x, w[0])) then
      Some(PairAt(k, i, x, w[0]))
    else
      HeightExact(n, k);
      ParentIsNode(n, k, i);
      CollisionIn(h, n, g, k + 1, i / 2, NextHash(h, n, k, i, x, w), NextChain(n, k, i, w))
  }

  // The first one in the hashes and chains of a run.
  function CollisionOf<T(==)>(h: Hash2<T>, n: nat, g: Nodes<T>, offers: seq<Offer<T>>): (r: Option<Pair<T>>)
    requires forall o <- offers :: o.leaf < n
    ensures r.Some? ==> Collides(h, g, r.value)
    decreases |offers|
  {
    if offers == [] then None
    else
      var r := CollisionIn(h, n, g, 0, offers[0].leaf, offers[0].hash, offers[0].chain);
      if r.Some? then r else CollisionOf(h, n, g, offers[1..])
  }

  // ----- completeness of chains -----

  // The first known node on the path that starts at (k, i).
  function FirstKnown<T>(n: nat, m: Nodes<T>, k: nat, i: nat): (r: Node)
    requires IsNode(n, k, i) && n >= 1
    requires (Height(n), 0) in m
    ensures IsNode(n, r.0, r.1) && r in m
    decreases Height(n) - k
  {
    HeightExact(n, k);
    if (k, i) in m then (k, i)
    else
      ParentIsNode(n, k, i);
      FirstKnown(n, m, k + 1, i / 2)
  }

  lemma {:induction false} ChainNotEmpty<T>(n: nat, g: Nodes<T>, k: nat, i: nat)
    requires IsNode(n, k, i) && k < Height(n)
    requires forall k: nat, i: nat :: IsNode(n, k, i) ==> (k, i) in g
    ensures Chain(n, g, k, i) != []
    decreases Height(n) - k
  {
    HeightExact(n, k);
    if !HasSibling(n, k, i) {
      ParentIsNode(n, k, i);
      HeightExact(n, k + 1);
      ChainNotEmpty(n, g, k + 1, i / 2);
    }
  }

  // With the true hash and the true chain, the verdict is exactly whether the
  // node where the walk ends is the true one. Promoted nodes included.
  lemma {:induction false} TestOfTrueChain<T>(h: Hash2<T>, n: nat, g: Nodes<T>, m: Nodes<T>, k: nat, i: nat)
    requires n >= 1 && IsTree(h, n, g)
    requires IsNode(n, k, i) && (Height(n), 0) in m
    ensures TestFrom(h, n, m, k, i, g[(k, i)], Chain(n, g, k, i))
      <==> m[FirstKnown(n, m, k, i)] == g[FirstKnown(n, m, k, i)]
    decreases Height(n) - k
  {
    HeightExact(n, k);
    if (k, i) !in m {
      ChainNotEmpty(n, g, k, i);
      ParentIsNode(n, k, i);
      assert ParentOk(h, n, g, k, i / 2);
      TestOfTrueChain(h, n, g, m, k + 1, i / 2);
      if HasSibling(n, k, i) {
        assert Chain(n, g, k, i)[1..] == Chain(n, g, k + 1, i / 2);
      }
    }
  }

  // A verifier whose known nodes all agree with the reference accepts every
  // leaf with the chain that a complete tree hands out.
  lemma {:induction false} ProofIsComplete<T>(h: Hash2<T>, leaves: seq<T>, m: Nodes<T>, blank: T, i: nat, c: int)
    requires i < |leaves| && (c < 0 || c >= Height(|leaves|))
    requires (Height(|leaves|), 0) in m
    requires forall q | q in m && q in TreeOf(h, leaves) :: m[q] == TreeOf(h, leaves)[q]
    ensures TestFrom(h, |leaves|, m, 0, i, leaves[i], Extract(|leaves|, TreeOf(h, leaves), blank, 0, i, c))
  {
    TreeOfIsTree(h, leaves);
    TestOfTrueChain(h, |leaves|, TreeOf(h, leaves), m, 0, i);
    ExtractIsChain(|leaves|, TreeOf(h, leaves), blank, 0, i, c);
  }

  // ----- soundness over runs -----

  function Parent(q: Node): Node {
    (q.0 + 1, q.1 / 2)
  }

  // `e` is the set of entered nodes, those above (or at) an accepted leaf.
  // Cached inner hashes may be wrong, but only on entered nodes, where no test
  // looks at them any more.
  ghost predicate Inv<T>(n: nat, g: Nodes<T>, m: Nodes<T>, e: set<Node>) {
    (Height(n), 0) in m && forall q :: NodeOk(n, g, m, e, q)
  }

  ghost predicate NodeOk<T>(n: nat, g: Nodes<T>, m: Nodes<T>, e: set<Node>, q: Node) {
    && (q in m || q in e ==> q in g)
    && (q in e && q.0 == 0 ==> q in m)
    && (q in m && (q.0 == 0 || q !in e) ==> m[q] == g[q])
    && (q in g && q.0 < Height(n) ==> (Parent(q) in e <==> q in m || q in e))
  }

  lemma {:induction false} AcceptedStep<T>(h: Hash2<T>, n: nat, g: Nodes<T>, k: nat, i: nat, x: T, y: T)
    requires IsTree(h, n, g) && !Collides(h, g, PairAt(k, i, x, y))
    requires IsNode(n, k, i) && IsNode(n, k + 1, i / 2) && IsNode(n, k, Sibling(i))
    requires g[(k + 1, i / 2)] == if i < Sibling(i) then h(x, y) else h(y, x)
    ensures x == g[(k, i)] && y == g[(k, Sibling(i))]
  {
    assert ParentOk(h, n, g, k, i / 2);
  }

  // A chain is accepted only if it is the true one, when the walk ends at a
  // true node and meets no collision.
  lemma {:induction false} AcceptedIsTrue<T>(h: Hash2<T>, n: nat, g: Nodes<T>, m: Nodes<T>,
                                             k: nat, i: nat, x: T, w: seq<T>)
    requires n >= 1 && IsTree(h, n, g) && IsNode(n, k, i) && CollisionIn(h, n, g, k, i, x, w).None?
    requires (Height(n), 0) in m
    requires m[FirstKnown(n, m, k, i)] == g[FirstKnown(n, m, k, i)]
    requires TestFrom(h, n, m, k, i, x, w)
    ensures x == g[(k, i)]
    ensures (k, i) !in m && HasSibling(n, k, i) ==> |w| > 0 && w[0] == g[(k, Sibling(i))]
    decreases Height(n) - k
  {
    HeightExact(n, k);
    if (k, i) !in m {
      ParentIsNode(n, k, i);
      AcceptedIsTrue(h, n, g, m, k + 1, i / 2, NextHash(h, n, k, i, x, w), NextChain(n, k, i, w));
      if HasSibling(n, k, i) {
        AcceptedStep(h, n, g, k, i, x, w[0]);
      } else {
        assert ParentOk(h, n, g, k, i / 2);
      }
    }
  }

  // Outside the entered part every walk ends at a true node.
  lemma {:induction false} WalkEndsTrue<T>(n: nat, g: Nodes<T>, m: Nodes<T>, e: set<Node>, k: nat, i: nat)
    requires n >= 1 && IsNode(n, k, i) && Inv(n, g, m, e) && (k, i) !in e
    requires forall k: nat, i: nat :: IsNode(n, k, i) ==> (k, i) in g
    ensures m[FirstKnown(n, m, k, i)] == g[FirstKnown(n, m, k, i)]
    decreases Height(n) - k
  {
    HeightExact(n, k);
    assert NodeOk(n, g, m, e, (k, i));
    if (k, i) !in m {
      ParentIsNode(n, k, i);
      WalkEndsTrue(n, g, m, e, k + 1, i / 2);
    }
  }

  // The path from (k, i) to the root.
  ghost function Path(n: nat, k: nat, i: nat): (p: set<Node>)
    requires IsNode(n, k, i)
    ensures (k, i) in p
    ensures forall q :: q in p ==> q.0 >= k && IsNode(n, q.0, q.1) && (q.0 == k ==> q.1 == i)
    decreases Height(n) - k
  {
    if k == Height(n) then {(k, i)} else ParentIsNode(n, k, i); {(k, i)} + Path(n, k + 1, i / 2)
  }

  lemma {:induction false} PathIsClosed(n: nat, k: nat, i: nat, q: Node)
    requires IsNode(n, k, i) && q in Path(n, k, i) && q.0 < Height(n)
    ensures Parent(q) in Path(n, k, i)
    decreases Height(n) - k
  {
    ParentIsNode(n, k, i);
    if q != (k, i) {
      PathIsClosed(n, k + 1, i / 2, q);
    }
  }

  lemma {:induction false} PathEntered<T>(n: nat, g: Nodes<T>, m: Nodes<T>, e: set<Node>, k: nat, i: nat)
    requires IsNode(n, k, i) && Inv(n, g, m, e) && (k, i) in e
    ensures Path(n, k, i) <= e
    decreases Height(n) - k
  {
    if k < Height(n) {
      ParentIsNode(n, k, i);
      assert NodeOk(n, g, m, e, (k, i));
      PathEntered(n, g, m, e, k + 1, i / 2);
    }
  }

  // Cached nodes are siblings of path nodes that were not known before.
  ghost predicate NewKey<T>(n: nat, m: Nodes<T>, k: nat, i: nat, q: Node)
    requires IsNode(n, k, i)
  {
    && q !in m && k <= q.0 < Height(n) && IsNode(n, q.0, q.1) && (q.0 == k ==> q.1 == Sibling(i))
    && Parent(q) in Path(n, k, i)
  }

  lemma {:induction false} CachedKeys<T>(n: nat, m: Nodes<T>, k: nat, i: nat, w: seq<T>)
    requires IsNode(n, k, i)
    ensures forall q :: q in Cached(n, m, k, i, w) ==> NewKey(n, m, k, i, q)
    decreases Height(n) - k
  {
    if Width(n, k) >= 2 && |w| > 0 {
      HeightExact(n, k);
      ParentIsNode(n, k, i);
      var above := Cached(n, m, k + 1, i / 2, NextChain(n, k, i, w));
      CachedKeys(n, m, k + 1, i / 2, NextChain(n, k, i, w));
      forall q | q in Cached(n, m, k, i, w)
        ensures NewKey(n, m, k, i, q)
      {
        if q in above {
          NewKeyBelow(n, m, k, i, q);
        }
      }
    }
  }

  lemma NewKeyBelow<T>(n: nat, m: Nodes<T>, k: nat, i: nat, q: Node)
    requires IsNode(n, k, i) && k < Height(n) && IsNode(n, k + 1, i / 2) && NewKey(n, m, k + 1, i / 2, q)
    ensures NewKey(n, m, k, i, q)
  {
  }

  // Storing one sibling and going on is the same as overriding with the rest.
  lemma {:induction false} CachedStep<T>(n: nat, m: Nodes<T>, now: Nodes<T>, k: nat, i: nat, w: seq<T>)
    requires n >= 1 && IsNode(n, k, i) && k < Height(n) && |w| > 0
    requires HasSibling(n, k, i) && (k, Sibling(i)) !in m
    ensures IsNode(n, k + 1, i / 2)
    ensures now + Cached(n, m, k, i, w) == now[(k, Sibling(i)) := w[0]] + Cached(n, m, k + 1, i / 2, w[1..])
  {
    HeightExact(n, k);
    ParentIsNode(n, k, i);
    var above := Cached(n, m, k + 1, i / 2, w[1..]);
    CachedKeys(n, m, k + 1, i / 2, w[1..]);
    assert Cached(n, m, k, i, w) == above[(k, Sibling(i)) := w[0]] && (k, Sibling(i)) !in above;
    hide *;
    PutFirst(now, above, (k, Sibling(i)), w[0]);
  }

  lemma PutFirst<T>(a: Nodes<T>, b: Nodes<T>, q: Node, x: T)
    requires q !in b
    ensures a + b[q := x] == a[q := x] + b
  {
  }

  // What one accepted chain adds: true hashes, or hashes on nodes that are
  // entered already ...
  lemma {:induction false} CachedIsTrue<T>(h: Hash2<T>, n: nat, g: Nodes<T>, m: Nodes<T>, e: set<Node>,
                                           k: nat, i: nat, x: T, w: seq<T>, q: Node)
    requires n >= 1 && IsTree(h, n, g) && Inv(n, g, m, e) && IsNode(n, k, i)
    requires CollisionIn(h, n, g, k, i, x, w).None? && ((k, i) !in e || (k, i) in m)
    requires TestFrom(h, n, m, k, i, x, w)
    requires q in Cached(n, m, k, i, w) && q !in e
    ensures q in g && Cached(n, m, k, i, w)[q] == g[q]
    decreases Height(n) - k
  {
    HeightExact(n, k);
    assert NodeOk(n, g, m, e, (k, i));
    if (k, i) in m {
      KnownAbove(n, g, m, e, k, i, w, q);
    } else {
      ParentIsNode(n, k, i);
      if q == (k, Sibling(i)) {
        CachedKeys(n, m, k, i, w);
        WalkEndsTrue(n, g, m, e, k, i);
        AcceptedIsTrue(h, n, g, m, k, i, x, w);
      } else {
        CachedIsTrue(h, n, g, m, e, k + 1, i / 2, NextHash(h, n, k, i, x, w), NextChain(n, k, i, w), q);
      }
    }
  }

  lemma {:induction false} KnownAbove<T>(n: nat, g: Nodes<T>, m: Nodes<T>, e: set<Node>, k: nat, i: nat, w: seq<T>,
                                         q: Node)
    requires n >= 1 && Inv(n, g, m, e) && IsNode(n, k, i) && (k, i) in m
    requires forall k: nat, i: nat :: IsNode(n, k, i) ==> (k, i) in g
    requires q in Cached(n, m, k, i, w)
    ensures q in e
  {
    HeightExact(n, k);
    CachedKeys(n, m, k, i, w);
    ParentIsNode(n, k, i);
    assert NodeOk(n, g, m, e, (k, i)) && NodeOk(n, g, m, e, q);
    PathEntered(n, g, m, e, k + 1, i / 2);
  }

  // ... and every sibling of the part of the path that becomes entered.
  lemma {:induction false} CachedFills<T>(h: Hash2<T>, n: nat, g: Nodes<T>, m: Nodes<T>, e: set<Node>,
                                          k: nat, i: nat, x: T, w: seq<T>, q: Node)
    requires n >= 1 && Inv(n, g, m, e)
    requires forall k: nat, i: nat :: IsNode(n, k, i) <==> (k, i) in g
    requires IsNode(n, k, i) && ((k, i) !in e || (k, i) in m)
    requires TestFrom(h, n, m, k, i, x, w)
    requires q in g && k <= q.0 < Height(n) && Parent(q) in Path(n, k, i) && Parent(q) !in e
    ensures q in Path(n, k, i) || q in Cached(n, m, k, i, w)
    decreases Height(n) - k
  {
    HeightExact(n, k);
    ParentIsNode(n, k, i);
    assert NodeOk(n, g, m, e, (k, i));
    if (k, i) in m {
      PathEntered(n, g, m, e, k + 1, i / 2);
    } else if q.0 > k {
      if HasSibling(n, k, i) {
        assert NodeOk(n, g, m, e, (k, Sibling(i)));
        assert Parent((k, Sibling(i))) == Parent((k, i));
      }
      CachedFills(h, n, g, m, e, k + 1, i / 2, NextHash(h, n, k, i, x, w), NextChain(n, k, i, w), q);
    } else if q.1 != i {
      SiblingCached(h, n, g, m, e, k, i, x, w, q);
    }
  }

  lemma {:induction false} SiblingCached<T>(h: Hash2<T>, n: nat, g: Nodes<T>, m: Nodes<T>, e: set<Node>,
                                            k: nat, i: nat, x: T, w: seq<T>, q: Node)
    requires n >= 1 && Inv(n, g, m, e)
    requires forall k: nat, i: nat :: IsNode(n, k, i) <==> (k, i) in g
    requires IsNode(n, k, i) && (k, i) !in m && k < Height(n)
    requires TestFrom(h, n, m, k, i, x, w)
    requires q in g && q.0 == k && Parent(q) in Path(n, k, i) && Parent(q) !in e && q.1 != i
    ensures q in Cached(n, m, k, i, w)
  {
    HeightExact(n, k);
    ParentIsNode(n, k, i);
    assert q.1 / 2 == i / 2 by {
      assert Parent(q) in Path(n, k + 1, i / 2);
    }
    assert q == (k, Sibling(i));
    assert NodeOk(n, g, m, e, q);
  }
}
