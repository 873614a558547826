// Whatever peers offer, a tree that starts from the true root accepts true
// leaves only, and never ends up refusing one, unless the hashes they sent hold a
// collision of the hash function.
module MerkleSoundness {
  import opened MerkleShape
  import opened MerkleSpec
  import opened MerkleProofs

  lemma {:induction false} StepKeepsNode<T>(h: Hash2<T>, n: nat, g: Nodes<T>, m: Nodes<T>, e: set<Node>,
                                            i: nat, v: T, w: seq<T>, q: Node)
    requires i < n && IsTree(h, n, g) && CollisionIn(h, n, g, 0, i, v, w).None? && Inv(n, g, m, e)
    requires TestFrom(h, n, m, 0, i, v, w)
    ensures NodeOk(n, g, SetProof(n, m, i, v, w), e + Path(n, 0, i), q)
  {
    var c := Cached(n, m, 0, i, w);
    CachedKeys(n, m, 0, i, w);
    assert NodeOk(n, g, m, e, q) && NodeOk(n, g, m, e, (0, i));
    if q == (0, i) {
      if q !in e {
        WalkEndsTrue(n, g, m, e, 0, i);
        AcceptedIsTrue(h, n, g, m, 0, i, v, w);
      }
    } else if q in c && q !in e {
      CachedIsTrue(h, n, g, m, e, 0, i, v, w, q);
    }
    if q in g && q.0 < Height(n) {
      if q in Path(n, 0, i) {
        PathIsClosed(n, 0, i, q);
      } else if Parent(q) in Path(n, 0, i) && Parent(q) !in e {
        CachedFills(h, n, g, m, e, 0, i, v, w, q);
      }
    }
  }

  lemma {:induction false} StepKeepsInv<T>(h: Hash2<T>, n: nat, g: Nodes<T>, m: Nodes<T>, e: set<Node>,
                                           i: nat, v: T, w: seq<T>)
    requires i < n && IsTree(h, n, g) && CollisionIn(h, n, g, 0, i, v, w).None? && Inv(n, g, m, e)
    requires TestFrom(h, n, m, 0, i, v, w)
    ensures Inv(n, g, SetProof(n, m, i, v, w), e + Path(n, 0, i))
  {
    forall q
      ensures NodeOk(n, g, SetProof(n, m, i, v, w), e + Path(n, 0, i), q)
    {
      StepKeepsNode(h, n, g, m, e, i, v, w, q);
    }
  }

  lemma {:induction false} RunKeepsInv<T>(h: Hash2<T>, n: nat, g: Nodes<T>, m: Nodes<T>, e: set<Node>,
                                          offers: seq<Offer<T>>)
    returns (e': set<Node>)
    requires n >= 1 && IsTree(h, n, g) && Inv(n, g, m, e)
    requires (forall o <- offers :: o.leaf < n) && CollisionOf(h, n, g, offers).None?
    ensures Inv(n, g, Run(h, n, m, offers), e')
    decreases |offers|
  {
    e' := e;
    if offers != [] {
      var o := offers[0];
      if TestFrom(h, n, m, 0, o.leaf, o.hash, o.chain) {
        StepKeepsInv(h, n, g, m, e, o.leaf, o.hash, o.chain);
        e' := e + Path(n, 0, o.leaf);
      }
      e' := RunKeepsInv(h, n, g, TestAndSet(h, n, m, o.leaf, o.hash, o.chain), e', offers[1..]);
    }
  }

  // The main theorem, for any hash function. After any run that started from the
  // root alone, and whose hashes hold no collision, every leaf that is present is
  // the true one, no other hash is accepted with any chain but one that holds a
  // collision, and the true hash with its true chain is always accepted.
  lemma {:induction false} OnlyTrueUnlessCollision<T(!new)>(h: Hash2<T>, leaves: seq<T>, offers: seq<Offer<T>>)
    requires leaves != [] && forall o <- offers :: o.leaf < |leaves|
    requires CollisionOf(h, |leaves|, TreeOf(h, leaves), offers).None?
    ensures var n := |leaves|; var g := TreeOf(h, leaves); var m := Run(h, n, RootOnly(n, Root(h, leaves)), offers);
      && (forall i: nat | i < n && (0, i) in m :: m[(0, i)] == leaves[i])
      && (forall i: nat, v, w | i < n && TestFrom(h, n, m, 0, i, v, w) ::
            v == leaves[i] || CollisionIn(h, n, g, 0, i, v, w).Some?)
      && (forall i: nat | i < n :: TestFrom(h, n, m, 0, i, leaves[i], Chain(n, g, 0, i)))
  {
    var n, g := |leaves|, TreeOf(h, leaves);
    TreeOfIsTree(h, leaves);
    var m0 := RootOnly(n, Root(h, leaves));
    assert Inv(n, g, m0, {});
    var e := RunKeepsInv(h, n, g, m0, {}, offers);
    var m := Run(h, n, m0, offers);
    forall i: nat | i < n
      ensures (0, i) in m ==> m[(0, i)] == leaves[i]
      ensures m[FirstKnown(n, m, 0, i)] == g[FirstKnown(n, m, 0, i)]
    {
      LeafWalk(n, g, m, e, i);
    }
    forall i: nat, v, w | i < n && TestFrom(h, n, m, 0, i, v, w)
      ensures v == leaves[i] || CollisionIn(h, n, g, 0, i, v, w).Some?
    {
      if CollisionIn(h, n, g, 0, i, v, w).None? {
        AcceptedIsTrue(h, n, g, m, 0, i, v, w);
      }
    }
    forall i: nat | i < n
      ensures TestFrom(h, n, m, 0, i, leaves[i], Chain(n, g, 0, i))
    {
      TestOfTrueChain(h, n, g, m, 0, i);
    }
  }

  // From a false leaf in the tree, whoever has the true leaves finds a collision
  // in what was sent.
  lemma {:induction false} FalseLeafCollides<T(!new)>(h: Hash2<T>, leaves: seq<T>, offers: seq<Offer<T>>, i: nat)
    requires i < |leaves| && forall o <- offers :: o.leaf < |leaves|
    requires var m := Run(h, |leaves|, RootOnly(|leaves|, Root(h, leaves)), offers);
      (0, i) in m && m[(0, i)] != leaves[i]
    ensures var c := CollisionOf(h, |leaves|, TreeOf(h, leaves), offers);
      c.Some? && Collides(h, TreeOf(h, leaves), c.value)
      && exists o <- offers :: CollisionIn(h, |leaves|, TreeOf(h, leaves), 0, o.leaf, o.hash, o.chain) == c
  {
    var n, g := |leaves|, TreeOf(h, leaves);
    if CollisionOf(h, n, g, offers).None? {
      OnlyTrueUnlessCollision(h, leaves, offers);
    }
    CollisionIsSent(h, n, g, offers);
  }

  lemma {:induction false} CollisionIsSent<T>(h: Hash2<T>, n: nat, g: Nodes<T>, offers: seq<Offer<T>>)
    requires (forall o <- offers :: o.leaf < n) && CollisionOf(h, n, g, offers).Some?
    ensures exists o <- offers :: CollisionIn(h, n, g, 0, o.leaf, o.hash, o.chain) == CollisionOf(h, n, g, offers)
    decreases |offers|
  {
    var o := offers[0];
    if CollisionIn(h, n, g, 0, o.leaf, o.hash, o.chain).None? {
      CollisionIsSent(h, n, g, offers[1..]);
    }
  }

  // True hashes with true chains hold no collision, whatever the hash function.
  lemma {:induction false} TrueChainIsClean<T>(h: Hash2<T>, n: nat, g: Nodes<T>, k: nat, i: nat)
    requires IsTree(h, n, g) && IsNode(n, k, i)
    ensures CollisionIn(h, n, g, k, i, g[(k, i)], Chain(n, g, k, i)).None?
    decreases Height(n) - k
  {
    var w := Chain(n, g, k, i);
    if Width(n, k) >= 2 && |w| > 0 {
      HeightExact(n, k);
      ParentIsNode(n, k, i);
      TrueStep(h, n, g, k, i);
      hide IsTree, Chain, Sibling, Collides, PairAt;
      TrueChainIsClean(h, n, g, k + 1, i / 2);
    }
  }

  lemma {:induction false} TrueStep<T>(h: Hash2<T>, n: nat, g: Nodes<T>, k: nat, i: nat)
    requires IsTree(h, n, g) && IsNode(n, k, i) && k < Height(n) && Chain(n, g, k, i) != []
    ensures IsNode(n, k + 1, i / 2)
    ensures var w := Chain(n, g, k, i);
      && NextHash(h, n, k, i, g[(k, i)], w) == g[(k + 1, i / 2)]
      && NextChain(n, k, i, w) == Chain(n, g, k + 1, i / 2)
      && (HasSibling(n, k, i) ==> !Collides(h, g, PairAt(k, i, g[(k, i)], w[0])))
  {
    HeightExact(n, k);
    ParentIsNode(n, k, i);
    assert ParentOk(h, n, g, k, i / 2);
    if HasSibling(n, k, i) {
      assert IsNode(n, k, Sibling(i));
      assert Chain(n, g, k, i)[1..] == Chain(n, g, k + 1, i / 2);
    }
  }

  lemma {:induction false} TrueOffersAreClean<T>(h: Hash2<T>, leaves: seq<T>, offers: seq<Offer<T>>)
    requires forall o <- offers :: o.leaf < |leaves|
    requires forall o <- offers :: o.hash == leaves[o.leaf] && o.chain == Chain(|leaves|, TreeOf(h, leaves), 0, o.leaf)
    ensures CollisionOf(h, |leaves|, TreeOf(h, leaves), offers).None?
    decreases |offers|
  {
    if offers != [] {
      TreeOfIsTree(h, leaves);
      TrueChainIsClean(h, |leaves|, TreeOf(h, leaves), 0, offers[0].leaf);
      TrueOffersAreClean(h, leaves, offers[1..]);
    }
  }

  // A collision on the level of the leaves is enough: one offer makes the tree
  // know a false leaf.
  lemma {:induction false} CollisionForges<T>(h: Hash2<T>, leaves: seq<T>, c: Pair<T>)
    returns (offers: seq<Offer<T>>, i: nat)
    requires leaves != [] && Collides(h, TreeOf(h, leaves), c) && c.k == 0
    ensures |offers| == 1 && (forall o <- offers :: o.leaf < |leaves|) && i < |leaves|
    ensures var m := Run(h, |leaves|, RootOnly(|leaves|, Root(h, leaves)), offers);
      (0, i) in m && m[(0, i)] != leaves[i]
  {
    var n, g, m0 := |leaves|, TreeOf(h, leaves), RootOnly(|leaves|, Root(h, leaves));
    TreeOfIsTree(h, leaves);
    assert IsNode(n, 0, 2 * c.p) && m0.Keys == {(Height(n), 0)} && m0[(Height(n), 0)] == g[(Height(n), 0)];
    hide *;
    var offer: Offer<T>;
    offer, i := ForgingOffer(h, n, g, m0, c);
    OneOffer(h, n, m0, offer);
    offers := [offer];
  }

  lemma {:induction false} ForgingOffer<T>(h: Hash2<T>, n: nat, g: Nodes<T>, m0: Nodes<T>, c: Pair<T>)
    returns (offer: Offer<T>, i: nat)
    requires IsTree(h, n, g) && Collides(h, g, c) && c.k == 0
    requires m0.Keys == {(Height(n), 0)} && (Height(n), 0) in g && m0[(Height(n), 0)] == g[(Height(n), 0)]
    ensures offer.leaf < n && i < n && (0, i) in g
    ensures var m := TestAndSet(h, n, m0, offer.leaf, offer.hash, offer.chain);
      (0, i) in m && m[(0, i)] != g[(0, i)]
  {
    var l: nat, w := 2 * c.p, [c.b] + CollidingChain(n, g, c.p);
    assert IsNode(n, 0, l) && IsNode(n, 0, l + 1);
    i := if c.a != g[(0, l)] then l else l + 1;
    assert (c.a != g[(0, l)] || c.b != g[(0, l + 1)]) && l + 1 < n && w[0] == c.b && (0, i) in g;
    offer := Offer(l, c.a, w);
    CollidingAccepted(h, n, g, m0, c);
    hide *;
    CollidingStored(n, m0, l, c.a, w);
    OfferTaken(h, n, m0, offer);
  }

  // The true chain of the parent of leaf 2 * p.
  function CollidingChain<T>(n: nat, g: Nodes<T>, p: nat): seq<T>
    requires forall k: nat, i: nat :: IsNode(n, k, i) ==> (k, i) in g
  {
    if IsNode(n, 1, p) then Chain(n, g, 1, p) else []
  }

  lemma {:induction false} CollidingAccepted<T>(h: Hash2<T>, n: nat, g: Nodes<T>, m0: Nodes<T>, c: Pair<T>)
    requires IsTree(h, n, g) && Collides(h, g, c) && c.k == 0
    requires m0.Keys == {(Height(n), 0)} && (Height(n), 0) in g && m0[(Height(n), 0)] == g[(Height(n), 0)]
    ensures 2 * c.p < n && TestFrom(h, n, m0, 0, 2 * c.p, c.a, [c.b] + CollidingChain(n, g, c.p))
  {
    var l: nat, rest := 2 * c.p, CollidingChain(n, g, c.p);
    assert IsNode(n, 0, l) && IsNode(n, 0, l + 1);
    HeightExact(n, 0);
    ParentIsNode(n, 0, l);
    assert ([c.b] + rest)[1..] == rest;
    assert ParentOk(h, n, g, 0, c.p);
    OnlyRootKnown(n, m0, 1, c.p);
    TestOfTrueChain(h, n, g, m0, 1, c.p);
  }

  lemma {:induction false} CollidingStored<T>(n: nat, m0: Nodes<T>, l: nat, a: T, w: seq<T>)
    requires l % 2 == 0 && l + 1 < n && m0.Keys == {(Height(n), 0)} && |w| > 0
    ensures var m := SetProof(n, m0, l, a, w);
      (0, l) in m && m[(0, l)] == a && (0, l + 1) in m && m[(0, l + 1)] == w[0]
  {
    HeightExact(n, 0);
    CachedKeys(n, m0, 0, l, w);
  }

  lemma OfferTaken<T>(h: Hash2<T>, n: nat, m: Nodes<T>, o: Offer<T>)
    requires o.leaf < n && TestFrom(h, n, m, 0, o.leaf, o.hash, o.chain)
    ensures TestAndSet(h, n, m, o.leaf, o.hash, o.chain) == SetProof(n, m, o.leaf, o.hash, o.chain)
  {
  }

  lemma OneOffer<T>(h: Hash2<T>, n: nat, m: Nodes<T>, o: Offer<T>)
    requires o.leaf < n
    ensures Run(h, n, m, [o]) == TestAndSet(h, n, m, o.leaf, o.hash, o.chain)
  {
    assert [o][1..] == [];
  }

  lemma {:induction false} OnlyRootKnown<T>(n: nat, m: Nodes<T>, k: nat, i: nat)
    requires n >= 1 && IsNode(n, k, i) && m.Keys == {(Height(n), 0)}
    ensures FirstKnown(n, m, k, i) == (Height(n), 0)
  {
  }

  // A hash that collides with no pair of the tree leaves none to be found.
  lemma {:induction false} NothingCollides<T(!new)>(h: Hash2<T>, n: nat, g: Nodes<T>)
    requires NoSecondPreimage(h, n, g)
    ensures forall c: Pair<T> :: !Collides(h, g, c)
  {
    forall c: Pair<T>
      ensures !Collides(h, g, c)
    {
      assert Unforgeable(h, n, g, c.k, c.p);
    }
  }

  // So with such a hash nothing but the true leaves is accepted.
  lemma {:induction false} OnlyTrueLeaves<T(!new)>(h: Hash2<T>, leaves: seq<T>, offers: seq<Offer<T>>)
    requires leaves != [] && NoSecondPreimage(h, |leaves|, TreeOf(h, leaves))
    requires forall o <- offers :: o.leaf < |leaves|
    ensures var n := |leaves|; var m := Run(h, n, RootOnly(n, Root(h, leaves)), offers);
      && (forall i: nat | i < n && (0, i) in m :: m[(0, i)] == leaves[i])
      && (forall i: nat, v, w | i < n && TestFrom(h, n, m, 0, i, v, w) :: v == leaves[i])
      && (forall i: nat | i < n :: TestFrom(h, n, m, 0, i, leaves[i], Chain(n, TreeOf(h, leaves), 0, i)))
  {
    var n, g := |leaves|, TreeOf(h, leaves);
    var m := Run(h, n, RootOnly(n, Root(h, leaves)), offers);
    NothingCollides(h, n, g);
    OnlyTrueUnlessCollision(h, leaves, offers);
    assert forall i: nat, v, w | i < n && TestFrom(h, n, m, 0, i, v, w) :: v == leaves[i];
  }

  lemma {:induction false} LeafWalk<T>(n: nat, g: Nodes<T>, m: Nodes<T>, e: set<Node>, i: nat)
    requires i < n && Inv(n, g, m, e)
    requires forall k: nat, i: nat :: IsNode(n, k, i) ==> (k, i) in g
    ensures (0, i) in g && ((0, i) in m ==> m[(0, i)] == g[(0, i)])
    ensures m[FirstKnown(n, m, 0, i)] == g[FirstKnown(n, m, 0, i)]
  {
    assert IsNode(n, 0, i);
    assert NodeOk(n, g, m, e, (0, i));
    if (0, i) !in m {
      WalkEndsTrue(n, g, m, e, 0, i);
    }
  }

  // No run loses or changes a root.
  lemma {:induction false} RunKeepsRoot<T>(h: Hash2<T>, n: nat, m: Nodes<T>, offers: seq<Offer<T>>)
    requires n >= 1 && (Height(n), 0) in m && forall o <- offers :: o.leaf < n
    ensures (Height(n), 0) in Run(h, n, m, offers) && Run(h, n, m, offers)[(Height(n), 0)] == m[(Height(n), 0)]
    decreases |offers|
  {
    if offers != [] {
      var o := offers[0];
      if TestFrom(h, n, m, 0, o.leaf, o.hash, o.chain) {
        CachedKeys(n, m, 0, o.leaf, o.chain);
      }
      RunKeepsRoot(h, n, TestAndSet(h, n, m, o.leaf, o.hash, o.chain), offers[1..]);
    }
  }

  lemma {:induction false} InjectiveSuffices<T(!new)>(h: Hash2<T>, leaves: seq<T>)
    requires Injective(h)
    ensures NoSecondPreimage(h, |leaves|, TreeOf(h, leaves))
  {
    forall k: nat, p: nat
      ensures Unforgeable(h, |leaves|, TreeOf(h, leaves), k, p)
    {
    }
  }

  lemma OnePairOfTwo(k: nat, p: nat)
    ensures IsNode(2, 0, 0) && IsNode(2, 0, 1) && (IsNode(2, k, 2 * p + 1) ==> k == 0 && p == 0)
  {
    assert Height(2) == 1 && Width(2, 1) == 1;
  }

  // In a tree of two leaves there is only one node to collide with.
  lemma {:induction false} TwoLeavesSafe<T(!new)>(h: Hash2<T>, x: T, y: T)
    requires forall a, b :: h(a, b) == h(x, y) ==> a == x && b == y
    ensures NoSecondPreimage(h, 2, TreeOf(h, [x, y]))
  {
    var g := TreeOf(h, [x, y]);
    forall k: nat, p: nat
      ensures Unforgeable(h, 2, g, k, p)
    {
      if (k, 2 * p) in g && (k, 2 * p + 1) in g {
        OnePairOfTwo(k, p);
        assert g[(0, 0)] == [x, y][0] && g[(0, 1)] == [x, y][1];
      }
    }
  }

  // Inner nodes are another matter: with four leaves, after the true offer for
  // leaf 0, an offer for leaf 2 plants any hash at all on the node above leaves
  // 0 and 1. Its chain is checked only up to the known node (1, 1), but stored
  // to its end.
  lemma {:induction false} InnerNodeForged<T>(h: Hash2<T>, a: T, b: T, c: T, d: T, forged: T)
    ensures var offers := [Offer(0, a, [b, h(c, d)]), Offer(2, c, [d, forged])];
      var m := Run(h, 4, RootOnly(4, Root(h, [a, b, c, d])), offers);
      (1, 0) in m && m[(1, 0)] == forged
  {
    var leaves, root := [a, b, c, d], h(h(a, b), h(c, d));
    var l1, l2 := PairUp(h, leaves), PairUp(h, PairUp(h, leaves));
    assert leaves[2..] == [c, d] && [c, d][2..] == [];
    assert PairUp(h, [c, d]) == [h(c, d)];
    assert l1 == [h(a, b), h(c, d)] && l1[2..] == [] && l2 == [root];
    assert Root(h, leaves) == Root(h, l1) == Root(h, l2) == root;
    var o0, o1 := Offer(0, a, [b, h(c, d)]), Offer(2, c, [d, forged]);
    ForgedFirst(h, a, b, c, d);
    var m1 := TestAndSet(h, 4, RootOnly(4, root), 0, a, [b, h(c, d)]);
    ForgedSecond(h, m1, c, d, forged);
    var m2 := TestAndSet(h, 4, m1, 2, c, [d, forged]);
    assert [o0, o1][1..] == [o1] && [o1][1..] == [];
    assert Run(h, 4, RootOnly(4, root), [o0, o1]) == Run(h, 4, m1, [o1]) == Run(h, 4, m2, []) == m2;
  }

  lemma {:induction false} ForgedFirst<T>(h: Hash2<T>, a: T, b: T, c: T, d: T)
    ensures Height(4) == 2
    ensures var m1 := TestAndSet(h, 4, RootOnly(4, h(h(a, b), h(c, d))), 0, a, [b, h(c, d)]);
      m1 == map[(2, 0) := h(h(a, b), h(c, d)), (0, 0) := a, (0, 1) := b, (1, 1) := h(c, d)]
  {
    assert Height(4) == 2 && Width(4, 1) == 2 && Width(4, 2) == 1;
    var m0 := RootOnly(4, h(h(a, b), h(c, d)));
    var w := [b, h(c, d)];
    assert w[1..] == [h(c, d)] && w[1..][1..] == [];
    assert TestFrom(h, 4, m0, 1, 0, h(a, b), [h(c, d)]);
    assert Cached(4, m0, 1, 0, [h(c, d)]) == map[(1, 1) := h(c, d)];
    assert Cached(4, m0, 0, 0, w) == map[(1, 1) := h(c, d), (0, 1) := b];
  }

  lemma {:induction false} ForgedSecond<T>(h: Hash2<T>, m: Nodes<T>, c: T, d: T, forged: T)
    requires (1, 1) in m && m[(1, 1)] == h(c, d)
    requires (0, 2) !in m && (0, 3) !in m && (1, 0) !in m
    ensures var m' := TestAndSet(h, 4, m, 2, c, [d, forged]); (1, 0) in m' && m'[(1, 0)] == forged
  {
    assert Height(4) == 2 && Width(4, 1) == 2 && Width(4, 2) == 1;
    var w := [d, forged];
    assert w[1..] == [forged] && w[1..][1..] == [];
    assert TestFrom(h, 4, m, 1, 1, h(c, d), [forged]);
    assert Cached(4, m, 1, 1, [forged]) == map[(1, 0) := forged];
    assert Cached(4, m, 0, 2, w) == map[(1, 0) := forged, (0, 3) := d];
  }

  // When that can happen. Whether the first sibling at or above (k, i) is known:
  predicate Closed<T>(n: nat, m: Nodes<T>, k: nat, i: nat)
    requires IsNode(n, k, i)
    decreases Height(n) - k
  {
    if k == Height(n) then true
    else if HasSibling(n, k, i) then (k, Sibling(i)) in m
    else ParentIsNode(n, k, i); Closed(n, m, k + 1, i / 2)
  }

  // The true chain of (k, i) up to the first known node, then `x`.
  function Forge<T>(n: nat, g: Nodes<T>, m: Nodes<T>, k: nat, i: nat, x: T): (w: seq<T>)
    requires IsNode(n, k, i)
    requires forall k: nat, i: nat :: IsNode(n, k, i) ==> (k, i) in g
    ensures w != []
    decreases Height(n) - k
  {
    if k == Height(n) || (k, i) in m then [x]
    else
      ParentIsNode(n, k, i);
      assert HasSibling(n, k, i) ==> IsNode(n, k, Sibling(i));
      (if HasSibling(n, k, i) then [g[(k, Sibling(i))]] else []) + Forge(n, g, m, k + 1, i / 2, x)
  }

  predicate AllTrue<T(==)>(m: Nodes<T>, g: Nodes<T>) {
    forall q :: q in m ==> q in g && m[q] == g[q]
  }

  // A tree of true nodes can be made to hold a false one by an accepted chain
  // for leaf `i` if and only if the first sibling at or above the first known
  // node of the path is not known.
  lemma {:induction false} ForgeableIff<T(!new)>(h: Hash2<T>, n: nat, g: Nodes<T>, m: Nodes<T>, e: set<Node>, i: nat,
                                                 x: T)
    requires i < n && IsTree(h, n, g) && NoSecondPreimage(h, n, g) && Inv(n, g, m, e) && AllTrue(m, g)
    requires forall q :: q in g ==> g[q] != x
    ensures var r := FirstKnown(n, m, 0, i);
      (forall v, w | TestFrom(h, n, m, 0, i, v, w) :: AllTrue(SetProof(n, m, i, v, w), g))
      <==> Closed(n, m, r.0, r.1)
  {
    var r := FirstKnown(n, m, 0, i);
    LeafWalk(n, g, m, e, i);
    if Closed(n, m, r.0, r.1) {
      forall v, w | TestFrom(h, n, m, 0, i, v, w)
        ensures AllTrue(SetProof(n, m, i, v, w), g)
      {
        NothingCollides(h, n, g);
        AcceptedIsTrue(h, n, g, m, 0, i, v, w);
        ClosedCachesTrue(h, n, g, m, 0, i, v, w);
      }
    } else {
      var w := Forge(n, g, m, 0, i, x);
      assert NodeOk(n, g, m, e, (0, i));
      var q := ForgeryIsStored(h, n, g, m, e, 0, i, x);
      CachedKeys(n, m, 0, i, w);
      NothingCollides(h, n, g);
      StepKeepsNode(h, n, g, m, e, i, g[(0, i)], w, q);
      CachedKeepsOff(n, m, 0, i, w);
      assert SetProof(n, m, i, g[(0, i)], w)[q] == x;
    }
  }

  lemma {:induction false} CachedKeepsOff<T>(n: nat, m: Nodes<T>, k: nat, i: nat, w: seq<T>)
    requires IsNode(n, k, i)
    ensures (k, i) !in Cached(n, m, k, i, w)
  {
    CachedKeys(n, m, k, i, w);
  }

  lemma {:induction false} NothingAbove<T>(n: nat, m: Nodes<T>, k: nat, i: nat, w: seq<T>)
    requires n >= 1 && IsNode(n, k, i) && Closed(n, m, k, i)
    ensures Cached(n, m, k, i, w) == map[]
    decreases Height(n) - k
  {
    HeightExact(n, k);
    if k < Height(n) && |w| > 0 && !HasSibling(n, k, i) {
      ParentIsNode(n, k, i);
      NothingAbove(n, m, k + 1, i / 2, w);
    }
  }

  lemma {:induction false} ClosedCachesTrue<T(!new)>(h: Hash2<T>, n: nat, g: Nodes<T>, m: Nodes<T>,
                                                     k: nat, i: nat, x: T, w: seq<T>)
    requires n >= 1 && IsTree(h, n, g) && NoSecondPreimage(h, n, g)
    requires IsNode(n, k, i) && (Height(n), 0) in m && AllTrue(m, g)
    requires TestFrom(h, n, m, k, i, x, w)
    requires var r := FirstKnown(n, m, k, i); Closed(n, m, r.0, r.1)
    ensures AllTrue(Cached(n, m, k, i, w), g)
    decreases Height(n) - k
  {
    HeightExact(n, k);
    if (k, i) in m {
      NothingAbove(n, m, k, i, w);
    } else {
      ParentIsNode(n, k, i);
      NothingCollides(h, n, g);
      AcceptedIsTrue(h, n, g, m, k, i, x, w);
      ClosedCachesTrue(h, n, g, m, k + 1, i / 2, NextHash(h, n, k, i, x, w), NextChain(n, k, i, w));
    }
  }

  lemma {:induction false} StoredAbove<T>(n: nat, m: Nodes<T>, k: nat, i: nat, x: T) returns (q: Node)
    requires n >= 1 && IsNode(n, k, i) && !Closed(n, m, k, i)
    ensures q in Cached(n, m, k, i, [x]) && Cached(n, m, k, i, [x])[q] == x
    decreases Height(n) - k
  {
    HeightExact(n, k);
    if HasSibling(n, k, i) {
      q := (k, Sibling(i));
    } else {
      ParentIsNode(n, k, i);
      q := StoredAbove(n, m, k + 1, i / 2, x);
    }
  }

  lemma {:induction false} ForgeryIsStored<T>(h: Hash2<T>, n: nat, g: Nodes<T>, m: Nodes<T>, e: set<Node>,
                                              k: nat, i: nat, x: T)
    returns (q: Node)
    requires n >= 1 && IsTree(h, n, g) && Inv(n, g, m, e)
    requires IsNode(n, k, i) && AllTrue(m, g) && ((k, i) !in e || (k, i) in m)
    requires var r := FirstKnown(n, m, k, i); !Closed(n, m, r.0, r.1)
    ensures var w := Forge(n, g, m, k, i, x);
      TestFrom(h, n, m, k, i, g[(k, i)], w) && q in Cached(n, m, k, i, w) && Cached(n, m, k, i, w)[q] == x
    decreases Height(n) - k
  {
    HeightExact(n, k);
    if (k, i) in m {
      q := StoredAbove(n, m, k, i, x);
    } else {
      ParentIsNode(n, k, i);
      assert NodeOk(n, g, m, e, (k, i)) && NodeOk(n, g, m, e, (k, Sibling(i)));
      assert Parent((k, Sibling(i))) == Parent((k, i));
      ForgeStep(h, n, g, m, k, i, x);
      q := ForgeryIsStored(h, n, g, m, e, k + 1, i / 2, x);
      CachedKeys(n, m, k + 1, i / 2, Forge(n, g, m, k + 1, i / 2, x));
    }
  }

  lemma {:induction false} ForgeStep<T>(h: Hash2<T>, n: nat, g: Nodes<T>, m: Nodes<T>, k: nat, i: nat, x: T)
    requires n >= 1 && IsTree(h, n, g) && IsNode(n, k, i) && (k, i) !in m && k < Height(n)
    ensures IsNode(n, k + 1, i / 2)
    ensures var w := Forge(n, g, m, k, i, x);
      && NextChain(n, k, i, w) == Forge(n, g, m, k + 1, i / 2, x)
      && NextHash(h, n, k, i, g[(k, i)], w) == g[(k + 1, i / 2)]
  {
    HeightExact(n, k);
    ParentIsNode(n, k, i);
    assert ParentOk(h, n, g, k, i / 2);
    if HasSibling(n, k, i) {
      assert IsNode(n, k, Sibling(i));
      assert Forge(n, g, m, k, i, x)[1..] == Forge(n, g, m, k + 1, i / 2, x);
    }
  }
}
