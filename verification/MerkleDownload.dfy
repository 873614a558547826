// From the wire to the disk: what the hash tree that peers filled says of the
// pieces that are hashed again.
module MerkleDownload {
  import opened FileRange
  import opened MerkleFiles
  import opened MerklePieces
  import opened MerkleProofs
  import opened MerkleShape
  import opened MerkleSoundness
  import opened MerkleSpec
  import MerkleStream
  import opened StreamInt
  import T = Torrent

  // The chunks of the piece are the ones of the list.
  predicate HasChunks(b: Before, j: nat, p: nat, leaves: seq<Hash20>)
    requires b.l.cb > 0 && j < |b.l.files| == |b.files| && p < |b.l.sizes| && InRange(b.l, j, p) && b.Reads(j, p)
  {
    var at, n := LeavesBefore(b.l, j, p), |b.Hashes(j, p)|;
    at + n <= |leaves| && leaves[at..at + n] == b.Hashes(j, p)
  }

  predicate LeavesThere(m: T.Tree, at: nat, n: nat) {
    forall i :: at <= i < at + n ==> (0, i) in m
  }

  // The tree of file `j` started from the root of its true chunks, and took any
  // offers of any peers.
  ghost predicate Filled(b: Before, j: nat, leaves: seq<Hash20>, offers: seq<Offer<Hash20>>)
    requires b.Fits() && j < |b.files|
  {
    && |leaves| == b.Size(j) > 0 && b.roots[j] == Root(b.inner, leaves) && (forall o <- offers :: o.leaf < |leaves|)
    && b.trees[j] == Run(b.inner, |leaves|, RootOnly(|leaves|, Root(b.inner, leaves)), offers)
  }

  // The piece has the true chunks, and all of them have been accepted from somebody.
  predicate IsTrue(b: Before, j: nat, p: nat, leaves: seq<Hash20>)
    requires b.l.cb > 0 && j < |b.l.files| == |b.files| == |b.trees| && p < |b.l.sizes| && InRange(b.l, j, p)
  {
    && b.Reads(j, p) && HasChunks(b, j, p, leaves)
    && LeavesThere(b.trees[j], LeavesBefore(b.l, j, p), |b.Hashes(j, p)|)
  }

  // When such a file is hashed again, exactly the true pieces are valid, if there
  // is no collision of the hash in what was offered.
  lemma {:induction false} ValidPiecesAreTrue(b: Before, j: nat, leaves: seq<Hash20>, offers: seq<Offer<Hash20>>,
                                              tree: T.Tree, valid: seq<bool>, p: nat)
    requires b.Fits() && j < |b.files| && |valid| == |b.valid| && b.Sound(j) && Judged(b, true, j, tree, valid)
    requires Filled(b, j, leaves, offers) && CollisionOf(b.inner, |leaves|, TreeOf(b.inner, leaves), offers).None?
    requires p < |valid| && InRange(b.l, j, p)
    ensures valid[p] <==> IsTrue(b, j, p, leaves)
  {
    hide *;
    FilledIsTrue(b, j, leaves, offers);
    JudgedIsKnown(b, j, tree, valid, p);
    KnownIsThere(b, j, leaves, p);
  }

  // Two messages of one digest.
  predicate SameDigest(digest: Bytes -> Hash20, s: Bytes, t: Bytes) {
    s != t && digest(s) == digest(t)
  }

  // The bytes that are hashed for an inner node.
  function Message(a: Hash20, b: Hash20): Bytes {
    [1] + a + b
  }

  // If not, there are two messages of 41 bytes with one digest, and whoever has
  // the true chunks can read them off the offers.
  lemma {:induction false} WrongPieceCollides(b: Before, j: nat, digest: Bytes -> Hash20, leaves: seq<Hash20>,
                                              offers: seq<Offer<Hash20>>, tree: T.Tree, valid: seq<bool>, p: nat)
    requires b.Fits() && j < |b.files| && |valid| == |b.valid| && b.Sound(j) && Judged(b, true, j, tree, valid)
    requires b.inner == InnerHash(digest) && Filled(b, j, leaves, offers) && p < |valid| && InRange(b.l, j, p)
    requires valid[p] != IsTrue(b, j, p, leaves)
    ensures var g := TreeOf(b.inner, leaves); var c := CollisionOf(b.inner, |leaves|, g, offers);
      && c.Some? && (c.value.k, 2 * c.value.p) in g && (c.value.k, 2 * c.value.p + 1) in g
      && SameDigest(digest, Message(c.value.a, c.value.b),
           Message(g[(c.value.k, 2 * c.value.p)], g[(c.value.k, 2 * c.value.p + 1)]))
  {
    hide *;
    OffersFit(b, j, leaves, offers);
    var g := TreeOf(b.inner, leaves);
    var c := CollisionOf(b.inner, |leaves|, g, offers);
    if c.None? {
      ValidPiecesAreTrue(b, j, leaves, offers, tree, valid, p);
    }
    CollidingMessages(digest, g, c.value);
  }

  lemma OffersFit(b: Before, j: nat, leaves: seq<Hash20>, offers: seq<Offer<Hash20>>)
    requires b.Fits() && j < |b.files| && Filled(b, j, leaves, offers)
    ensures forall o <- offers :: o.leaf < |leaves|
  {
  }

  lemma CollidingMessages(digest: Bytes -> Hash20, g: Nodes<Hash20>, c: Pair<Hash20>)
    requires Collides(InnerHash(digest), g, c)
    ensures var l, r := (c.k, 2 * c.p), (c.k, 2 * c.p + 1);
      l in g && r in g && SameDigest(digest, Message(c.a, c.b), Message(g[l], g[r]))
  {
    MessageIsInjective(c.a, c.b, g[(c.k, 2 * c.p)], g[(c.k, 2 * c.p + 1)]);
  }

  lemma MessageIsInjective(a: Hash20, b: Hash20, c: Hash20, d: Hash20)
    ensures Message(a, b) == Message(c, d) ==> a == c && b == d
  {
    assert Message(a, b)[1..21] == a && Message(a, b)[21..] == b;
    assert Message(c, d)[1..21] == c && Message(c, d)[21..] == d;
  }

  // For any two leaves there is a digest such that no other two hashes have the
  // hash of their node.
  lemma {:induction false} SomeDigestIsSafe(x: Hash20, y: Hash20, z: Hash20) returns (digest: Bytes -> Hash20)
    requires z != BLANK
    ensures NoSecondPreimage(InnerHash(digest), 2, TreeOf(InnerHash(digest), [x, y]))
  {
    digest := s => if s == Message(x, y) then z else BLANK;
    var h := InnerHash(digest);
    forall a: Hash20, b: Hash20 | h(a, b) == h(x, y)
      ensures a == x && b == y
    {
      MessageIsInjective(a, b, x, y);
    }
    hide *;
    TwoLeavesSafe(h, x, y);
  }

  lemma KnownIsThere(b: Before, j: nat, leaves: seq<Hash20>, p: nat)
    requires b.Fits() && j < |b.files| && b.Sound(j) && |leaves| == b.Size(j) && OnlyTrue(b.trees[j], leaves)
    requires p < |b.valid| && InRange(b.l, j, p)
    ensures b.Known(j, p) <==> IsTrue(b, j, p, leaves)
  {
    hide AllKnown, LeavesThere, OnlyTrue, LeavesBefore, T.CanRead, MerkleStream.ChunkRoots;
    if b.Reads(j, p) {
      LeavesOfPiece(b, j, p);
      KnownIsTrue(b.trees[j], leaves, LeavesBefore(b.l, j, p), b.Hashes(j, p));
    }
  }

  lemma FilledIsTrue(b: Before, j: nat, leaves: seq<Hash20>, offers: seq<Offer<Hash20>>)
    requires b.Fits() && j < |b.files| && Filled(b, j, leaves, offers)
    requires CollisionOf(b.inner, |leaves|, TreeOf(b.inner, leaves), offers).None?
    ensures b.RootOk(j) && |leaves| == b.Size(j) && OnlyTrue(b.trees[j], leaves)
  {
    hide Run, CollisionOf, Root;
    RunKeepsRoot(b.inner, |leaves|, RootOnly(|leaves|, Root(b.inner, leaves)), offers);
    OnlyTrueUnlessCollision(b.inner, leaves, offers);
  }

  predicate OnlyTrue(m: T.Tree, leaves: seq<Hash20>) {
    forall i :: 0 <= i < |leaves| ==> (0, i) in m ==> m[(0, i)] == leaves[i]
  }

  lemma JudgedIsKnown(b: Before, j: nat, tree: T.Tree, valid: seq<bool>, p: nat)
    requires b.Fits() && j < |b.files| && |valid| == |b.valid| && b.Sound(j) && Judged(b, true, j, tree, valid)
    requires b.RootOk(j) && p < |valid| && InRange(b.l, j, p)
    ensures valid[p] <==> b.Known(j, p)
  {
  }

  lemma LeavesOfPiece(b: Before, j: nat, p: nat)
    requires b.Fits() && j < |b.files| && b.Sound(j) && p < |b.valid| && InRange(b.l, j, p) && b.Reads(j, p)
    ensures LeavesBefore(b.l, j, p) + |b.Hashes(j, p)| <= b.Size(j)
  {
    LeavesStep(b.l, j, p);
    ChunkRootsCount(b.leaf, b.inner, DataOf(b.l, b.files[j], j, p));
  }

  // In a tree of true leaves, leaves are known to be `rs` if they are true and there.
  lemma KnownIsTrue(m: T.Tree, leaves: seq<Hash20>, at: nat, rs: seq<Hash20>)
    requires at + |rs| <= |leaves| && OnlyTrue(m, leaves)
    ensures AllKnown(m, at, rs) <==> leaves[at..at + |rs|] == rs && LeavesThere(m, at, |rs|)
  {
    if AllKnown(m, at, rs) {
      forall k | 0 <= k < |rs|
        ensures leaves[at + k] == rs[k]
      {
        assert LeafIs(m, at + k, rs[k]);
      }
      forall i | at <= i < at + |rs|
        ensures (0, i) in m
      {
        assert LeafIs(m, at + (i - at), rs[i - at]);
      }
    } else {
      var k :| 0 <= k < |rs| && !LeafIs(m, at + k, rs[k]);
      assert leaves[at..at + |rs|] == rs ==> leaves[at..at + |rs|][k] == leaves[at + k];
    }
  }
}
