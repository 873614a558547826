// The root of a file binds its bytes: two files with one root give two messages
// with one digest, among those that are hashed for them.
module MerkleBinding {
  import opened Arithmetic
  import opened FileRange
  import opened MerkleDownload
  import opened MerklePieces
  import opened MerkleShape
  import opened MerkleSpec
  import opened MerkleStream
  import opened StreamInt
  import opened Torrent

  // The bytes that are hashed for a block.
  function BlockMessage(block: Bytes): Bytes {
    [0] + block
  }

  // What is hashed, and that a block is never taken for a node.
  lemma HashesOf(digest: Bytes -> Hash20, block: Bytes, a: Hash20, b: Hash20)
    ensures LeafHash(digest)(block) == digest(BlockMessage(block))
    ensures InnerHash(digest)(a, b) == digest(Message(a, b))
    ensures BlockMessage(block) != Message(a, b)
  {
    assert BlockMessage(block)[0] == 0 && Message(a, b)[0] == 1;
  }

  // ----- blocks -----

  // The bytes in blocks of 1024; the last may be shorter.
  function Blocks(r: Bytes): (bs: seq<Bytes>)
    ensures r != [] <==> bs != []
    decreases |r|
  {
    if r == [] then []
    else if |r| <= 1024 then [r]
    else [r[..1024]] + Blocks(r[1024..])
  }

  function Joined(bs: seq<Bytes>): Bytes {
    if bs == [] then [] else bs[0] + Joined(bs[1..])
  }

  lemma {:induction false} BlocksJoined(r: Bytes)
    ensures Joined(Blocks(r)) == r
    decreases |r|
  {
    if |r| > 1024 {
      BlocksJoined(r[1024..]);
      assert ([r[..1024]] + Blocks(r[1024..]))[1..] == Blocks(r[1024..]);
      assert r[..1024] + r[1024..] == r;
    } else if r != [] {
      assert [r][1..] == [] && r + [] == r;
    }
  }

  function Leaves(digest: Bytes -> Hash20, bs: seq<Bytes>): (xs: seq<Hash20>)
    ensures |xs| == |bs|
  {
    seq<Hash20>(|bs|, i requires 0 <= i < |bs| => digest(BlockMessage(bs[i])))
  }

  lemma {:induction false} BlocksAreHashed(digest: Bytes -> Hash20, r: Bytes)
    ensures BlockHashes(LeafHash(digest), r) == Leaves(digest, Blocks(r))
    decreases |r|
  {
    if |r| > 1024 {
      var first, rest := r[..1024], r[1024..];
      BlocksAreHashed(digest, rest);
      LeavesCons(digest, first, Blocks(rest));
      assert LeafHash(digest)(first) == digest(BlockMessage(first));
    } else if r != [] {
      assert Leaves(digest, [r]) == [digest(BlockMessage(r))];
      assert LeafHash(digest)(r) == digest(BlockMessage(r));
    }
  }

  lemma LeavesCons(digest: Bytes -> Hash20, b: Bytes, bs: seq<Bytes>)
    ensures Leaves(digest, [b] + bs) == [digest(BlockMessage(b))] + Leaves(digest, bs)
  {
  }

  // ----- the tree from its top -----

  // The leaves under the left child of a root: the largest power of two below `n`.
  function Half(n: nat): (p: nat)
    requires n > 1
    ensures 0 < p < n
  {
    if n == 2 then 1 else 2 * Half((n + 1) / 2)
  }

  lemma {:induction false} HalfIsPower(n: nat) returns (k: nat)
    requires n > 1
    ensures Half(n) == Pow2(k) && n <= 2 * Half(n)
  {
    k := 0;
    if n > 2 {
      k := HalfIsPower((n + 1) / 2);
      k := k + 1;
    }
  }

  lemma {:induction false} RootSplits<T>(h: Hash2<T>, xs: seq<T>)
    requires |xs| > 1
    ensures var p := Half(|xs|); Root(h, xs) == h(Root(h, xs[..p]), Root(h, xs[p..]))
  {
    var p := Half(|xs|);
    var k := HalfIsPower(|xs|);
    var a, b := xs[..p], xs[p..];
    assert a + b == xs;
    LevelConcat(h, a, b, k, k);
    LevelOfShort(h, a, k);
    LevelOfShort(h, b, k);
    RootOfLevel(h, xs, k);
    hide Level;
    RootOfTwo(h, Root(h, a), Root(h, b));
  }

  lemma RootOfTwo<T>(h: Hash2<T>, x: T, y: T)
    ensures Root(h, [x, y]) == h(x, y)
  {
    assert [x, y][2..] == [];
    assert PairUp(h, [x, y]) == [h(x, y)];
  }

  // ----- binding -----

  function RootOfBlocks(digest: Bytes -> Hash20, bs: seq<Bytes>): Hash20
    requires bs != []
  {
    Root(InnerHash(digest), Leaves(digest, bs))
  }

  // The messages that are hashed for the root of these blocks.
  ghost function Messages(digest: Bytes -> Hash20, bs: seq<Bytes>): set<Bytes>
    requires bs != []
    decreases |bs|
  {
    if |bs| == 1 then {BlockMessage(bs[0])}
    else
      var left, right := bs[..Half(|bs|)], bs[Half(|bs|)..];
      {TopMessage(digest, bs)} + Messages(digest, left) + Messages(digest, right)
  }

  // The one that is hashed last.
  function TopMessage(digest: Bytes -> Hash20, bs: seq<Bytes>): Bytes
    requires bs != []
  {
    if |bs| == 1 then BlockMessage(bs[0])
    else Message(RootOfBlocks(digest, bs[..Half(|bs|)]), RootOfBlocks(digest, bs[Half(|bs|)..]))
  }

  lemma {:induction false} RootIsDigest(digest: Bytes -> Hash20, bs: seq<Bytes>)
    requires bs != []
    ensures RootOfBlocks(digest, bs) == digest(TopMessage(digest, bs)) && TopMessage(digest, bs) in Messages(digest, bs)
  {
    if |bs| > 1 {
      var p, xs := Half(|bs|), Leaves(digest, bs);
      RootSplits(InnerHash(digest), xs);
      assert xs[..p] == Leaves(digest, bs[..p]) && xs[p..] == Leaves(digest, bs[p..]);
    }
  }

  // Two messages of one digest, the first hashed for `bs` and the second for `cs`.
  ghost predicate Collision(digest: Bytes -> Hash20, bs: seq<Bytes>, cs: seq<Bytes>, x: Bytes, y: Bytes)
    requires bs != [] && cs != []
  {
    x in Messages(digest, bs) && y in Messages(digest, cs) && SameDigest(digest, x, y)
  }

  lemma {:induction false} BlocksBound(digest: Bytes -> Hash20, bs: seq<Bytes>, cs: seq<Bytes>)
    returns (x: Bytes, y: Bytes)
    requires bs != [] && cs != [] && bs != cs && RootOfBlocks(digest, bs) == RootOfBlocks(digest, cs)
    ensures Collision(digest, bs, cs, x, y)
    decreases |bs|
  {
    x, y := TopMessage(digest, bs), TopMessage(digest, cs);
    RootIsDigest(digest, bs);
    RootIsDigest(digest, cs);
    if x == y {
      hide TopMessage, RootOfBlocks, Half, Messages;
      SameTop(digest, bs, cs);
      var p, q := Half(|bs|), Half(|cs|);
      Halves(digest, bs);
      Halves(digest, cs);
      if bs[..p] != cs[..q] {
        x, y := BlocksBound(digest, bs[..p], cs[..q]);
      } else {
        x, y := BlocksBound(digest, bs[p..], cs[q..]);
      }
    }
  }

  lemma Halves(digest: Bytes -> Hash20, bs: seq<Bytes>)
    requires |bs| > 1
    ensures bs == bs[..Half(|bs|)] + bs[Half(|bs|)..]
    ensures Messages(digest, bs[..Half(|bs|)]) <= Messages(digest, bs)
    ensures Messages(digest, bs[Half(|bs|)..]) <= Messages(digest, bs)
  {
  }

  lemma TopTag(digest: Bytes -> Hash20, bs: seq<Bytes>)
    requires bs != []
    ensures TopMessage(digest, bs) != [] && (TopMessage(digest, bs)[0] == 0 <==> |bs| == 1)
  {
  }

  lemma SameTop(digest: Bytes -> Hash20, bs: seq<Bytes>, cs: seq<Bytes>)
    requires bs != [] && cs != [] && TopMessage(digest, bs) == TopMessage(digest, cs)
    ensures |bs| == 1 || |cs| == 1 ==> bs == cs
    ensures |bs| > 1 && |cs| > 1 ==> var p, q := Half(|bs|), Half(|cs|);
      && RootOfBlocks(digest, bs[..p]) == RootOfBlocks(digest, cs[..q])
      && RootOfBlocks(digest, bs[p..]) == RootOfBlocks(digest, cs[q..])
  {
    TopTag(digest, bs);
    TopTag(digest, cs);
    if |bs| == 1 {
      var x, y := bs[0], cs[0];
      assert BlockMessage(x)[1..] == x && BlockMessage(y)[1..] == y;
      assert bs == [x] && cs == [y];
    } else {
      var p, q := Half(|bs|), Half(|cs|);
      MessageIsInjective(RootOfBlocks(digest, bs[..p]), RootOfBlocks(digest, bs[p..]),
        RootOfBlocks(digest, cs[..q]), RootOfBlocks(digest, cs[q..]));
    }
  }

  // Two different files with one root, whatever their lengths, give a collision.
  lemma {:induction false} RootBindsFile(digest: Bytes -> Hash20, r: Bytes, s: Bytes) returns (x: Bytes, y: Bytes)
    requires r != [] && s != [] && r != s
    requires ReferenceRoot(LeafHash(digest), InnerHash(digest), r) ==
      ReferenceRoot(LeafHash(digest), InnerHash(digest), s)
    ensures Collision(digest, Blocks(r), Blocks(s), x, y)
  {
    BlocksAreHashed(digest, r);
    BlocksAreHashed(digest, s);
    BlocksJoined(r);
    BlocksJoined(s);
    x, y := BlocksBound(digest, Blocks(r), Blocks(s));
  }

  // A file that a run finds to be all there is the one that was published, or
  // there is such a collision.
  lemma {:induction false} ValidFileIsPublished(b: Before, j: nat, digest: Bytes -> Hash20, published: Bytes,
                                                tree: Tree, valid: seq<bool>, p: nat)
    returns (x: Bytes, y: Bytes)
    requires b.Fits() && j < |b.files| && |valid| == |b.valid| && b.l.files[j].size > 0
    requires b.leaf == LeafHash(digest) && b.inner == InnerHash(digest)
    requires published != [] && ReferenceRoot(b.leaf, b.inner, published) == Hash(b.roots[j])
    requires Judged(b, true, j, tree, valid) && b.Sound(j) && !b.RootOk(j) && b.trees[j] == map[] && AllRead(b, j)
    requires p < |valid| && InRange(b.l, j, p) && valid[p]
    ensures b.l.files[j].size <= |b.files[j].data|
    ensures var file := b.files[j].data[..b.l.files[j].size];
      file == published || Collision(digest, Blocks(file), Blocks(published), x, y)
  {
    WholeFile(b, j, tree, valid, p);
    var file := b.files[j].data[..b.l.files[j].size];
    x, y := [], [];
    hide *;
    if file != published {
      x, y := RootBindsFile(digest, file, published);
    }
  }
}
