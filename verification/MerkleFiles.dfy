// The hash tree of a file whose chunks are hashed one after another.
module MerkleFiles {
  import opened Arithmetic
  import opened MerkleFill
  import opened MerkleShape
  import opened MerkleSpec
  import opened MerkleStream

  // The leaves of a file: one for each chunk of 32 KiB.
  function Leaves(size: nat): nat {
    (size + CHUNK - 1) / CHUNK
  }

  // What `root` reads: a cell that is not known holds zeros.
  function RootOf<T>(n: nat, m: Nodes<T>, blank: T): T {
    if (Height(n), 0) in m then m[(Height(n), 0)] else blank
  }

  // The tree after the leaves from `j` on have been set.
  function Extend<T>(h: Hash2<T>, n: nat, m: Nodes<T>, j: nat, rs: seq<T>): Nodes<T>
    requires j + |rs| <= n
  {
    if rs == [] then m
    else
      var k := |rs| - 1;
      SetLeaf(h, n, Extend(h, n, m, j, rs[..k]), j + k, rs[k])
  }

  lemma ExtendSnoc<T>(h: Hash2<T>, n: nat, m: Nodes<T>, j: nat, rs: seq<T>, r: T)
    requires j + |rs| < n
    ensures Extend(h, n, m, j, rs + [r]) == SetLeaf(h, n, Extend(h, n, m, j, rs), j + |rs|, r)
  {
    hide SetLeaf;
    assert (rs + [r])[..|rs|] == rs;
  }

  lemma {:induction false} ExtendTwice<T>(h: Hash2<T>, n: nat, m: Nodes<T>, j: nat, a: seq<T>, b: seq<T>)
    requires j + |a| + |b| <= n
    ensures Extend(h, n, Extend(h, n, m, j, a), j + |a|, b) == Extend(h, n, m, j, a + b)
    decreases |b|
  {
    hide SetLeaf;
    if b == [] {
      assert a + b == a;
    } else {
      var k := |b| - 1;
      ExtendTwice(h, n, m, j, a, b[..k]);
      assert a + b[..k] + [b[k]] == a + b;
      ExtendSnoc(h, n, m, j, a + b[..k], b[k]);
    }
  }

  lemma {:induction false} ExtendFills<T>(h: Hash2<T>, rs: seq<T>, leaves: seq<T>)
    requires rs <= leaves
    ensures var m := Extend(h, |leaves|, map[], 0, rs);
      FillInv(|leaves|, TreeOf(h, leaves), m) && forall j: nat :: (0, j) in m <==> j < |rs|
    decreases |rs|
  {
    if rs != [] {
      var k := |rs| - 1;
      ExtendFills(h, rs[..k], leaves);
      TreeOfIsTree(h, leaves);
      SetLeafKeepsInv(h, |leaves|, TreeOf(h, leaves), Extend(h, |leaves|, map[], 0, rs[..k]), k);
    }
  }

  // The root is not known before the last leaf is.
  lemma {:induction false} RootOfPart<T>(h: Hash2<T>, n: nat, rs: seq<T>, blank: T)
    requires |rs| < n
    ensures RootOf(n, Extend(h, n, map[], 0, rs), blank) == blank
  {
    hide Extend, TreeOf, FillInv, IsNode;
    var leaves := rs + seq(n - |rs|, _ => blank);
    ExtendFills(h, rs, leaves);
    LastUnknown(n, TreeOf(h, leaves), Extend(h, n, map[], 0, rs));
  }

  lemma LastUnknown<T>(n: nat, g: Nodes<T>, m: Nodes<T>)
    requires n > 0 && FillInv(n, g, m) && (0, n - 1) !in m
    ensures (Height(n), 0) !in m
  {
    hide FillInv;
    var top, last := Height(n), n - 1;
    HeightExact(n, top);
    UpIsNode(n, last, top);
    KnownIffLeavesKnown(n, g, m, top, 0);
    assert Up(last, top) == 0;
  }

  // With all leaves set it is the reference tree, with the recursive root.
  lemma {:induction false} ExtendCompletes<T>(h: Hash2<T>, rs: seq<T>, blank: T)
    requires rs != []
    ensures Extend(h, |rs|, map[], 0, rs) == TreeOf(h, rs)
    ensures RootOf(|rs|, TreeOf(h, rs), blank) == Root(h, rs)
  {
    ExtendFills(h, rs, rs);
    TreeTop(h, rs);
    FullIsWhole(|rs|, TreeOf(h, rs), Extend(h, |rs|, map[], 0, rs));
  }

  lemma FullIsWhole<T>(n: nat, g: Nodes<T>, m: Nodes<T>)
    requires FillInv(n, g, m) && forall j: nat :: j < n ==> (0, j) in m
    requires forall k: nat, i: nat :: (k, i) in g <==> IsNode(n, k, i)
    ensures m == g
  {
    assert m.Keys <= g.Keys && forall q :: q in m ==> m[q] == g[q];
    hide FillInv;
    forall q | q in g
      ensures q in m
    {
      assert q == (q.0, q.1);
      KnownIffLeavesKnown(n, g, m, q.0, q.1);
    }
    assert m.Keys == g.Keys;
  }

  // ----- chunks -----

  function ChunkAt<B>(d: seq<B>, k: nat): seq<B>
    requires k * CHUNK <= |d|
  {
    d[k * CHUNK..if k * CHUNK + CHUNK < |d| then k * CHUNK + CHUNK else |d|]
  }

  lemma ChunkBlocks<B>(d: seq<B>, k: nat)
    requires k * CHUNK <= |d|
    ensures |d| % BLOCK == 0 ==> |ChunkAt(d, k)| % BLOCK == 0
  {
    if |d| % BLOCK == 0 {
      var q := |d| / BLOCK;
      assert |d| == BLOCK * q && k * CHUNK == BLOCK * (32 * k);
      ModUnique(|d| - k * CHUNK, BLOCK, q - 32 * k, 0);
    }
  }

  lemma ChunkRootsFirst<B, T>(leaf: seq<B> -> T, h: Hash2<T>, a: seq<B>)
    requires |a| >= CHUNK
    ensures BlockHashes(leaf, a[..CHUNK]) != []
    ensures ChunkRoots(leaf, h, a) == [Root(h, BlockHashes(leaf, a[..CHUNK]))] + ChunkRoots(leaf, h, a[CHUNK..])
  {
    hide Root;
    assert |a| == CHUNK ==> a[..CHUNK] == a && a[CHUNK..] == [];
  }

  lemma CutConcat<B>(a: seq<B>, b: seq<B>, c: nat)
    requires c <= |a|
    ensures (a + b)[..c] == a[..c] && (a + b)[c..] == a[c..] + b
  {
  }

  lemma {:induction false} ChunkRootsConcat<B, T>(leaf: seq<B> -> T, h: Hash2<T>, a: seq<B>, b: seq<B>)
    requires |a| % CHUNK == 0
    ensures ChunkRoots(leaf, h, a + b) == ChunkRoots(leaf, h, a) + ChunkRoots(leaf, h, b)
    decreases |a|
  {
    if a == [] {
      assert a + b == b;
    } else {
      hide ChunkRoots, BlockHashes, Root;
      var first, rest := a[..CHUNK], a[CHUNK..];
      CutConcat(a, b, CHUNK);
      ModUnique(|rest|, CHUNK, |a| / CHUNK - 1, 0);
      ChunkRootsConcat(leaf, h, rest, b);
      ChunkRootsFirst(leaf, h, a);
      ChunkRootsFirst(leaf, h, a + b);
      var r := Root(h, BlockHashes(leaf, first));
      ConcatIsAssociative([r], ChunkRoots(leaf, h, rest), ChunkRoots(leaf, h, b));
    }
  }

  lemma {:induction false} ChunkRootsCount<B, T>(leaf: seq<B> -> T, h: Hash2<T>, a: seq<B>)
    ensures |ChunkRoots(leaf, h, a)| == Leaves(|a|)
    decreases |a|
  {
    hide Root;
    if a != [] {
      var c := if |a| <= CHUNK then |a| else CHUNK;
      ChunkRootsCount(leaf, h, a[c..]);
    }
  }

  lemma {:induction false} ChunkRootAt<B, T>(leaf: seq<B> -> T, h: Hash2<T>, d: seq<B>, k: nat)
    requires k < Leaves(|d|)
    ensures k * CHUNK < |d| && |ChunkRoots(leaf, h, d)| == Leaves(|d|)
    ensures ReferenceRoot(leaf, h, ChunkAt(d, k)) == Hash(ChunkRoots(leaf, h, d)[k])
    decreases k
  {
    ChunkRootsCount(leaf, h, d);
    if k == 0 {
      hide Root;
      var c := if |d| <= CHUNK then |d| else CHUNK;
      assert ChunkAt(d, 0) == d[..c];
    } else {
      hide BlockHashes, Root, ChunkRoots, ReferenceRoot;
      var rest := d[CHUNK..];
      ChunkRootsFirst(leaf, h, d);
      ChunkRootAt(leaf, h, rest, k - 1);
      NextChunk(d, k);
    }
  }

  lemma NextChunk<B>(d: seq<B>, k: nat)
    requires k > 0 && k * CHUNK <= |d|
    ensures ChunkAt(d[CHUNK..], k - 1) == ChunkAt(d, k)
  {
    var to := if k * CHUNK + CHUNK < |d| then k * CHUNK + CHUNK else |d|;
    assert d[CHUNK..][(k - 1) * CHUNK..to - CHUNK] == d[k * CHUNK..to];
  }

  // The hash of chunk `k` of `d`. A chunk that is not made of whole blocks makes
  // the cursor of `compute_root` jump over its end; its hash may be anything.
  method HashChunk<B, T>(leaf: seq<B> -> T, h: Hash2<T>, d: seq<B>, k: nat) returns (r: T)
    requires k < Leaves(|d|)
    ensures |d| % BLOCK == 0 ==> |ChunkRoots(leaf, h, d)| == Leaves(|d|) && r == ChunkRoots(leaf, h, d)[k]
  {
    hide BlockHashes, Root, ChunkRoots, ReferenceRoot, ChunkAt;
    ChunkRootAt(leaf, h, d, k);
    ChunkBlocks(d, k);
    var res := ComputeRoot(leaf, h, ChunkAt(d, k));
    r := if res.Hash? then res.root else leaf([]);
  }

  // ----- judging -----

  predicate LeafIs<T(==)>(m: Nodes<T>, i: nat, r: T) {
    (0, i) in m && m[(0, i)] == r
  }

  // The leaves from `j` on are known to be `rs`.
  predicate AllKnown<T(==)>(m: Nodes<T>, j: nat, rs: seq<T>) {
    forall k :: 0 <= k < |rs| ==> LeafIs(m, j + k, rs[k])
  }

  lemma AllKnownSnoc<T>(m: Nodes<T>, j: nat, rs: seq<T>, r: T)
    ensures AllKnown(m, j, rs + [r]) <==> AllKnown(m, j, rs) && LeafIs(m, j + |rs|, r)
  {
    hide LeafIs;
    var s := rs + [r];
    assert s[|rs|] == r;
    if AllKnown(m, j, s) {
      forall k | 0 <= k < |rs|
        ensures LeafIs(m, j + k, rs[k])
      {
        assert s[k] == rs[k];
      }
    }
  }

  // The chunks of a piece, in a tree of `n` leaves: they are compared with its
  // leaves from `j0` on, or become its leaves. There is no cell for a leaf behind
  // the last.
  method JudgeChunks<B, T(==)>(leaf: seq<B> -> T, h: Hash2<T>, n: nat, m0: Nodes<T>, j0: nat, rootOk: bool, d: seq<B>,
                               readable: bool)
    returns (ok: bool, m: Nodes<T>, ghost rs: seq<T>)
    ensures |rs| == Leaves(|d|) && (|d| % BLOCK == 0 ==> rs == ChunkRoots(leaf, h, d))
    ensures (ok ==> readable) && (rootOk ==> m == m0)
    ensures j0 + |rs| <= n ==> if rootOk then ok <==> readable && AllKnown(m0, j0, rs)
      else ok == readable && m == Extend(h, n, m0, j0, rs)
  {
    hide ChunkRoots, SetLeaf, AllKnown;
    ChunkRootsCount(leaf, h, d);
    ok, m, rs := readable, m0, [];
    assert AllKnown(m0, j0, rs) by { AllKnownEmpty(m0, j0); }
    for k := 0 to Leaves(|d|)
      invariant |rs| == k && (|d| % BLOCK == 0 ==> rs == ChunkRoots(leaf, h, d)[..k])
      invariant (ok ==> readable) && (rootOk ==> m == m0)
      invariant j0 + k <= n ==> if rootOk then ok <==> readable && AllKnown(m0, j0, rs)
        else ok == readable && m == Extend(h, n, m0, j0, rs)
    {
      var r := HashChunk(leaf, h, d, k);
      var j := j0 + k;
      if j >= n {
        var same: bool := *;
        var tree: Nodes<T> := *;
        ok, m := ok && same, if rootOk then m else tree;
      } else if rootOk {
        AllKnownSnoc(m0, j0, rs, r);
        if ok && ((0, j) !in m || m[(0, j)] != r) {
          ok := false;
        }
      } else {
        ExtendSnoc(h, n, m0, j0, rs, r);
        m := SetLeaf(h, n, m, j, r);
      }
      rs := rs + [r];
    }
  }

  lemma AllKnownEmpty<T>(m: Nodes<T>, j: nat)
    ensures AllKnown(m, j, [])
  {
  }
}
