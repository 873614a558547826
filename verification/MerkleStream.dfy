// The root of a byte string, computed block by block with a binary counter:
// slot `k` of the counter holds the hash of a perfect subtree of 2^k blocks.
module MerkleStream {
  import opened Arithmetic
  import opened MerkleShape
  import opened MerkleSpec

  const BLOCK := 1024
  const CHUNK := 0x8000

  // The counter `m`, from slot `k` up, stands for the finished nodes `ys` of
  // level `k`.
  ghost predicate Counts<T>(h: Hash2<T>, m: map<nat, T>, k: nat, ys: seq<T>)
    decreases |ys|
  {
    if ys == [] then
      forall j :: j in m ==> j < k
    else
      && (k in m <==> |ys| % 2 == 1)
      && (k in m ==> m[k] == ys[|ys| - 1])
      && Counts(h, m, k + 1, PairUp(h, Paired(ys)))
  }

  // The nodes that have a sibling already.
  function Paired<T>(ys: seq<T>): (r: seq<T>)
    ensures |r| % 2 == 0 && |ys| - 1 <= |r| <= |ys|
  {
    ys[..|ys| - |ys| % 2]
  }

  // Adds one to the counter.
  function Carry<T>(h: Hash2<T>, m: map<nat, T>, k: nat, x: T): map<nat, T>
    decreases |m|
  {
    if k in m then Carry(h, m - {k}, k + 1, h(m[k], x)) else m[k := x]
  }

  lemma {:induction false} CarryFrame<T>(h: Hash2<T>, m: map<nat, T>, k: nat, x: T)
    ensures forall j: nat :: j < k ==> (j in Carry(h, m, k, x) <==> j in m)
    decreases |m|
  {
    if k in m {
      CarryFrame(h, m - {k}, k + 1, h(m[k], x));
    }
  }

  lemma {:induction false} CountsFrame<T>(h: Hash2<T>, m: map<nat, T>, m': map<nat, T>, k: nat, ys: seq<T>)
    requires Counts(h, m, k, ys)
    requires forall j: nat :: j >= k ==> (j in m <==> j in m') && (j in m ==> m[j] == m'[j])
    ensures Counts(h, m', k, ys)
    decreases |ys|
  {
    if ys != [] {
      CountsFrame(h, m, m', k + 1, PairUp(h, Paired(ys)));
    }
  }

  lemma {:induction false} PairUpJoin<T>(h: Hash2<T>, low: seq<T>, a: T, b: T)
    requires |low| % 2 == 0
    ensures PairUp(h, low + [a, b]) == PairUp(h, low) + [h(a, b)]
  {
    PairUpConcat(h, low, [a, b]);
    assert PairUp(h, [a, b]) == [h(a, b)];
  }

  lemma {:induction false} PairUpPromote<T>(h: Hash2<T>, low: seq<T>, acc: seq<T>)
    requires |low| % 2 == 0 && |acc| <= 1
    ensures PairUp(h, low + acc) == PairUp(h, low) + acc
  {
    PairUpConcat(h, low, acc);
    assert PairUp(h, acc) == acc;
  }

  lemma {:induction false} CountsCarried<T>(h: Hash2<T>, m: map<nat, T>, k: nat, zs: seq<T>, up: seq<T>)
    requires zs != [] && |zs| % 2 == 0 && k !in m
    requires up == PairUp(h, zs) && Counts(h, m, k + 1, up)
    ensures Counts(h, m, k, zs)
  {
    assert Paired(zs) == zs;
  }

  // What a carry leaves to the slots above.
  lemma {:induction false} CarryUp<T>(h: Hash2<T>, m: map<nat, T>, k: nat, ys: seq<T>, x: T)
    requires Counts(h, m, k, ys) && k in m
    ensures Counts(h, m - {k}, k + 1, PairUp(h, Paired(ys))) && |ys + [x]| % 2 == 0
    ensures PairUp(h, ys + [x]) == PairUp(h, Paired(ys)) + [h(m[k], x)]
  {
    var low := Paired(ys);
    CountsFrame(h, m, m - {k}, k + 1, PairUp(h, low));
    hide Paired, PairUp;
    OddSplit(ys, x);
    hide Counts;
    PairUpJoin(h, low, m[k], x);
  }

  lemma OddSplit<T>(ys: seq<T>, x: T)
    requires |ys| % 2 == 1
    ensures |ys + [x]| % 2 == 0 && |Paired(ys)| % 2 == 0 && ys + [x] == Paired(ys) + [ys[|ys| - 1], x]
  {
  }

  lemma {:induction false} CarryCounts<T>(h: Hash2<T>, m: map<nat, T>, k: nat, ys: seq<T>, x: T)
    requires Counts(h, m, k, ys)
    ensures Counts(h, Carry(h, m, k, x), k, ys + [x])
    decreases |ys|
  {
    if k in m {
      var up, y := PairUp(h, Paired(ys)), h(m[k], x);
      CarryUp(h, m, k, ys, x);
      assert Carry(h, m, k, x) == Carry(h, m - {k}, k + 1, y);
      assert |up| < |ys|;
      hide *;
      CarryCounts(h, m - {k}, k + 1, up, y);
      CarryFrame(h, m - {k}, k + 1, y);
      CountsCarried(h, Carry(h, m - {k}, k + 1, y), k, ys + [x], up + [y]);
    } else {
      CountsPlaced(h, m, k, ys, x);
    }
  }

  lemma {:induction false} CountsPlaced<T>(h: Hash2<T>, m: map<nat, T>, k: nat, ys: seq<T>, x: T)
    requires Counts(h, m, k, ys) && k !in m
    ensures Counts(h, m[k := x], k, ys + [x])
  {
    assert Paired(ys + [x]) == ys;
    assert Paired(ys) == ys || ys == [];
    if ys == [] {
      assert PairUp(h, ys) == [];
    } else {
      CountsFrame(h, m, m[k := x], k + 1, PairUp(h, ys));
    }
    assert Counts(h, m[k := x], k + 1, PairUp(h, ys));
  }

  // ----- folding the counter -----

  lemma {:induction false} CountsNonEmpty<T>(h: Hash2<T>, m: map<nat, T>, k: nat, ys: seq<T>)
    requires Counts(h, m, k, ys) && ys != []
    ensures exists j :: j in m && j >= k
    decreases |ys|
  {
    if k !in m {
      assert Paired(ys) == ys;
      CountsNonEmpty(h, m, k + 1, PairUp(h, ys));
    }
  }

  // Going up to the lowest slot in use does not change the root; `acc` is the
  // pending right-hand part, if there is one.
  lemma {:induction false} SkipTo<T>(h: Hash2<T>, m: map<nat, T>, k: nat, ys: seq<T>, acc: seq<T>, j: nat)
    returns (zs: seq<T>)
    requires Counts(h, m, k, ys) && |acc| <= 1
    requires j in m && k <= j && forall i: nat :: i in m && k <= i ==> j <= i
    ensures ys != [] && zs != [] && Counts(h, m, j, zs) && Root(h, ys + acc) == Root(h, zs + acc)
    decreases j - k
  {
    zs := ys;
    if k < j {
      assert Paired(ys) == ys;
      PairUpPromote(h, ys, acc);
      zs := SkipTo(h, m, k + 1, PairUp(h, ys), acc, j);
    }
  }

  // The lowest slot becomes the pending part ...
  lemma {:induction false} TakeFirst<T>(h: Hash2<T>, m: map<nat, T>, k: nat, ys: seq<T>)
    requires Counts(h, m, k, ys) && k in m
    ensures ys != []
    ensures var zs := PairUp(h, Paired(ys)); Counts(h, m - {k}, k + 1, zs) && Root(h, zs + [m[k]]) == Root(h, ys)
  {
    var low := Paired(ys);
    assert ys == low + [m[k]];
    PairUpPromote(h, low, [m[k]]);
    CountsFrame(h, m, m - {k}, k + 1, PairUp(h, low));
  }

  // ... or is joined with it.
  lemma {:induction false} TakeNext<T>(h: Hash2<T>, m: map<nat, T>, k: nat, ys: seq<T>, x: T)
    requires Counts(h, m, k, ys) && k in m
    ensures var zs := PairUp(h, Paired(ys));
      Counts(h, m - {k}, k + 1, zs) && Root(h, zs + [h(m[k], x)]) == Root(h, ys + [x])
  {
    var low := Paired(ys);
    assert ys + [x] == low + [m[k], x];
    PairUpJoin(h, low, m[k], x);
    CountsFrame(h, m, m - {k}, k + 1, PairUp(h, low));
  }

  ghost predicate IsLowest<T>(m: map<nat, T>, j: nat) {
    j in m && forall i: nat :: i in m ==> j <= i
  }

  lemma {:induction false} LowestExists<T>(m: map<nat, T>)
    requires |m| > 0
    ensures exists j :: IsLowest(m, j)
    decreases |m|
  {
    var i :| i in m;
    if |m| > 1 {
      var m' := m - {i};
      LowestExists(m');
      var j: nat :| IsLowest(m', j);
      forall l: nat | l in m
        ensures l == i || j <= l
      {
        assert l == i || l in m';
      }
      assert IsLowest(m, if i < j then i else j);
    } else {
      assert m.Keys == {i} by {
        assert |m.Keys - {i}| == 0;
      }
      assert IsLowest(m, i);
    }
  }

  // map.begin()
  method Lowest<T>(m: map<nat, T>) returns (j: nat)
    requires |m| > 0
    ensures IsLowest(m, j)
  {
    LowestExists(m);
    j :| j in m && forall i: nat :: i in m ==> j <= i;
  }

  // Adds the hash of one block.
  method AddBlock<T>(h: Hash2<T>, m0: map<nat, T>, x0: T) returns (m: map<nat, T>)
    ensures m == Carry(h, m0, 0, x0)
  {
    var x, i := x0, 0;
    m := m0;
    while i in m
      invariant Carry(h, m0, 0, x0) == Carry(h, m, i, x)
      decreases |m|
    {
      x := h(m[i], x);
      m := m - {i};
      i := i + 1;
    }
    m := m[i := x];
  }

  // While folding: slot `low` is the pending right-hand part of a list whose
  // finished nodes, of level `k`, are in the other slots.
  ghost predicate Folding<T>(h: Hash2<T>, m: map<nat, T>, low: nat, k: nat, ys: seq<T>, root: T) {
    && IsLowest(m, low) && low < k
    && (forall j :: j in m && j != low ==> j >= k)
    && Counts(h, m - {low}, k, ys)
    && Root(h, ys + [m[low]]) == root
  }

  lemma {:induction false} FoldStart<T>(h: Hash2<T>, m: map<nat, T>, xs: seq<T>, low: nat) returns (ys: seq<T>)
    requires Counts(h, m, 0, xs) && IsLowest(m, low)
    ensures xs != [] && Folding(h, m, low, low + 1, ys, Root(h, xs))
  {
    var zs := SkipTo(h, m, 0, xs, [], low);
    assert xs + [] == xs && zs + [] == zs;
    TakeFirst(h, m, low, zs);
    ys := PairUp(h, Paired(zs));
  }

  lemma {:induction false} FoldStep<T>(h: Hash2<T>, m: map<nat, T>, low: nat, k: nat, ys: seq<T>, root: T, second: nat)
    returns (zs: seq<T>)
    requires Folding(h, m, low, k, ys, root) && IsLowest(m - {low}, second)
    ensures var m' := (m - {low} - {second})[0 := h(m[second], m[low])]; Folding(h, m', 0, second + 1, zs, root)
  {
    hide Counts, PairUp, Paired;
    var rest := m - {low};
    zs := SkipTo(h, rest, k, ys, [m[low]], second);
    TakeNext(h, rest, second, zs, m[low]);
    zs := PairUp(h, Paired(zs));
    var m' := (rest - {second})[0 := h(m[second], m[low])];
    assert m' - {0} == rest - {second};
  }

  lemma {:induction false} FoldEnd<T>(h: Hash2<T>, m: map<nat, T>, low: nat, k: nat, ys: seq<T>, root: T)
    requires Folding(h, m, low, k, ys, root) && |m| == 1
    ensures root == m[low]
  {
    assert |m.Keys - {low}| == 0;
    if ys != [] {
      CountsNonEmpty(h, m - {low}, k, ys);
    }
    assert ys + [m[low]] == [m[low]];
  }

  // Joins the slots, lowest first, to the root.
  method Fold<T>(h: Hash2<T>, m0: map<nat, T>, ghost xs: seq<T>) returns (r: T)
    requires Counts(h, m0, 0, xs) && |m0| > 0
    ensures xs != [] && r == Root(h, xs)
  {
    var m := m0;
    var low := Lowest(m);
    ghost var ys := FoldStart(h, m, xs, low);
    ghost var k := low + 1;
    while |m| > 1
      invariant Folding(h, m, low, k, ys, Root(h, xs))
      decreases |m|
    {
      var right := m[low];
      var second := Lowest(m - {low});
      ys := FoldStep(h, m, low, k, ys, Root(h, xs), second);
      m := m - {low};
      var left := m[second];
      m := m - {second};
      m := m[0 := h(left, right)];
      k, low := second + 1, 0;
    }
    FoldEnd(h, m, low, k, ys, Root(h, xs));
    r := m[low];
  }

  // ----- bytes -----

  // The hashes of the 1 KiB blocks; the last block may be shorter.
  function BlockHashes<B, T>(leaf: seq<B> -> T, r: seq<B>): seq<T>
    decreases |r|
  {
    if r == [] then []
    else if |r| <= BLOCK then [leaf(r)]
    else [leaf(r[..BLOCK])] + BlockHashes(leaf, r[BLOCK..])
  }

  lemma {:induction false} BlockHashesStep<B, T>(leaf: seq<B> -> T, b: seq<B>, r: seq<B>)
    requires |b| == BLOCK
    ensures BlockHashes(leaf, b + r) == [leaf(b)] + BlockHashes(leaf, r)
  {
    if r == [] {
      assert b + r == b;
    } else {
      assert (b + r)[..BLOCK] == b && (b + r)[BLOCK..] == r;
    }
  }

  lemma {:induction false} BlockHashesConcat<B, T>(leaf: seq<B> -> T, a: seq<B>, b: seq<B>)
    requires |a| % BLOCK == 0
    ensures BlockHashes(leaf, a + b) == BlockHashes(leaf, a) + BlockHashes(leaf, b)
    decreases |a|
  {
    if a == [] {
      assert a + b == b;
    } else {
      var first, rest := a[..BLOCK], a[BLOCK..];
      assert a == first + rest && a + b == first + (rest + b);
      BlockHashesStep(leaf, first, rest);
      BlockHashesStep(leaf, first, rest + b);
      BlockHashesConcat(leaf, rest, b);
    }
  }

  method AddBytes<B, T>(leaf: seq<B> -> T, h: Hash2<T>, m0: map<nat, T>, ghost r: seq<B>, b: seq<B>)
    returns (m: map<nat, T>)
    requires |r| % BLOCK == 0 && 0 < |b| <= BLOCK
    requires Counts(h, m0, 0, BlockHashes(leaf, r))
    ensures Counts(h, m, 0, BlockHashes(leaf, r + b))
  {
    m := AddBlock(h, m0, leaf(b));
    BlockHashesConcat(leaf, r, b);
    CarryCounts(h, m0, 0, BlockHashes(leaf, r), leaf(b));
  }

  datatype RootResult<T> = Empty | Hash(root: T) | Overrun

  function ReferenceRoot<B, T>(leaf: seq<B> -> T, h: Hash2<T>, r: seq<B>): RootResult<T> {
    var xs := BlockHashes(leaf, r);
    if xs == [] then Empty else Hash(Root(h, xs))
  }

  method Finish<B, T>(leaf: seq<B> -> T, h: Hash2<T>, m: map<nat, T>, ghost r: seq<B>) returns (res: RootResult<T>)
    requires Counts(h, m, 0, BlockHashes(leaf, r))
    ensures res == ReferenceRoot(leaf, h, r)
  {
    ghost var xs := BlockHashes(leaf, r);
    if |m| == 0 {
      if xs != [] {
        CountsNonEmpty(h, m, 0, xs);
      }
      return Empty;
    }
    var root := Fold(h, m, xs);
    res := Hash(root);
  }

  lemma WholeBlocks(n: int, k: int)
    requires n == BLOCK * k
    ensures n % BLOCK == 0
  {
  }

  lemma NotBlocks(n: int, k: int)
    requires BLOCK * k < n < BLOCK * k + BLOCK
    ensures n % BLOCK != 0
  {
  }

  // Cmerkle_tree::compute_root. The cursor always moves by a whole block, so a
  // short last block makes it jump over the end of the range, and the next
  // block has a negative size.
  method ComputeRoot<B, T>(leaf: seq<B> -> T, h: Hash2<T>, r: seq<B>) returns (res: RootResult<T>)
    ensures res == if |r| % BLOCK == 0 then ReferenceRoot(leaf, h, r) else Overrun
  {
    var m: map<nat, T> := map[];
    var pos := 0;
    ghost var done, k := [], 0;
    while pos != |r|
      invariant 0 <= pos == BLOCK * k && pos < |r| + BLOCK
      invariant pos <= |r| ==> done == r[..pos]
      invariant Counts(h, m, 0, BlockHashes(leaf, done))
      decreases |r| + BLOCK - pos
    {
      var cb := if |r| - pos < BLOCK then |r| - pos else BLOCK;
      if cb < 0 {
        NotBlocks(|r|, k - 1);
        return Overrun;
      }
      var block := r[pos..pos + cb];
      WholeBlocks(|done|, k);
      m := AddBytes(leaf, h, m, done, block);
      done := done + block;
      pos := pos + BLOCK;
      k := k + 1;
    }
    WholeBlocks(|r|, k);
    assert done == r;
    res := Finish(leaf, h, m, r);
  }

  // The torrent maker: the same counter over the blocks that `read` delivers.
  method TorrentRoot<B, T>(leaf: seq<B> -> T, h: Hash2<T>, file: seq<B>) returns (res: RootResult<T>)
    ensures res == ReferenceRoot(leaf, h, file)
  {
    var m: map<nat, T> := map[];
    var pos := 0;
    ghost var done, k := [], 0;
    while pos < |file|
      invariant 0 <= pos <= |file| && done == file[..pos] && (pos < |file| ==> pos == BLOCK * k)
      invariant Counts(h, m, 0, BlockHashes(leaf, done))
    {
      var cb := if |file| - pos < BLOCK then |file| - pos else BLOCK;
      var block := file[pos..pos + cb];
      WholeBlocks(|done|, k);
      m := AddBytes(leaf, h, m, done, block);
      done := done + block;
      pos := pos + cb;
      k := k + 1;
    }
    assert done == file;
    res := Finish(leaf, h, m, file);
  }

  // ----- chunks -----

  // The roots of consecutive runs of `c` nodes.
  function RunRoots<T>(h: Hash2<T>, xs: seq<T>, c: nat): seq<T>
    requires c >= 1
    decreases |xs|
  {
    if xs == [] then []
    else if |xs| <= c then [Root(h, xs)]
    else [Root(h, xs[..c])] + RunRoots(h, xs[c..], c)
  }

  lemma {:induction false} WidthOfPow2(k: nat, j: nat)
    requires j <= k
    ensures Width(Pow2(k), j) == Pow2(k - j)
  {
    if j > 0 {
      WidthOfPow2(k, j - 1);
    }
  }

  lemma EvenWidth(k: nat, j: nat)
    requires j < k
    ensures Width(Pow2(k), j) % 2 == 0
  {
    WidthOfPow2(k, j);
  }

  lemma {:induction false} LevelConcat<T>(h: Hash2<T>, a: seq<T>, b: seq<T>, k: nat, j: nat)
    requires |a| == Pow2(k) && j <= k
    ensures Level(h, a + b, j) == Level(h, a, j) + Level(h, b, j)
    decreases j
  {
    if j > 0 {
      LevelConcat(h, a, b, k, j - 1);
      EvenWidth(k, j - 1);
      hide PairUp, Pow2, Width;
      PairUpConcat(h, Level(h, a, j - 1), Level(h, b, j - 1));
    }
  }

  lemma {:induction false} LevelOfShort<T>(h: Hash2<T>, xs: seq<T>, k: nat)
    requires 0 < |xs| <= Pow2(k)
    ensures Level(h, xs, k) == [Root(h, xs)]
    decreases k
  {
    if k > 0 {
      LevelShift(h, xs, k - 1);
      LevelOfShort(h, PairUp(h, xs), k - 1);
      if |xs| == 1 {
        assert PairUp(h, xs) == xs;
      }
    }
  }

  lemma LevelOfEmpty<T>(h: Hash2<T>, xs: seq<T>, k: nat)
    requires xs == []
    ensures Level(h, xs, k) == []
  {
  }

  lemma {:induction false} RunRootsAreLevel<T>(h: Hash2<T>, xs: seq<T>, k: nat)
    ensures RunRoots(h, xs, Pow2(k)) == Level(h, xs, k)
    decreases |xs|
  {
    var c := Pow2(k);
    if xs == [] {
      LevelOfEmpty(h, xs, k);
    } else if |xs| <= c {
      LevelOfShort(h, xs, k);
    } else {
      assert xs == xs[..c] + xs[c..];
      LevelConcat(h, xs[..c], xs[c..], k, k);
      LevelOfShort(h, xs[..c], k);
      RunRootsAreLevel(h, xs[c..], k);
    }
  }

  // The leaf hashes of a chunk tree: the root of every 32 KiB chunk.
  function ChunkRoots<B, T>(leaf: seq<B> -> T, h: Hash2<T>, file: seq<B>): seq<T>
    decreases |file|
  {
    if file == [] then []
    else
      var c := if |file| <= CHUNK then |file| else CHUNK;
      var xs := BlockHashes(leaf, file[..c]);
      assert xs != [];
      [Root(h, xs)] + ChunkRoots(leaf, h, file[c..])
  }

  lemma {:induction false} BlockCount<B, T>(leaf: seq<B> -> T, a: seq<B>)
    ensures |BlockHashes(leaf, a)| == (|a| + BLOCK - 1) / BLOCK
    decreases |a|
  {
    if |a| > BLOCK {
      BlockCount(leaf, a[BLOCK..]);
    }
  }

  lemma {:induction false} ChunkRootsAreRunRoots<B, T>(leaf: seq<B> -> T, h: Hash2<T>, file: seq<B>)
    ensures ChunkRoots(leaf, h, file) == RunRoots(h, BlockHashes(leaf, file), Pow2(5))
    decreases |file|
  {
    if file != [] {
      assert Pow2(5) == 32;
      BlockCount(leaf, file);
      if |file| <= CHUNK {
        assert file[..|file|] == file && file[|file|..] == [];
      } else {
        var a, b := file[..CHUNK], file[CHUNK..];
        assert file == a + b;
        BlockHashesConcat(leaf, a, b);
        BlockCount(leaf, a);
        var xs := BlockHashes(leaf, file);
        assert xs[..32] == BlockHashes(leaf, a) && xs[32..] == BlockHashes(leaf, b);
        ChunkRootsAreRunRoots(leaf, h, b);
      }
    }
  }

  // The tree over the roots of 32 KiB chunks, which the client keeps, has the
  // root of the tree over all 1 KiB blocks, which the torrent maker publishes.
  lemma {:induction false} ChunkingComposes<B, T>(leaf: seq<B> -> T, h: Hash2<T>, file: seq<B>)
    requires file != []
    ensures ChunkRoots(leaf, h, file) != []
    ensures Hash(Root(h, ChunkRoots(leaf, h, file))) == ReferenceRoot(leaf, h, file)
  {
    var xs := BlockHashes(leaf, file);
    ChunkRootsAreRunRoots(leaf, h, file);
    RunRootsAreLevel(h, xs, 5);
    RootOfLevel(h, xs, 5);
  }
}
