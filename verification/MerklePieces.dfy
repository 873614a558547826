// Pieces and leaves: which leaves of its file's hash tree a piece stands for,
// and what a run of the hasher makes of a Merkle torrent.
module MerklePieces {
  import opened Arithmetic
  import opened FileRange
  import opened MerkleFiles
  import opened MerkleProofs
  import opened MerkleShape
  import opened MerkleSpec
  import opened MerkleStream
  import opened StreamInt
  import opened TorrentLayout
  import T = Torrent

  const BLANK: Hash20 := [0, 0, 0, 0, 0, 0, 0, 0, 0, 0, 0, 0, 0, 0, 0, 0, 0, 0, 0, 0]

  // The hash of a block, and of two nodes.
  function LeafHash(digest: Bytes -> Hash20): Bytes -> Hash20 {
    (block: Bytes) => digest([0] + block)
  }

  function InnerHash(digest: Bytes -> Hash20): Hash2<Hash20> {
    (a: Hash20, b: Hash20) => digest([1] + a + b)
  }

  // ----- pieces and leaves -----

  // No file is empty, but those at the end. A cursor at the start of a piece is
  // then in the file of the piece.
  predicate Solid(l: Layout) {
    forall j, k :: 0 <= j < k < |l.files| && l.files[k].size > 0 ==> l.files[j].size > 0
  }

  // Pieces are whole chunks, or the file is one piece.
  predicate InStep(l: Layout, j: nat)
    requires j < |l.files|
  {
    l.cb % CHUNK == 0 || l.files[j].size <= l.cb
  }

  // Where piece `p` is in its file.
  function Pos(l: Layout, j: nat, p: nat): nat
    requires l.cb > 0 && j < |l.files| && InRange(l, j, p)
  {
    l.cb * (p - FirstPiece(l, j))
  }

  // The leaves of file `j` in front of piece `i`: every piece but the last has
  // as many as a full piece.
  function LeavesBefore(l: Layout, j: nat, i: nat): nat
    requires l.cb > 0 && j < |l.files|
  {
    if i <= FirstPiece(l, j) then 0
    else if i >= FirstPiece(l, j) + CPieces(l, j) then Leaves(l.files[j].size)
    else (i - FirstPiece(l, j)) * Leaves(l.cb)
  }

  lemma {:induction false} PieceSize(l: Layout, j: nat, p: nat)
    requires Ok(l) && l.cb > 0 && Aligned(l) && j < |l.files| && InRange(l, j, p)
    ensures p < |l.sizes| && Start(l, p) == l.files[j].offset + Pos(l, j, p)
    ensures l.sizes[p] == Min(l.cb, l.files[j].size - Pos(l, j, p))
  {
    var e, first := l.files[j], FirstPiece(l, j);
    NotEmpty(l, j, p);
    RangeOfFile(l, j, p);
    assert e.offset == l.cb * first;
    assert l.cb * p == l.cb * first + l.cb * (p - first);
    var y := Start(l, p) + l.sizes[p];
    if l.sizes[p] < l.cb && y < e.End() {
      assert Start(l, p + 1) == Start(l, p) + l.cb;
      NoFileByteInGap(l, p, j, y);
    }
  }

  lemma LeavesOfWhole(cb: nat, t: nat, r: nat)
    requires cb % CHUNK == 0
    ensures Leaves(cb * t + r) == t * Leaves(cb) + Leaves(r)
  {
    var q := cb / CHUNK;
    assert cb == CHUNK * q;
    ModUnique(cb + CHUNK - 1, CHUNK, q, CHUNK - 1);
    var a := r + CHUNK - 1;
    assert cb * t == CHUNK * (q * t);
    ModUnique(cb * t + a, CHUNK, q * t + a / CHUNK, a % CHUNK);
    assert q * t == t * q;
  }

  // The counter of the chunks names the leaves one after another.
  lemma {:induction false} LeavesStep(l: Layout, j: nat, i: nat)
    requires Ok(l) && l.cb > 0 && Aligned(l) && j < |l.files| && InRange(l, j, i) && InStep(l, j)
    ensures i < |l.sizes| && LeavesBefore(l, j, i + 1) == LeavesBefore(l, j, i) + Leaves(l.sizes[i])
    ensures LeavesBefore(l, j, i + 1) <= Leaves(l.files[j].size)
  {
    var size, first, n := l.files[j].size, FirstPiece(l, j), CPieces(l, j);
    var t: nat := i - first;
    PieceSize(l, j, i);
    CutInto(l.cb, size, t);
    hide Ok, Aligned, Leaves, FirstPiece, CPieces;
    if l.cb % CHUNK == 0 {
      LeavesOfWhole(l.cb, t, size - l.cb * t);
      LeavesOfWhole(l.cb, t + 1, 0);
      LeavesRise(size, l.cb * (t + 1));
      MulStep(l.cb, t, Leaves(l.cb));
    }
  }

  lemma MulStep(cb: nat, t: nat, n: nat)
    ensures (t + 1) * n == t * n + n && cb * (t + 1) == cb * t + cb
  {
  }

  lemma LeavesRise(a: nat, b: nat)
    ensures b <= a ==> Leaves(b) <= Leaves(a)
  {
  }

  // Piece `t` of a file is its last if and only if it goes up to its end.
  lemma CutInto(cb: nat, size: nat, t: nat)
    requires cb > 0 && t < (size + cb - 1) / cb
    ensures cb * t < size && (t + 1 == (size + cb - 1) / cb <==> size <= cb * t + cb)
    ensures size <= cb ==> t == 0
  {
    var c := (size + cb - 1) / cb;
    assert cb * c <= size + cb - 1 < cb * c + cb;
    MulMonotone(cb, t, c);
    MulMonotone(cb, t + 1, c);
    MulMonotone(cb, 1, t);
  }

  // What the hasher has counted when it comes to piece `i`: as many chunks for
  // every piece of the file as a full piece has.
  predicate Counter(l: Layout, j: nat, i: nat, c: nat)
    requires l.cb > 0 && j < |l.files|
  {
    && (i <= FirstPiece(l, j) ==> c == 0)
    && (InRange(l, j, i) ==> c == (i - FirstPiece(l, j)) * Leaves(l.cb))
  }

  lemma {:induction false} CounterStep(l: Layout, j: nat, i: nat, c: nat)
    requires Ok(l) && l.cb > 0 && Aligned(l) && j < |l.files| && InRange(l, j, i) && Counter(l, j, i, c)
    ensures i < |l.sizes| && Counter(l, j, i + 1, c + Leaves(l.sizes[i]))
  {
    var first := FirstPiece(l, j);
    PieceSize(l, j, i);
    CutInto(l.cb, l.files[j].size, i - first);
    MulStep(l.cb, i - first, Leaves(l.cb));
  }

  // When the chunks of a number of whole pieces fill them exactly.
  lemma {:induction false} CountedRightIff(cb: nat, t: nat)
    requires cb > 0
    ensures CHUNK * (t * Leaves(cb)) == cb * t <==> cb % CHUNK == 0 || t == 0
  {
    var n := Leaves(cb);
    TimesChunk(t, n, cb);
    if cb % CHUNK == 0 {
      ModUnique(cb + CHUNK - 1, CHUNK, cb / CHUNK, CHUNK - 1);
    }
  }

  lemma TimesChunk(t: nat, n: nat, cb: nat)
    ensures CHUNK * (t * n) == cb * t <==> CHUNK * n == cb || t == 0
  {
    var x := CHUNK * n;
    assert CHUNK * (t * n) == t * x;
    hide *;
    if t > 0 && t * x == cb * t {
      assert t * (x - cb) == 0;
    }
  }

  // ----- what is read -----

  // The bytes of the piece, when file `j` is `f`.
  function DataOf(l: Layout, f: T.SubFile, j: nat, p: nat): Bytes
    requires l.cb > 0 && j < |l.files| && InRange(l, j, p) && p < |l.sizes|
    requires T.CanRead(f, Pos(l, j, p), l.sizes[p])
  {
    if l.sizes[p] == 0 then [] else f.data[Pos(l, j, p)..Pos(l, j, p) + l.sizes[p]]
  }

  // A piece is in one file, and is read from that file.
  lemma {:induction false} PieceIsRead(l: Layout, g: seq<T.SubFile>, j: nat, p: nat, d: Bytes)
    requires Ok(l) && l.cb > 0 && Aligned(l) && |g| == |l.files| && j < |g| && InRange(l, j, p)
    ensures p < |l.sizes|
    ensures T.Readable(l, g, Start(l, p), l.sizes[p]) <==> T.CanRead(g[j], Pos(l, j, p), l.sizes[p])
    ensures |d| == l.sizes[p] && T.IsSlice(l, g, Start(l, p), d) ==>
      T.CanRead(g[j], Pos(l, j, p), l.sizes[p]) && d == DataOf(l, g[j], j, p)
  {
    PieceSize(l, j, p);
    RangeOfFile(l, j, p);
    var x, n, pos := Start(l, p), l.sizes[p], Pos(l, j, p);
    assert InFile(l, j, x) && InFile(l, j, x + n - 1);
    if T.CanRead(g[j], pos, n) {
      forall m, y | 0 <= m < |g| && x <= y < x + n && InFile(l, m, y)
        ensures T.Holds(l, g, m, y)
      {
        OneFile(l, j, m, y);
      }
    } else {
      assert !T.Holds(l, g, j, x + n - 1);
    }
    if |d| == n && T.IsSlice(l, g, x, d) {
      assert T.Holds(l, g, j, x + n - 1);
      forall k | 0 <= k < n
        ensures d[k] == g[j].data[pos + k]
      {
        var y := x + k;
        assert InFile(l, j, y) && d[y - x] == T.ByteAt(l, g, j, y);
      }
    }
  }

  // ----- a run -----

  // What a run of the hasher starts from.
  datatype Before = Before(l: Layout, leaf: Bytes -> Hash20, inner: Hash2<Hash20>, roots: seq<Hash20>,
                           files: seq<T.SubFile>, trees: seq<T.Tree>, valid: seq<bool>)
  {
    ghost predicate Fits() {
      && Ok(l) && l.cb > 0 && Aligned(l)
      && |roots| == |files| == |trees| == |l.files| && |valid| == |l.sizes|
    }

    function Size(j: nat): nat
      requires j < |l.files|
    {
      Leaves(l.files[j].size)
    }

    // The tree has the published root.
    predicate RootOk(j: nat)
      requires j < |l.files| == |trees| == |roots|
    {
      RootOf(Size(j), trees[j], BLANK) == roots[j]
    }

    // The chunks of file `j` are hashed as they should be.
    predicate Sound(j: nat)
      requires j < |l.files|
    {
      l.files[j].size % BLOCK == 0 && InStep(l, j)
    }

    predicate Reads(j: nat, p: nat)
      requires l.cb > 0 && j < |l.files| == |files| && p < |l.sizes| && InRange(l, j, p)
    {
      T.CanRead(files[j], Pos(l, j, p), l.sizes[p])
    }

    // The roots of the chunks of a piece, as they are on disk.
    function Hashes(j: nat, p: nat): seq<Hash20>
      requires l.cb > 0 && j < |l.files| == |files| && p < |l.sizes| && InRange(l, j, p) && Reads(j, p)
    {
      ChunkRoots(leaf, inner, DataOf(l, files[j], j, p))
    }

    // The piece can be read, and its chunks are the ones the tree knows.
    predicate Known(j: nat, p: nat)
      requires l.cb > 0 && j < |l.files| == |files| == |trees| && p < |l.sizes| && InRange(l, j, p)
    {
      Reads(j, p) && AllKnown(trees[j], LeavesBefore(l, j, p), Hashes(j, p))
    }

    // The leaves `rs` are the chunks of the piece, if it can be read.
    predicate Entered(j: nat, p: nat, rs: seq<Hash20>)
      requires l.cb > 0 && j < |l.files| == |files| && p < |l.sizes| && InRange(l, j, p)
    {
      Reads(j, p) ==>
        var at := LeavesBefore(l, j, p);
        at + |Hashes(j, p)| <= |rs| && rs[at..at + |Hashes(j, p)|] == Hashes(j, p)
    }
  }

  ghost predicate Kept(b: Before, j: nat, n: nat, valid: seq<bool>)
    requires b.Fits() && j < |b.files| && |valid| == |b.valid|
  {
    forall p :: 0 <= p < n <= |valid| && InRange(b.l, j, p) ==> valid[p] == b.valid[p]
  }

  ghost predicate Compared(b: Before, j: nat, n: nat, valid: seq<bool>)
    requires b.Fits() && j < |b.files| && |valid| == |b.valid|
  {
    forall p :: 0 <= p < n <= |valid| && InRange(b.l, j, p) ==> (valid[p] <==> b.Known(j, p))
  }

  ghost predicate Collected(b: Before, j: nat, n: nat, rs: seq<Hash20>)
    requires b.Fits() && j < |b.files|
  {
    forall p :: 0 <= p < n <= |b.valid| && InRange(b.l, j, p) ==> b.Entered(j, p, rs)
  }

  // A piece is valid if it can be read and the whole file is good.
  ghost predicate ReadAnd(b: Before, j: nat, n: nat, good: bool, valid: seq<bool>)
    requires b.Fits() && j < |b.files| && |valid| == |b.valid|
  {
    forall p :: 0 <= p < n <= |valid| && InRange(b.l, j, p) ==> (valid[p] <==> b.Reads(j, p) && good)
  }

  // File `j` when the pieces in front of `i` have been judged.
  ghost predicate Progress(b: Before, validate: bool, j: nat, i: nat, tree: T.Tree, valid: seq<bool>, rs: seq<Hash20>)
    requires b.Fits() && j < |b.files| && |valid| == |b.valid| && i <= |valid|
  {
    && (!validate ==> tree == b.trees[j] && Kept(b, j, |valid|, valid))
    && (validate && b.Sound(j) && b.RootOk(j) ==> tree == b.trees[j] && Compared(b, j, i, valid))
    && (validate && b.Sound(j) && !b.RootOk(j) && b.trees[j] == map[] ==>
          && |rs| == LeavesBefore(b.l, j, i) <= b.Size(j)
          && tree == Extend(b.inner, b.Size(j), map[], 0, rs)
          && Collected(b, j, i, rs) && ReadAnd(b, j, i, true, valid))
  }

  // A tree was built from the file, unreadable pieces being anything.
  ghost predicate Built(b: Before, j: nat, tree: T.Tree, valid: seq<bool>, rs: seq<Hash20>)
    requires b.Fits() && j < |b.files| && |valid| == |b.valid|
  {
    && |rs| == b.Size(j) > 0 && Collected(b, j, |valid|, rs)
    && ReadAnd(b, j, |valid|, Root(b.inner, rs) == b.roots[j], valid)
    && tree == if Root(b.inner, rs) == b.roots[j] then TreeOf(b.inner, rs) else RootOnly(b.Size(j), b.roots[j])
  }

  // File `j` when it has been looked at.
  ghost predicate Judged(b: Before, validate: bool, j: nat, tree: T.Tree, valid: seq<bool>)
    requires b.Fits() && j < |b.files| && |valid| == |b.valid|
  {
    && RootOf(b.Size(j), tree, BLANK) == b.roots[j]
    && (!validate && b.RootOk(j) ==> tree == b.trees[j] && Kept(b, j, |valid|, valid))
    && (!validate && !b.RootOk(j) ==> tree == RootOnly(b.Size(j), b.roots[j]) && NoneValid(b, j, valid))
    && (validate && b.Sound(j) && b.RootOk(j) ==> tree == b.trees[j] && Compared(b, j, |valid|, valid))
    && (validate && b.Sound(j) && !b.RootOk(j) && b.trees[j] == map[] ==> exists rs :: Built(b, j, tree, valid, rs))
  }

  ghost predicate NoneValid(b: Before, j: nat, valid: seq<bool>)
    requires b.Fits() && j < |b.files| && |valid| == |b.valid|
  {
    forall p :: 0 <= p < |valid| && InRange(b.l, j, p) ==> !valid[p]
  }

  lemma NothingBefore(l: Layout, j: nat, i: nat)
    requires l.cb > 0 && j < |l.files| && (l.files[j].size > 0 ==> i <= FirstPiece(l, j))
    ensures LeavesBefore(l, j, i) == 0 && forall p: nat :: InRange(l, j, p) ==> p >= i
  {
    if l.files[j].size == 0 {
      DivMonotone(l.cb, l.cb - 1, l.cb - 1);
      ModUnique(l.cb - 1, l.cb, 0, l.cb - 1);
    }
  }

  // Nothing of file `j` has been judged yet.
  lemma ProgressStart(b: Before, validate: bool, j: nat, i: nat, valid: seq<bool>)
    requires b.Fits() && j < |b.files| && |valid| == |b.valid| && i <= |valid|
    requires b.l.files[j].size > 0 ==> i <= FirstPiece(b.l, j)
    requires Kept(b, j, |valid|, valid)
    ensures Progress(b, validate, j, i, b.trees[j], valid, [])
    ensures LeavesBefore(b.l, j, i) == 0
  {
    NothingBefore(b.l, j, i);
    hide T.CanRead, AllKnown, RootOf, ChunkRoots, LeavesBefore, Aligned, Ok, InRange, FirstPiece;
  }

  // What the chunks of a piece have been found to be, `at` leaves into the tree.
  ghost predicate ChunksJudged(b: Before, j: nat, m0: T.Tree, at: nat, m: T.Tree, d: Bytes, readable: bool, ok: bool,
                               rs: seq<Hash20>)
    requires b.Fits() && j < |b.files|
  {
    && |rs| == Leaves(|d|) && (|d| % BLOCK == 0 ==> rs == ChunkRoots(b.leaf, b.inner, d))
    && var rootOk := RootOf(b.Size(j), m0, BLANK) == b.roots[j];
      && (rootOk ==> m == m0)
      && (at + |rs| <= b.Size(j) ==>
            if rootOk then ok <==> readable && AllKnown(m0, at, rs)
            else ok == readable && m == Extend(b.inner, b.Size(j), m0, at, rs))
  }

  // The file that a piece is read from is as it was when the run started.
  predicate SameFile(b: Before, g: T.SubFile, j: nat)
    requires j < |b.files|
  {
    g.mode == b.files[j].mode && g.data == b.files[j].data
  }

  // The piece as it is read; its size is a number of whole blocks.
  lemma {:induction false} PieceRead(b: Before, j: nat, p: nat, g: seq<T.SubFile>, d: Bytes, readable: bool)
    requires b.Fits() && j < |b.files| == |g| && InRange(b.l, j, p) && p < |b.valid| && SameFile(b, g[j], j)
    requires |d| == b.l.sizes[p] && (readable ==> T.IsSlice(b.l, g, Start(b.l, p), d))
    requires readable <==> T.Readable(b.l, g, Start(b.l, p), b.l.sizes[p])
    ensures readable <==> b.Reads(j, p)
    ensures readable ==> b.Hashes(j, p) == ChunkRoots(b.leaf, b.inner, d)
    ensures b.Sound(j) ==> |d| % BLOCK == 0
  {
    PieceIsRead(b.l, g, j, p, d);
    if b.Sound(j) {
      WholeBlocks(b.l, j, p);
    }
  }

  lemma WholeBlocks(l: Layout, j: nat, p: nat)
    requires Ok(l) && l.cb > 0 && Aligned(l) && j < |l.files| && InRange(l, j, p)
    requires l.files[j].size % BLOCK == 0 && InStep(l, j)
    ensures p < |l.sizes| && l.sizes[p] % BLOCK == 0
  {
    PieceSize(l, j, p);
    var size, t := l.files[j].size, p - FirstPiece(l, j);
    CutInto(l.cb, size, t);
    if l.cb % CHUNK == 0 {
      var q, w := l.cb / CHUNK, size / BLOCK;
      assert l.cb == BLOCK * (32 * q) && size == BLOCK * w;
      ModUnique(l.cb, BLOCK, 32 * q, 0);
      assert l.cb * t == BLOCK * (32 * q * t);
      ModUnique(size - l.cb * t, BLOCK, w - 32 * q * t, 0);
    }
  }

  // One piece further.
  lemma {:induction false} ProgressJudge(b: Before, j: nat, i: nat, at: nat, m0: T.Tree, m: T.Tree, valid: seq<bool>,
                                         rs0: seq<Hash20>, d: Bytes, readable: bool, ok: bool, rs: seq<Hash20>)
    requires b.Fits() && j < |b.files| && |valid| == |b.valid| && i < |valid| && InRange(b.l, j, i)
    requires Progress(b, true, j, i, m0, valid, rs0) && ChunksJudged(b, j, m0, at, m, d, readable, ok, rs)
    requires b.Sound(j) ==> at == LeavesBefore(b.l, j, i) && |d| % BLOCK == 0
    requires |d| == b.l.sizes[i] && (readable <==> b.Reads(j, i))
    requires readable ==> b.Hashes(j, i) == ChunkRoots(b.leaf, b.inner, d)
    ensures Progress(b, true, j, i + 1, m, valid[i := readable && ok], rs0 + rs)
  {
    hide T.CanRead, AllKnown, Extend, RootOf, ChunkRoots, LeavesBefore, Aligned, Ok, InRange;
    var n, now := i + 1, valid[i := readable && ok];
    if b.Sound(j) {
      LeavesStep(b.l, j, i);
      if b.RootOk(j) {
        forall p | 0 <= p < n && InRange(b.l, j, p)
          ensures now[p] <==> b.Known(j, p)
        {
          assert p != i ==> now[p] == valid[p];
        }
      } else if b.trees[j] == map[] {
        JudgeEntered(b, j, i, m0, m, valid, rs0, d, readable, ok, rs);
      }
    }
  }

  lemma {:induction false} JudgeEntered(b: Before, j: nat, i: nat, m0: T.Tree, m: T.Tree, valid: seq<bool>,
                                        rs0: seq<Hash20>, d: Bytes, readable: bool, ok: bool, rs: seq<Hash20>)
    requires b.Fits() && j < |b.files| && |valid| == |b.valid| && i < |valid| && InRange(b.l, j, i)
    requires b.Sound(j) && !b.RootOk(j) && b.trees[j] == map[]
    requires Progress(b, true, j, i, m0, valid, rs0)
    requires ChunksJudged(b, j, m0, LeavesBefore(b.l, j, i), m, d, readable, ok, rs) && |d| % BLOCK == 0
    requires |d| == b.l.sizes[i] && (readable <==> b.Reads(j, i))
    requires readable ==> b.Hashes(j, i) == ChunkRoots(b.leaf, b.inner, d)
    ensures Progress(b, true, j, i + 1, m, valid[i := readable && ok], rs0 + rs)
  {
    hide T.CanRead, AllKnown, Extend, ChunkRoots, LeavesBefore, Aligned, Ok, InRange;
    var n, now, all, size := i + 1, valid[i := readable && ok], rs0 + rs, b.Size(j);
    LeavesStep(b.l, j, i);
    assert RootOf(size, m0, BLANK) != b.roots[j] by {
      LeavesStepUp(b.l, j, i);
      RootOfPart(b.inner, size, rs0, BLANK);
      assert RootOf(size, map[], BLANK) == BLANK;
    }
    ExtendTwice(b.inner, size, map[], 0, rs0, rs);
    forall p | 0 <= p < n && InRange(b.l, j, p)
      ensures b.Entered(j, p, all) && (now[p] <==> b.Reads(j, p) && true)
    {
      if p < i {
        assert now[p] == valid[p] && b.Entered(j, p, rs0);
        EnteredMore(b, j, p, rs0, rs);
      }
    }
  }

  lemma EnteredMore(b: Before, j: nat, p: nat, rs0: seq<Hash20>, rs: seq<Hash20>)
    requires b.l.cb > 0 && j < |b.l.files| == |b.files| && p < |b.l.sizes| && InRange(b.l, j, p) && b.Entered(j, p, rs0)
    ensures b.Entered(j, p, rs0 + rs)
  {
    hide ChunkRoots, LeavesBefore;
    if b.Reads(j, p) {
      var at, n := LeavesBefore(b.l, j, p), |b.Hashes(j, p)|;
      assert (rs0 + rs)[at..at + n] == rs0[at..at + n];
    }
  }

  // A piece has leaves.
  lemma LeavesStepUp(l: Layout, j: nat, i: nat)
    requires Ok(l) && l.cb > 0 && Aligned(l) && j < |l.files| && InRange(l, j, i) && InStep(l, j)
    ensures LeavesBefore(l, j, i) < Leaves(l.files[j].size)
  {
    LeavesStep(l, j, i);
  }

  // All pieces of file `j` have been judged; its tree is kept, or reset.
  lemma {:induction false} ProgressEnd(b: Before, validate: bool, j: nat, i: nat, tree: T.Tree, valid: seq<bool>,
                                       rs: seq<Hash20>, tree': T.Tree, valid': seq<bool>)
    requires b.Fits() && j < |b.files| && b.l.files[j].size > 0 && |valid| == |valid'| == |b.valid| && i <= |valid|
    requires FirstPiece(b.l, j) + CPieces(b.l, j) <= i && Progress(b, validate, j, i, tree, valid, rs)
    requires Ended(b, j, tree, valid, tree', valid')
    ensures Judged(b, validate, j, tree', valid')
  {
    hide T.CanRead, AllKnown, Extend, ChunkRoots, Aligned, Ok, LeavesBefore, FirstPiece, CPieces;
    AllBefore(b.l, j, i);
    hide InRange;
    if RootOf(b.Size(j), tree, BLANK) != b.roots[j] {
      assert RootOf(b.Size(j), tree', BLANK) == b.roots[j];
    }
    if validate && b.Sound(j) && !b.RootOk(j) && b.trees[j] == map[] {
      BuiltEnd(b, j, i, tree, valid, rs, tree', valid');
    }
  }

  lemma AllBefore(l: Layout, j: nat, i: nat)
    requires l.cb > 0 && j < |l.files| && FirstPiece(l, j) + CPieces(l, j) <= i
    ensures forall p: nat :: InRange(l, j, p) ==> p < i
    ensures l.files[j].size > 0 ==> LeavesBefore(l, j, i) == Leaves(l.files[j].size)
  {
    if l.files[j].size > 0 {
      FileHasPieces(l, j);
    }
  }

  lemma {:induction false} BuiltEnd(b: Before, j: nat, i: nat, tree: T.Tree, valid: seq<bool>, rs: seq<Hash20>,
                                    tree': T.Tree, valid': seq<bool>)
    requires b.Fits() && j < |b.files| && |valid| == |valid'| == |b.valid| && i <= |valid|
    requires (forall p: nat :: InRange(b.l, j, p) ==> p < i) && b.l.files[j].size > 0
    requires |rs| == b.Size(j) && tree == Extend(b.inner, b.Size(j), map[], 0, rs)
    requires Collected(b, j, i, rs) && ReadAnd(b, j, i, true, valid)
    requires Ended(b, j, tree, valid, tree', valid')
    ensures Built(b, j, tree', valid', rs)
  {
    hide T.CanRead, Extend, RootOf, ChunkRoots, Aligned, Ok, LeavesBefore, InRange, Root;
    FileHasPieces(b.l, j);
    assert rs != [];
    ExtendCompletes(b.inner, rs, BLANK);
    hide Leaves;
  }

  lemma FileHasPieces(l: Layout, j: nat)
    requires l.cb > 0 && j < |l.files| && l.files[j].size > 0
    ensures CPieces(l, j) > 0 && Leaves(l.files[j].size) > 0
  {
    DivMonotone(l.cb, l.cb, l.files[j].size + l.cb - 1);
  }

  // The end of a file: a tree without the published root is reset, and no piece
  // of the file is valid then.
  predicate Ended(b: Before, j: nat, tree: T.Tree, valid: seq<bool>, tree': T.Tree, valid': seq<bool>)
    requires b.l.cb > 0 && j < |b.l.files| == |b.roots| && |valid| == |valid'|
  {
    if RootOf(b.Size(j), tree, BLANK) == b.roots[j] then tree' == tree && valid' == valid
    else
      && tree' == RootOnly(b.Size(j), b.roots[j])
      && forall p :: 0 <= p < |valid| ==> valid'[p] == if InRange(b.l, j, p) then false else valid[p]
  }

  // Only the pieces of a file matter to it.
  lemma {:induction false} JudgedSame(b: Before, validate: bool, j: nat, tree: T.Tree, valid: seq<bool>,
                                      valid': seq<bool>)
    requires b.Fits() && j < |b.files| && |valid| == |valid'| == |b.valid|
    requires forall p :: 0 <= p < |valid| && InRange(b.l, j, p) ==> valid[p] == valid'[p]
    requires Judged(b, validate, j, tree, valid)
    ensures Judged(b, validate, j, tree, valid')
  {
    hide T.CanRead, AllKnown, Extend, RootOf, ChunkRoots, LeavesBefore, Aligned, Ok, InRange;
    if validate && b.Sound(j) && !b.RootOk(j) && b.trees[j] == map[] {
      var rs :| Built(b, j, tree, valid, rs);
      assert Built(b, j, tree, valid', rs);
    }
  }

  // ----- all files -----

  // The cursor is in file `sub`, `c` chunks into it: the files in front of it have
  // been judged, those behind it have not been touched.
  ghost predicate Tracks(b: Before, validate: bool, i: nat, sub: nat, c: nat, trees: seq<T.Tree>, valid: seq<bool>,
                         rs: seq<Hash20>)
  {
    && b.Fits() && |trees| == |b.trees| && |valid| == |b.valid| && i <= |valid| && sub <= |trees|
    && (forall m :: 0 <= m < sub && b.l.files[m].size > 0 ==> Judged(b, validate, m, trees[m], valid))
    && (forall m :: sub < m < |trees| ==> trees[m] == b.trees[m])
    && (forall p :: i <= p < |valid| ==> valid[p] == b.valid[p])
    && (sub < |trees| ==>
          && Progress(b, validate, sub, i, trees[sub], valid, rs)
          && (validate && b.l.files[sub].size > 0 ==> Counter(b.l, sub, i, c))
          && (validate && b.Sound(sub) ==> c == |rs| == LeavesBefore(b.l, sub, i)))
  }

  // In a run that has come to piece `i` of file `j`, the counter is at the chunk
  // that the piece starts with if and only if pieces are whole chunks or the
  // piece is the first of the file.
  lemma {:induction false} CounterIsRightIff(b: Before, i: nat, j: nat, c: nat, trees: seq<T.Tree>, valid: seq<bool>,
                                             rs: seq<Hash20>)
    requires Tracks(b, true, i, j, c, trees, valid, rs) && j < |trees| && InRange(b.l, j, i)
    ensures CHUNK * c == Pos(b.l, j, i) <==> b.l.cb % CHUNK == 0 || i == FirstPiece(b.l, j)
  {
    hide Judged, Progress, Ok, Aligned;
    NotEmpty(b.l, j, i);
    CountedRightIff(b.l.cb, i - FirstPiece(b.l, j));
  }

  ghost predicate AllJudged(b: Before, validate: bool, trees: seq<T.Tree>, valid: seq<bool>) {
    && b.Fits() && |trees| == |b.trees| && |valid| == |b.valid|
    && forall m :: 0 <= m < |trees| && b.l.files[m].size > 0 ==> Judged(b, validate, m, trees[m], valid)
  }

  lemma {:induction false} TracksStart(b: Before, validate: bool)
    requires b.Fits()
    ensures Tracks(b, validate, 0, 0, 0, b.trees, b.valid, [])
  {
    if |b.files| > 0 {
      ProgressStart(b, validate, 0, 0, b.valid);
    }
  }

  // No piece is in the ranges of two files.
  lemma RangesApart(l: Layout, j: nat, m: nat, p: nat)
    requires Ok(l) && l.cb > 0 && Aligned(l) && j < |l.files| && m < |l.files| && InRange(l, j, p) && InRange(l, m, p)
    ensures j == m
  {
    RangeOfFile(l, j, p);
    RangeOfFile(l, m, p);
    OneFile(l, j, m, Start(l, p));
  }

  lemma {:induction false} OthersJudged(b: Before, validate: bool, sub: nat, trees: seq<T.Tree>, valid: seq<bool>,
                                        valid': seq<bool>)
    requires b.Fits() && sub < |b.files| == |trees| && |valid| == |valid'| == |b.valid|
    requires forall p :: 0 <= p < |valid| && !InRange(b.l, sub, p) ==> valid[p] == valid'[p]
    requires forall m :: 0 <= m < sub && b.l.files[m].size > 0 ==> Judged(b, validate, m, trees[m], valid)
    ensures forall m :: 0 <= m < sub && b.l.files[m].size > 0 ==> Judged(b, validate, m, trees[m], valid')
  {
    hide Judged, InRange, Ok, Aligned;
    forall m | 0 <= m < sub && b.l.files[m].size > 0
      ensures Judged(b, validate, m, trees[m], valid')
    {
      forall p: nat | p < |valid| && InRange(b.l, m, p)
        ensures valid[p] == valid'[p]
      {
        if InRange(b.l, sub, p) {
          RangesApart(b.l, sub, m, p);
        }
      }
      JudgedSame(b, validate, m, trees[m], valid, valid');
    }
  }

  // A piece is judged.
  lemma {:induction false} TracksJudge(b: Before, i: nat, sub: nat, c: nat, trees: seq<T.Tree>, valid: seq<bool>,
                                       rs0: seq<Hash20>, m: T.Tree, d: Bytes, readable: bool, ok: bool, rs: seq<Hash20>)
    requires Tracks(b, true, i, sub, c, trees, valid, rs0) && i < |valid| && sub < |trees| && InRange(b.l, sub, i)
    requires ChunksJudged(b, sub, trees[sub], c, m, d, readable, ok, rs) && (b.Sound(sub) ==> |d| % BLOCK == 0)
    requires |d| == b.l.sizes[i] && (readable <==> b.Reads(sub, i))
    requires readable ==> b.Hashes(sub, i) == ChunkRoots(b.leaf, b.inner, d)
    ensures Tracks(b, true, i + 1, sub, c + |rs|, trees[sub := m], valid[i := readable && ok], rs0 + rs)
  {
    hide Judged, Progress, InRange, T.CanRead, ChunkRoots, Ok, Aligned, LeavesBefore, Counter, Leaves, FirstPiece;
    NotEmpty(b.l, sub, i);
    ProgressJudge(b, sub, i, c, trees[sub], m, valid, rs0, d, readable, ok, rs);
    OthersJudged(b, true, sub, trees, valid, valid[i := readable && ok]);
    CounterStep(b.l, sub, i, c);
    if b.Sound(sub) {
      LeavesStep(b.l, sub, i);
    }
  }

  lemma TracksSkip(b: Before, i: nat, sub: nat, c: nat, trees: seq<T.Tree>, valid: seq<bool>, rs: seq<Hash20>)
    requires Tracks(b, false, i, sub, c, trees, valid, rs) && i < |valid|
    ensures Tracks(b, false, i + 1, sub, c, trees, valid, rs)
  {
    hide Judged;
  }

  lemma EndKeeps(b: Before, j: nat, i: nat, tree: T.Tree, valid: seq<bool>, tree': T.Tree, valid': seq<bool>)
    requires b.Fits() && j < |b.files| && |valid| == |valid'| == |b.valid| && Ended(b, j, tree, valid, tree', valid')
    requires forall p: nat :: InRange(b.l, j, p) ==> p < i
    ensures forall p :: 0 <= p < |valid| && !InRange(b.l, j, p) ==> valid[p] == valid'[p]
    ensures forall p :: i <= p < |valid| ==> valid[p] == valid'[p]
  {
    hide InRange, RootOf;
  }

  lemma KeptBehind(b: Before, j: nat, i: nat, valid: seq<bool>)
    requires b.Fits() && j < |b.files| && |valid| == |b.valid|
    requires b.l.files[j].size > 0 ==> i <= FirstPiece(b.l, j)
    requires forall p :: i <= p < |valid| ==> valid[p] == b.valid[p]
    ensures Kept(b, j, |valid|, valid)
  {
    NothingBefore(b.l, j, i);
  }

  // The end of a file.
  lemma {:induction false} TracksEnd(b: Before, validate: bool, i: nat, sub: nat, c: nat, trees: seq<T.Tree>,
                                     valid: seq<bool>, rs: seq<Hash20>, m: T.Tree, valid': seq<bool>)
    requires Tracks(b, validate, i, sub, c, trees, valid, rs) && sub < |trees| && b.l.files[sub].size > 0
    requires FirstPiece(b.l, sub) + CPieces(b.l, sub) <= i && |valid'| == |valid|
    requires Ended(b, sub, trees[sub], valid, m, valid')
    requires sub + 1 < |trees| && b.l.files[sub + 1].size > 0 ==> i <= FirstPiece(b.l, sub + 1)
    ensures Tracks(b, validate, i, sub + 1, 0, trees[sub := m], valid', [])
  {
    hide Judged, Progress, T.CanRead, ChunkRoots, Ok, Aligned, LeavesBefore, RootOf, Extend, FirstPiece, CPieces;
    var next := sub + 1;
    ProgressEnd(b, validate, sub, i, trees[sub], valid, rs, m, valid');
    AllBefore(b.l, sub, i);
    hide InRange;
    EndKeeps(b, sub, i, trees[sub], valid, m, valid');
    OthersJudged(b, validate, sub, trees, valid, valid');
    hide Ended;
    if next < |trees| {
      KeptBehind(b, next, i, valid');
      ProgressStart(b, validate, next, i, valid');
    }
  }

  // The end of the torrent.
  lemma TracksDone(b: Before, validate: bool, i: nat, sub: nat, c: nat, trees: seq<T.Tree>, valid: seq<bool>,
                   rs: seq<Hash20>)
    requires Tracks(b, validate, i, sub, c, trees, valid, rs)
    requires forall m :: sub <= m < |b.l.files| ==> b.l.files[m].size == 0
    ensures AllJudged(b, validate, trees, valid)
  {
    hide Judged, Progress;
  }

  // ----- what it means -----

  // The first `t` pieces of a file.
  function Upto(l: Layout, j: nat, t: nat): nat
    requires j < |l.files|
  {
    Min(l.cb * t, l.files[j].size)
  }

  lemma UptoStep(l: Layout, j: nat, t: nat)
    requires Ok(l) && l.cb > 0 && Aligned(l) && j < |l.files| && t < CPieces(l, j) && InStep(l, j)
    ensures var p := FirstPiece(l, j) + t;
      && InRange(l, j, p) && p < |l.sizes| && Upto(l, j, t) == Pos(l, j, p)
      && Upto(l, j, t + 1) == Pos(l, j, p) + l.sizes[p] && Upto(l, j, t) % CHUNK == 0
  {
    var p := FirstPiece(l, j) + t;
    PieceSize(l, j, p);
    CutInto(l.cb, l.files[j].size, t);
    assert l.cb * (t + 1) == l.cb * t + l.cb;
    WholeChunks(l.cb, t);
  }

  lemma WholeChunks(cb: nat, t: nat)
    ensures cb % CHUNK == 0 ==> cb * t % CHUNK == 0
  {
    if cb % CHUNK == 0 {
      var q := cb / CHUNK;
      assert cb * t == CHUNK * (q * t);
      ModUnique(cb * t, CHUNK, q * t, 0);
    }
  }

  ghost predicate AllRead(b: Before, j: nat)
    requires b.Fits() && j < |b.files|
  {
    forall p: nat :: p < |b.valid| && InRange(b.l, j, p) ==> b.Reads(j, p)
  }

  lemma {:induction false} CollectedUpTo(b: Before, j: nat, rs: seq<Hash20>, t: nat)
    requires b.Fits() && j < |b.files| && b.Sound(j) && |rs| == b.Size(j) && Collected(b, j, |b.valid|, rs)
    requires AllRead(b, j) && t <= CPieces(b.l, j)
    ensures LeavesBefore(b.l, j, FirstPiece(b.l, j) + t) <= |rs| && Upto(b.l, j, t) <= |b.files[j].data|
    ensures rs[..LeavesBefore(b.l, j, FirstPiece(b.l, j) + t)] ==
      ChunkRoots(b.leaf, b.inner, b.files[j].data[..Upto(b.l, j, t)])
  {
    if t == 0 {
      NothingBefore(b.l, j, FirstPiece(b.l, j));
    } else {
      hide *;
      CollectedUpTo(b, j, rs, t - 1);
      CollectedNext(b, j, rs, t - 1);
    }
  }

  lemma {:induction false} CollectedNext(b: Before, j: nat, rs: seq<Hash20>, t: nat)
    requires b.Fits() && j < |b.files| && b.Sound(j) && |rs| == b.Size(j) && Collected(b, j, |b.valid|, rs)
    requires AllRead(b, j) && t < CPieces(b.l, j)
    requires LeavesBefore(b.l, j, FirstPiece(b.l, j) + t) <= |rs| && Upto(b.l, j, t) <= |b.files[j].data|
    requires rs[..LeavesBefore(b.l, j, FirstPiece(b.l, j) + t)] ==
      ChunkRoots(b.leaf, b.inner, b.files[j].data[..Upto(b.l, j, t)])
    ensures var n := FirstPiece(b.l, j) + t + 1;
      && LeavesBefore(b.l, j, n) <= |rs| && Upto(b.l, j, t + 1) <= |b.files[j].data|
      && rs[..LeavesBefore(b.l, j, n)] == ChunkRoots(b.leaf, b.inner, b.files[j].data[..Upto(b.l, j, t + 1)])
  {
    hide Ok, Aligned, ChunkRoots, LeavesBefore, Upto, Pos, FirstPiece, CPieces, InRange, Collected, InStep, Leaves;
    var p := FirstPiece(b.l, j) + t;
    var a, e := Upto(b.l, j, t), Upto(b.l, j, t + 1);
    UptoStep(b.l, j, t);
    EnteredAt(b, j, p, rs, a, e);
    LeavesStep(b.l, j, p);
    hide *;
    var at, to := LeavesBefore(b.l, j, p), LeavesBefore(b.l, j, p + 1);
    CollectedStep(b.leaf, b.inner, b.files[j].data, rs, a, e, at, to);
  }

  lemma EnteredAt(b: Before, j: nat, p: nat, rs: seq<Hash20>, a: nat, e: nat)
    requires b.Fits() && j < |b.files| && InRange(b.l, j, p) && p < |b.valid| && Collected(b, j, |b.valid|, rs)
    requires b.Reads(j, p) && a == Pos(b.l, j, p) && e == a + b.l.sizes[p]
    ensures e <= |b.files[j].data|
    ensures var hs := ChunkRoots(b.leaf, b.inner, b.files[j].data[a..e]);
      LeavesBefore(b.l, j, p) + |hs| <= |rs| && rs[LeavesBefore(b.l, j, p)..LeavesBefore(b.l, j, p) + |hs|] == hs
  {
    hide ChunkRoots, LeavesBefore, Aligned, InRange, Pos;
    assert b.l.sizes[p] > 0 && b.Entered(j, p, rs);
    assert DataOf(b.l, b.files[j], j, p) == b.files[j].data[a..e];
  }

  lemma CollectedStep(leaf: Bytes -> Hash20, h: Hash2<Hash20>, data: Bytes, rs: seq<Hash20>, a: nat, e: nat, at: nat,
                      to: nat)
    requires a <= e <= |data| && at <= to <= |rs| && a % CHUNK == 0 && to == at + Leaves(e - a)
    requires rs[..at] == ChunkRoots(leaf, h, data[..a])
    requires at + |ChunkRoots(leaf, h, data[a..e])| <= |rs|
    requires rs[at..at + |ChunkRoots(leaf, h, data[a..e])|] == ChunkRoots(leaf, h, data[a..e])
    ensures rs[..to] == ChunkRoots(leaf, h, data[..e])
  {
    hide ChunkRoots;
    assert data[..e] == data[..a] + data[a..e];
    ChunkRootsConcat(leaf, h, data[..a], data[a..e]);
    ChunkRootsCount(leaf, h, data[a..e]);
    assert rs[..to] == rs[..at] + rs[at..to];
  }

  // A file that is all there, with no tree: its pieces are valid if and only if
  // the root that the torrent maker computes is the published one.
  lemma {:induction false} WholeFile(b: Before, j: nat, tree: T.Tree, valid: seq<bool>, p: nat)
    requires b.Fits() && j < |b.files| && |valid| == |b.valid| && b.l.files[j].size > 0
    requires Judged(b, true, j, tree, valid)
    requires b.Sound(j) && !b.RootOk(j) && b.trees[j] == map[]
    requires AllRead(b, j)
    requires p < |valid| && InRange(b.l, j, p)
    ensures b.l.files[j].size <= |b.files[j].data|
    ensures valid[p] <==>
      ReferenceRoot(b.leaf, b.inner, b.files[j].data[..b.l.files[j].size]) == Hash(b.roots[j])
  {
    var rs :| Built(b, j, tree, valid, rs);
    assert valid[p] <==> Root(b.inner, rs) == b.roots[j];
    hide *;
    var n := CPieces(b.l, j);
    CollectedUpTo(b, j, rs, n);
    AllBefore(b.l, j, FirstPiece(b.l, j) + n);
    AllOf(b.l, j);
    var file := b.files[j].data[..b.l.files[j].size];
    assert rs == rs[..|rs|] == ChunkRoots(b.leaf, b.inner, file);
    ChunkingComposes(b.leaf, b.inner, file);
  }

  lemma AllOf(l: Layout, j: nat)
    requires l.cb > 0 && j < |l.files|
    ensures Upto(l, j, CPieces(l, j)) == l.files[j].size
  {
    var size := l.files[j].size;
    var c := (size + l.cb - 1) / l.cb;
    assert l.cb * c <= size + l.cb - 1 < l.cb * c + l.cb;
  }

  // An empty tree has the root of twenty zeros. A file that publishes it is not
  // entered in its tree, and none of its pieces is valid.
  lemma {:induction false} ZeroRootIsTaken(b: Before, j: nat, tree: T.Tree, valid: seq<bool>, p: nat)
    requires b.Fits() && j < |b.files| && |valid| == |b.valid| && Judged(b, true, j, tree, valid)
    requires b.Sound(j) && b.trees[j] == map[]
    requires b.roots[j] == [0, 0, 0, 0, 0, 0, 0, 0, 0, 0, 0, 0, 0, 0, 0, 0, 0, 0, 0, 0]
    requires p < |valid| && InRange(b.l, j, p)
    ensures tree == map[] && !valid[p]
  {
    assert b.RootOk(j);
    if b.Reads(j, p) {
      PieceSize(b.l, j, p);
      ChunkRootsCount(b.leaf, b.inner, DataOf(b.l, b.files[j], j, p));
      assert b.Hashes(j, p) != [];
      assert !LeafIs(b.trees[j], LeavesBefore(b.l, j, p), b.Hashes(j, p)[0]);
      assert !b.Known(j, p);
    }
  }

  // A tree that knows nothing but the published root makes every piece of a file
  // of more than one chunk invalid.
  lemma {:induction false} RootIsNotEnough(b: Before, j: nat, tree: T.Tree, valid: seq<bool>, p: nat)
    requires b.Fits() && j < |b.files| && |valid| == |b.valid| && Judged(b, true, j, tree, valid)
    requires b.Sound(j) && b.trees[j] == RootOnly(b.Size(j), b.roots[j]) && b.l.files[j].size > CHUNK
    requires p < |valid| && InRange(b.l, j, p)
    ensures !valid[p]
  {
    assert b.RootOk(j) && b.Size(j) > 1 && Height(b.Size(j)) > 0;
    if b.Reads(j, p) {
      PieceSize(b.l, j, p);
      ChunkRootsCount(b.leaf, b.inner, DataOf(b.l, b.files[j], j, p));
      assert b.Hashes(j, p) != [];
      assert !LeafIs(b.trees[j], LeavesBefore(b.l, j, p), b.Hashes(j, p)[0]);
      assert !b.Known(j, p);
    }
  }
}
