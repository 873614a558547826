// The hasher walks over the pieces and the sub-files of a torrent at once. It
// decides which pieces are valid and opens the books.
module Hasher {
  import opened Arithmetic
  import opened StreamInt
  import opened FileRange
  import opened TorrentLayout
  import opened Torrent
  import M = MerklePieces
  import MerkleFiles
  import MerkleProofs
  import MerkleStream
  import P = Piece
  import TorrentInfo

  // ----- the books in the middle of a piece -----

  // The first `i` pieces and piece `i` up to byte `x` have been entered.
  ghost predicate MidCounted(l: Layout, valid: seq<bool>, i: nat, x: nat, f: seq<SubFile>, j: nat)
    requires i < |l.sizes| == |valid| && j < |f| == |l.files|
  {
    f[j].left == InvalidInFile(l, valid, i, j) +
      if valid[i] then 0 else Overlap(Start(l, i), x, l.files[j].offset, l.files[j].End())
  }

  ghost predicate MidBooks(l: Layout, valid: seq<bool>, i: nat, x: nat, left: int, f: seq<SubFile>)
    requires i < |l.sizes| == |valid| && |f| == |l.files|
  {
    left == InvalidSize(l, valid, i + 1) && forall j :: 0 <= j < |f| ==> MidCounted(l, valid, i, x, f, j)
  }

  lemma {:induction false} MidStart(l: Layout, valid: seq<bool>, now: seq<bool>, i: nat, left: int, f: seq<SubFile>)
    requires i < |l.sizes| == |valid| && |f| == |l.files| && Books(l, valid, i, left, f)
    requires |now| == |valid| && now == valid[i := now[i]]
    ensures MidBooks(l, now, i, Start(l, i), left + (if now[i] then 0 else l.sizes[i]), f)
  {
    InvalidSizeSame(l, valid, now, i);
    forall j | 0 <= j < |f|
      ensures MidCounted(l, now, i, Start(l, i), f, j)
    {
      assert FileCounted(l, valid, i, f, j);
      InvalidInSame(l, valid, now, i, l.files[j].offset, l.files[j].End());
    }
  }

  lemma {:induction false} MidStep(l: Layout, valid: seq<bool>, i: nat, x: nat, left: int, f: seq<SubFile>, sub: nat,
                                   n: nat, g: seq<SubFile>)
    requires Ok(l) && i < |l.sizes| == |valid| && |f| == |l.files| == |g| && sub < |f|
    requires MidBooks(l, valid, i, x, left, f)
    requires Start(l, i) <= x && (n > 0 ==> InFile(l, sub, x) && x + n <= l.files[sub].End())
    requires g == f[sub := g[sub]] && g[sub].left == f[sub].left + if valid[i] then 0 else n
    ensures MidBooks(l, valid, i, x + n, left, g)
  {
    var y := x + n;
    forall j | 0 <= j < |g|
      ensures MidCounted(l, valid, i, y, g, j)
    {
      assert MidCounted(l, valid, i, x, f, j);
      if n > 0 && j != sub {
        FileOrder(l, j, sub);
      }
    }
  }

  lemma {:induction false} MidEnd(l: Layout, valid: seq<bool>, i: nat, left: int, f: seq<SubFile>)
    requires i < |l.sizes| == |valid| && |f| == |l.files|
    requires MidBooks(l, valid, i, Start(l, i) + l.sizes[i], left, f)
    ensures Books(l, valid, i + 1, left, f)
  {
    var n := i + 1;
    forall j | 0 <= j < |f|
      ensures FileCounted(l, valid, n, f, j)
    {
      assert MidCounted(l, valid, i, Start(l, i) + l.sizes[i], f, j);
    }
  }

  // The end of file `sub` is reached at `x`, in or behind piece `i`.
  predicate AtEnd(l: Layout, sub: nat, i: nat, x: nat) {
    && sub < |l.files| && i < |l.sizes| && Start(l, i) <= x <= Start(l, i) + l.sizes[i]
    && (l.files[sub].size > 0 ==> x == l.files[sub].End() && Start(l, i) < x)
  }

  lemma {:induction false} RangeBelow(l: Layout, sub: nat, i: nat, x: nat, k: nat)
    requires Ok(l) && l.cb > 0 && Aligned(l) && AtEnd(l, sub, i, x) && InRange(l, sub, k)
    ensures k <= i && x == Start(l, i) + l.sizes[i] && InRange(l, sub, i)
  {
    NotEmpty(l, sub, k);
    RangeOfFile(l, sub, k);
    assert InFile(l, sub, x - 1) && InPiece(l, i, x - 1);
    PieceInRange(l, sub, i, x - 1);
    RangeOfFile(l, sub, i);
    StartsApart(l, i, k);
  }

  lemma {:induction false} FileIsInFirst(l: Layout, sub: nat, i: nat, n: nat, x: nat)
    requires Ok(l) && l.cb > 0 && AtEnd(l, sub, i, x) && n == i + 1
    ensures forall y: nat | l.files[sub].offset <= y < l.files[sub].End() :: InFirst(l, n, y)
  {
    forall y: nat | l.files[sub].offset <= y < l.files[sub].End()
      ensures InFirst(l, n, y)
    {
      assert InFile(l, sub, y);
      var p := PieceOf(l, sub, y);
      StartsApart(l, i, p);
      assert p < n;
    }
  }

  // All pieces of a file are made invalid, and its bytes are all left.
  lemma {:induction false} MidInvalidate(l: Layout, valid: seq<bool>, now: seq<bool>, i: nat, x: nat, left: int,
                                         f: seq<SubFile>, g: seq<SubFile>, sub: nat)
    requires Ok(l) && l.cb > 0 && Aligned(l) && AtEnd(l, sub, i, x)
    requires |valid| == |now| == |l.sizes| && |f| == |g| == |l.files|
    requires forall k :: 0 <= k < |valid| ==> now[k] == (if InRange(l, sub, k) then false else valid[k])
    requires MidBooks(l, valid, i, x, left, f) && g == f[sub := g[sub]] && g[sub].left == l.files[sub].size
    ensures MidBooks(l, now, i, x, InvalidSize(l, now, i + 1), g)
  {
    forall j | 0 <= j < |g|
      ensures MidCounted(l, now, i, x, g, j)
    {
      if j == sub {
        MidInvalidateHere(l, valid, now, i, x, g, sub);
      } else {
        MidInvalidateThere(l, valid, now, i, x, f, g, sub, j);
      }
    }
  }

  lemma {:induction false} MidInvalidateHere(l: Layout, valid: seq<bool>, now: seq<bool>, i: nat, x: nat,
                                             g: seq<SubFile>, sub: nat)
    requires Ok(l) && l.cb > 0 && Aligned(l) && AtEnd(l, sub, i, x)
    requires |valid| == |now| == |l.sizes| && |g| == |l.files| && g[sub].left == l.files[sub].size
    requires forall k :: 0 <= k < |valid| ==> now[k] == (if InRange(l, sub, k) then false else valid[k])
    ensures MidCounted(l, now, i, x, g, sub)
  {
    var e := l.files[sub];
    forall k | 0 <= k < i + 1
      ensures !now[k] || PieceOverlap(l, k, e.offset, e.End()) == 0
    {
      RangeApart(l, sub, k);
    }
    FileIsInFirst(l, sub, i, i + 1, x);
    AllInvalidIn(l, now, i + 1, e.offset, e.End());
    if e.size > 0 {
      assert InFile(l, sub, x - 1) && InPiece(l, i, x - 1);
      PieceInRange(l, sub, i, x - 1);
      RangeBelow(l, sub, i, x, i);
    }
  }

  lemma {:induction false} MidInvalidateThere(l: Layout, valid: seq<bool>, now: seq<bool>, i: nat, x: nat,
                                              f: seq<SubFile>, g: seq<SubFile>, sub: nat, j: nat)
    requires Ok(l) && l.cb > 0 && Aligned(l) && AtEnd(l, sub, i, x) && j != sub && j < |f|
    requires |valid| == |now| == |l.sizes| && |f| == |g| == |l.files| && g[j] == f[j]
    requires forall k :: 0 <= k < |valid| ==> now[k] == (if InRange(l, sub, k) then false else valid[k])
    requires MidCounted(l, valid, i, x, f, j)
    ensures MidCounted(l, now, i, x, g, j)
  {
    var e := l.files[j];
    forall k | 0 <= k < |valid|
      ensures valid[k] == now[k] || PieceOverlap(l, k, e.offset, e.End()) == 0
    {
      RangeApart(l, sub, k);
    }
    InvalidInSame(l, valid, now, i, e.offset, e.End());
    assert InRange(l, sub, i) ==> Overlap(Start(l, i), x, e.offset, e.End()) <= PieceOverlap(l, i, e.offset, e.End());
  }

  // The same bytes; and files from `from` on are open as they were.
  predicate SameDisk(f: seq<SubFile>, g: seq<SubFile>, from: nat) {
    && |f| == |g| && (forall j :: 0 <= j < |f| ==> f[j].data == g[j].data)
    && (forall j :: from <= j < |f| ==> f[j].mode == g[j].mode)
  }

  // A file is opened for reading and writing if possible, else for reading, or not.
  predicate OpenedIn(system: System, j: nat, mode: Mode) {
    && (mode == ReadWrite <==> j in system.toWrite)
    && (mode == Closed <==> j !in system.toWrite && j !in system.toRead)
  }

  // The first `s` files have been passed.
  predicate AllDowngraded(f: seq<SubFile>, g: seq<SubFile>, s: nat, toRead: set<nat>) {
    s <= |f| == |g| && forall j :: 0 <= j < s ==> Downgraded(f[j], g[j], j in toRead)
  }

  lemma {:induction false} SameSlice(l: Layout, f: seq<SubFile>, g: seq<SubFile>, from: nat, x: nat, d: Bytes)
    requires |f| == |g| == |l.files| && SameDisk(f, g, from) && Passed(l, from, x) && IsSlice(l, f, x, d)
    ensures IsSlice(l, g, x, d)
  {
    forall j, y | 0 <= j < |g| && x <= y < x + |d| && InFile(l, j, y)
      ensures Holds(l, g, j, y) && d[y - x] == ByteAt(l, g, j, y)
    {
      assert Holds(l, f, j, y) && j >= from;
    }
  }

  // ----- the pieces that are lost with a file -----

  // Where the file would be without padding, which is where `Open` looks.
  function Unpadded(l: Layout, j: nat): nat
    requires j <= |l.files|
  {
    if j == 0 then 0 else Unpadded(l, j - 1) + l.files[j - 1].size
  }

  // The last piece of `size` bytes from `offset` on.
  function Last(l: Layout, offset: nat, size: nat): nat
    requires l.cb > 0 && size > 0
  {
    IndexOf(l, offset + size - 1)
  }

  predicate LostWith(l: Layout, j: nat, p: nat)
    requires l.cb > 0 && j < |l.files|
  {
    l.files[j].size > 0 && IndexOf(l, Unpadded(l, j)) <= p <= Last(l, Unpadded(l, j), l.files[j].size)
  }

  ghost predicate Lost(l: Layout, f: seq<SubFile>, n: nat, p: nat)
    requires l.cb > 0 && n <= |f| == |l.files|
  {
    exists j :: 0 <= j < n && f[j].mode == Closed && LostWith(l, j, p)
  }

  lemma {:induction false} UnpaddedBelow(l: Layout, j: nat)
    requires Ok(l) && j < |l.files|
    ensures Unpadded(l, j) <= l.files[j].offset
  {
    if j > 0 {
      UnpaddedBelow(l, j - 1);
      FileOrder(l, j - 1, j);
    }
  }

  lemma {:induction false} OverlapInterval(l: Layout, j: nat, p: nat)
    requires Ok(l) && l.cb > 0 && j < |l.files| && p < |l.sizes| && l.files[j].size > 0
    ensures PieceOverlap(l, p, l.files[j].offset, l.files[j].End()) > 0 <==>
      IndexOf(l, l.files[j].offset) <= p <= Last(l, l.files[j].offset, l.files[j].size)
  {
    var e := l.files[j];
    var y := Max(e.offset, Start(l, p));
    DivOf(l.cb, e.offset, p);
    DivOf(l.cb, e.End() - 1, p);
    if e.offset / l.cb <= p <= (e.End() - 1) / l.cb {
      assert InFile(l, j, y);
      var q := PieceOf(l, j, y);
      StartsApart(l, q, p);
      StartsApart(l, p, q);
    }
  }

  lemma DivOf(cb: nat, x: nat, p: nat)
    requires cb > 0
    ensures x / cb <= p <==> x < cb * p + cb
    ensures p <= x / cb <==> cb * p <= x
  {
    MulMonotone(cb, x / cb, p);
    MulMonotone(cb, p, x / cb);
  }

  // The right pieces are lost with a file exactly if its place without padding
  // is in the pieces it lies in.
  lemma {:induction false} LostIffInPlace(l: Layout, j: nat)
    requires Ok(l) && Bounded(l) && l.cb > 0 && j < |l.files| && l.files[j].size > 0
    ensures (forall p :: 0 <= p < |l.sizes| ==> LostRightly(l, j, p)) <==> (
      && IndexOf(l, Unpadded(l, j)) == IndexOf(l, l.files[j].offset)
      && Last(l, Unpadded(l, j), l.files[j].size) == Last(l, l.files[j].offset, l.files[j].size))
  {
    hide Ok, Bounded, Unpadded, LostRightly, Between, IndexOf, Last;
    var e, s := l.files[j], Unpadded(l, j);
    var a, b, c, d := IndexOf(l, s), Last(l, s, e.size), IndexOf(l, e.offset), Last(l, e.offset, e.size);
    LostBounds(l, j);
    forall p | 0 <= p < |l.sizes|
      ensures LostRightly(l, j, p) <==> (Between(p, a, b) <==> Between(p, c, d))
    {
      LostBetween(l, j, p);
    }
    SameInterval(a, b, c, d, |l.sizes|);
  }

  // Two files of one byte that `info` accepts: when the second is missing, the
  // piece of the first is lost, and its own is not.
  lemma {:induction false} WrongPieceLost(l: Layout, single: TorrentInfo.Entry, entry: TorrentInfo.Entry)
    requires entry == TorrentInfo.Entry(1, true, true) && l == TorrentInfo.LayoutOf(true, 16384, [1, 1])
    ensures TorrentInfo.Accepted(true, true, 16384, single, [entry, entry], 0)
    ensures TorrentInfo.SizesOf(TorrentInfo.Parts(single, [entry, entry])) == [1, 1]
    ensures |l.files| == 2 && |l.sizes| == 2 && LostWith(l, 1, 0) && !LostWith(l, 1, 1)
    ensures PieceOverlap(l, 0, l.files[1].offset, l.files[1].End()) == 0
    ensures PieceOverlap(l, 1, l.files[1].offset, l.files[1].End()) == 1
  {
    TorrentInfo.TwoSmallFiles();
    var sizes := TorrentInfo.SizesOf([entry, entry]);
    assert sizes == [1, 1] && Sum([1, 1]) == 1 + Sum([1]) && [1, 1][1..] == [1];
    assert Unpadded(l, 1) == Unpadded(l, 0) + 1;
  }

  // A file of 32 KiB in pieces of 16 KiB, which `info` accepts.
  lemma {:induction false} SmallPiecesAccepted(l: Layout, entry: TorrentInfo.Entry)
    requires entry == TorrentInfo.Entry(32768, true, true) && l == TorrentInfo.LayoutOf(true, 16384, [32768])
    ensures TorrentInfo.Accepted(true, true, 16384, entry, [], 0)
    ensures TorrentInfo.SizesOf(TorrentInfo.Parts(entry, [])) == [32768]
    ensures l == Layout(16384, [16384, 16384], [Extent(0, 32768)]) && Ok(l) && Aligned(l) && Bounded(l)
    ensures MerkleFiles.Leaves(l.files[0].size) == 1 == MerkleFiles.Leaves(l.cb)
  {
    hide TorrentInfo.LayoutOf, TorrentInfo.Files, TorrentInfo.PowerOfTwo, Ok, Aligned, Bounded;
    TorrentInfo.SixteenKilo();
    TorrentInfo.PowerOfTwoIsOk(16384, [32768]);
    TorrentInfo.TwoSmallPieces();
    TorrentInfo.SingleFile(true, 16384, [32768]);
    assert MerkleFiles.Leaves(16384) == 1;
    var sizes := TorrentInfo.SizesOf([entry]);
    assert sizes == [32768] && Sum([32768]) == 32768;
  }

  predicate LostRightly(l: Layout, j: nat, p: nat)
    requires l.cb > 0 && j < |l.files| && p < |l.sizes|
  {
    LostWith(l, j, p) <==> PieceOverlap(l, p, l.files[j].offset, l.files[j].End()) > 0
  }

  lemma LostBetween(l: Layout, j: nat, p: nat)
    requires Ok(l) && l.cb > 0 && j < |l.files| && p < |l.sizes| && l.files[j].size > 0
    ensures LostRightly(l, j, p) <==>
      (Between(p, IndexOf(l, Unpadded(l, j)), Last(l, Unpadded(l, j), l.files[j].size)) <==>
       Between(p, IndexOf(l, l.files[j].offset), Last(l, l.files[j].offset, l.files[j].size)))
  {
    hide Ok, Unpadded, PieceOverlap;
    OverlapInterval(l, j, p);
  }

  predicate Between(p: nat, a: nat, b: nat) {
    a <= p <= b
  }

  lemma LostBounds(l: Layout, j: nat)
    requires Ok(l) && Bounded(l) && l.cb > 0 && j < |l.files| && l.files[j].size > 0
    ensures IndexOf(l, Unpadded(l, j)) <= Last(l, Unpadded(l, j), l.files[j].size) < |l.sizes|
    ensures IndexOf(l, l.files[j].offset) <= Last(l, l.files[j].offset, l.files[j].size) < |l.sizes|
  {
    var e, s := l.files[j], Unpadded(l, j);
    UnpaddedBelow(l, j);
    DivMonotone(l.cb, s, s + e.size - 1);
    DivMonotone(l.cb, e.offset, e.End() - 1);
    DivBelow(l.cb, s + e.size - 1, |l.sizes|);
    DivBelow(l.cb, e.End() - 1, |l.sizes|);
  }

  lemma SameInterval(a: nat, b: nat, c: nat, d: nat, n: nat)
    requires a <= b < n && c <= d < n
    ensures (forall p :: 0 <= p < n ==> (Between(p, a, b) <==> Between(p, c, d))) <==> a == c && b == d
  {
    assert Between(a, a, b) && Between(b, a, b) && Between(c, c, d) && Between(d, c, d);
  }

  class Hasher {
    const validate: bool
    var i: nat
    var chunk: nat
    var off: nat
    var sub: nat
    ghost var rs: seq<Hash20>  // the hashes of the chunks of file `sub` so far

    constructor (v: bool)
      ensures validate == v && Fresh()
    {
      validate, i, chunk, off, sub, rs := v, 0, 0, 0, 0, [];
    }

    ghost predicate Fresh()
      reads this
    {
      i == 0 && chunk == 0 && off == 0 && rs == []
    }

    // The cursor stands at the start of piece `i`, and the pieces before it are
    // in the books.
    ghost predicate Walked(t: Torrent)
      reads this, t, t.pieces
    {
      && t.Valid() && (t.merkle ==> Aligned(t.l)) && i <= |t.pieces|
      && (if i == 0 then Fresh() else At(t.l, sub, off, Start(t.l, i)))
      && Books(t.l, t.valid, i, t.left, t.files)
    }

    // What a run would start from.
    ghost function Scene(t: Torrent): M.Before
      reads t
    {
      M.Before(t.l, M.LeafHash(t.digest), M.InnerHash(t.digest), t.roots, t.files, t.trees, t.valid)
    }

    ghost predicate FromTorrent(t: Torrent, b: M.Before) {
      b == M.Before(t.l, M.LeafHash(t.digest), M.InnerHash(t.digest), t.roots, b.files, b.trees, b.valid)
    }

    // What is known of a run that started from `b`, when `n` pieces have been
    // judged and the cursor is in file `s`.
    ghost predicate Follows(t: Torrent, b: M.Before, n: nat, s: nat)
      reads this, t
    {
      Tracked(t, b, n, s) && AllDowngraded(b.files, t.files, s, t.system.toRead)
    }

    ghost predicate Tracked(t: Torrent, b: M.Before, n: nat, s: nat)
      reads this, t
    {
      && FromTorrent(t, b) && SameDisk(b.files, t.files, s)
      && (t.merkle && M.Solid(t.l) ==> M.Tracks(b, validate, n, s, chunk, t.trees, t.valid, rs))
    }

    ghost predicate FollowsHere(t: Torrent, b: M.Before)
      reads this, t
    {
      Follows(t, b, i, if i == 0 then 0 else sub)
    }

    // All pieces of a file whose Merkle root is wrong become invalid.
    method InvalidateFile(t: Torrent)
      requires t.Valid() && Aligned(t.l) && i < |t.pieces| && sub < |t.files|
      requires forall k: nat :: InRange(t.l, sub, k) ==> k <= i
      requires t.left == InvalidSize(t.l, t.valid, i + 1)
      modifies t`files, t`left, t`trees, t`valid, t.pieces
      ensures t.Valid() && t.left == InvalidSize(t.l, t.valid, i + 1)
      ensures forall k :: 0 <= k < |t.valid| ==> t.valid[k] == (if InRange(t.l, sub, k) then false else old(t.valid)[k])
      ensures t.files == old(t.files)[sub := old(t.files)[sub].(left := t.l.files[sub].size)]
      ensures t.trees == old(t.trees)[sub := RootTree(t, sub)]
    {
      hide Ok, Bounded, Aligned, Torrent.PiecesOk;
      var first := t.l.files[sub].offset / t.l.cb;
      for k := 0 to (t.l.files[sub].size + t.l.cb - 1) / t.l.cb
        invariant t.Valid() && t.left == InvalidSize(t.l, t.valid, i + 1)
        invariant t.files == old(t.files) && t.trees == old(t.trees)
        invariant forall p :: 0 <= p < |t.valid| ==>
          t.valid[p] == (if first <= p < first + k then false else old(t.valid)[p])
      {
        assert InRange(t.l, sub, first + k);
        InvalidatePiece(t, first + k);
      }
      t.files := t.files[sub := t.files[sub].(left := t.l.files[sub].size)];
      t.trees := t.trees[sub := RootTree(t, sub)];
    }

    method InvalidatePiece(t: Torrent, p: nat)
      requires t.Valid() && p <= i < |t.pieces| && t.left == InvalidSize(t.l, t.valid, i + 1)
      modifies t`left, t`valid, t.pieces
      ensures t.Valid() && t.left == InvalidSize(t.l, t.valid, i + 1) && t.valid == old(t.valid)[p := false]
    {
      hide Ok, Bounded, Torrent.PiecesOk;
      t.PieceAt(p);
      ghost var now := t.valid[p := false];
      if t.pieces[p].valid {
        t.left := t.left + t.pieces[p].size;
        InvalidSizeUpdate(t.l, now, i + 1, p);
        assert now[p := true] == t.valid;
      } else {
        assert now == t.valid;
      }
      t.SetPiece(p, false);
    }

    // A tree that knows the published root only.
    function RootTree(t: Torrent, j: nat): Tree
      requires j < |t.l.files| == |t.roots|
    {
      MerkleProofs.RootOnly(MerkleFiles.Leaves(t.l.files[j].size), t.roots[j])
    }

    // The tree of a file has the published root. An empty file has no root, and
    // what is read then may be anything.
    method HasRoot(t: Torrent, j: nat) returns (ok: bool)
      requires j < |t.l.files| == |t.roots| == |t.trees|
      ensures t.l.files[j].size > 0 ==> (ok <==>
        MerkleFiles.RootOf(MerkleFiles.Leaves(t.l.files[j].size), t.trees[j], M.BLANK) == t.roots[j])
    {
      ok := *;
      if t.l.files[j].size > 0 {
        ok := MerkleFiles.RootOf(MerkleFiles.Leaves(t.l.files[j].size), t.trees[j], M.BLANK) == t.roots[j];
      }
    }

    // Enters the bytes of piece `i` file by file.
    method WalkFiles(t: Torrent, ghost b: M.Before)
      requires t.Valid() && (t.merkle ==> Aligned(t.l)) && i < |t.pieces|
      requires At(t.l, sub, off, Start(t.l, i)) && MidBooks(t.l, t.valid, i, Start(t.l, i), t.left, t.files)
      requires Follows(t, b, i + 1, sub)
      modifies this`chunk, this`off, this`rs, this`sub, t`files, t`left, t`trees, t`valid, t.pieces
      ensures t.Valid() && At(t.l, sub, off, Start(t.l, i) + t.l.sizes[i])
      ensures Follows(t, b, i + 1, sub)
      ensures MidBooks(t.l, t.valid, i, Start(t.l, i) + t.l.sizes[i], t.left, t.files)
      ensures !t.merkle ==> t.valid == old(t.valid)
    {
      hide Ok, Bounded, Aligned, At, MidBooks, Follows;
      ghost var l := t.l;
      ghost var end := Start(l, i) + l.sizes[i];
      assert t.PieceOk(i);
      var cb0 := t.pieces[i].size;
      hide Torrent.PiecesOk;
      while cb0 != 0
        invariant 0 <= cb0 <= l.sizes[i] && t.Valid() && At(l, sub, off, end - cb0)
        invariant MidBooks(l, t.valid, i, end - cb0, t.left, t.files)
        invariant !t.merkle ==> t.valid == old(t.valid)
        invariant Follows(t, b, i + 1, sub)
        decreases cb0, |t.files| - sub
      {
        var cb1 := WalkFile(t, b, end - cb0, cb0);
        cb0 := cb0 - cb1;
      }
    }

    // One turn: `cb0` bytes of the piece are left, from `x` on, and `cb1` of them
    // are entered in the file of the cursor.
    method WalkFile(t: Torrent, ghost b: M.Before, ghost x: nat, cb0: nat) returns (cb1: nat)
      requires t.Valid() && (t.merkle ==> Aligned(t.l)) && i < |t.pieces| && cb0 > 0
      requires x + cb0 == Start(t.l, i) + t.l.sizes[i] && InPiece(t.l, i, x) && At(t.l, sub, off, x)
      requires MidBooks(t.l, t.valid, i, x, t.left, t.files) && Follows(t, b, i + 1, sub)
      modifies this`chunk, this`off, this`rs, this`sub, t`files, t`left, t`trees, t`valid, t.pieces
      ensures t.Valid() && cb1 <= cb0 && At(t.l, sub, off, x + cb1)
      ensures MidBooks(t.l, t.valid, i, x + cb1, t.left, t.files) && Follows(t, b, i + 1, sub)
      ensures !t.merkle ==> t.valid == old(t.valid)
      ensures cb1 == 0 ==> old(sub) < sub <= |t.files|
    {
      hide Ok, Bounded, Aligned, At, MidBooks, AtEnd, M.Tracks, M.Solid, SameDisk, Downgraded, FromTorrent;
      hide Torrent.PiecesOk;
      CursorIn(t.l, sub, off, i, x);
      cb1 := Min(cb0, t.l.files[sub].size - off);
      Advance(t.l, sub, off, i, x, cb1);
      ghost var f := t.files;
      EnterBytes(t, x, cb1);
      SameDiskChain(b.files, f, t.files, sub, 0);
      off := off + cb1;
      if off == t.l.files[sub].size {
        FileEnds(t.l, sub, off - cb1, i, x, cb1);
        EndFile(t, b, x + cb1);
        off := 0;
        sub := sub + 1;
      }
    }

    lemma CursorIn(l: Layout, sub: nat, off: nat, i: nat, x: nat)
      requires Ok(l) && At(l, sub, off, x) && i < |l.sizes| && InPiece(l, i, x)
      ensures sub < |l.files| && off <= l.files[sub].size && (off == l.files[sub].size ==> l.files[sub].size == 0)
      ensures M.Solid(l) ==> l.files[sub].size > 0
    {
      AtByte(l, sub, off, i, x);
      var j := FileOf(l, i, x);
      assert j >= sub;
    }

    lemma FileEnds(l: Layout, sub: nat, off: nat, i: nat, x: nat, n: nat)
      requires Ok(l) && At(l, sub, off, x) && i < |l.sizes| && InPiece(l, i, x) && sub < |l.files|
      requires off + n == l.files[sub].size && x + n <= Start(l, i) + l.sizes[i]
      ensures AtEnd(l, sub, i, x + n)
    {
      AtByte(l, sub, off, i, x);
    }

    method EnterBytes(t: Torrent, ghost x: nat, cb1: nat)
      requires t.Valid() && i < |t.pieces| && sub < |t.files|
      requires Start(t.l, i) <= x && (cb1 > 0 ==> InFile(t.l, sub, x) && x + cb1 <= t.l.files[sub].End())
      requires MidBooks(t.l, t.valid, i, x, t.left, t.files)
      modifies t`files
      ensures t.Valid() && MidBooks(t.l, t.valid, i, x + cb1, t.left, t.files) && SameDisk(old(t.files), t.files, 0)
      ensures sub < |old(t.files)| == |t.files| && t.files == old(t.files)[sub := t.files[sub]]
    {
      hide Bounded, MidBooks;
      assert t.PieceOk(i);
      if !t.pieces[i].valid {
        t.files := t.files[sub := t.files[sub].(left := t.files[sub].left + cb1)];
      }
      assert t.files == old(t.files)[sub := t.files[sub]];
      MidStep(t.l, t.valid, i, x, t.left, old(t.files), sub, cb1, t.files);
    }

    // File `sub` has been entered. In a Merkle torrent its root may turn out to
    // be wrong; a file that is complete is opened again for reading only.
    method EndFile(t: Torrent, ghost b: M.Before, ghost x: nat)
      requires t.Valid() && (t.merkle ==> Aligned(t.l)) && AtEnd(t.l, sub, i, x) && i < |t.pieces|
      requires MidBooks(t.l, t.valid, i, x, t.left, t.files)
      requires Follows(t, b, i + 1, sub) && (M.Solid(t.l) ==> t.l.files[sub].size > 0)
      modifies this`chunk, this`rs, t`files, t`left, t`trees, t`valid, t.pieces
      ensures t.Valid() && MidBooks(t.l, t.valid, i, x, t.left, t.files) && chunk == 0 && rs == []
      ensures Follows(t, b, i + 1, sub + 1) && (!t.merkle ==> t.valid == old(t.valid))
    {
      hide Ok, Bounded, Aligned, M.Tracks, M.Solid, MidBooks, SameDisk, AllDowngraded, FromTorrent, Torrent.PiecesOk;
      SameMode(b.files, t.files, sub);
      CheckRoot(t, b, x);
      ghost var f := t.files;
      if t.files[sub].left == 0 {
        Reopen(t, x);
        SameDiskChain(b.files, f, t.files, sub + 1, sub + 1);
      }
      DowngradedNext(b.files, old(t.files), t.files, sub, t.system.toRead);
    }

    lemma SameMode(f: seq<SubFile>, g: seq<SubFile>, s: nat)
      requires SameDisk(f, g, s) && s < |g|
      ensures s < |f| && f[s].mode == g[s].mode
    {
    }

    lemma DowngradedNext(f: seq<SubFile>, g: seq<SubFile>, h: seq<SubFile>, s: nat, toRead: set<nat>)
      requires AllDowngraded(f, g, s, toRead) && s < |g| == |h| && h == g[s := h[s]]
      requires Downgraded(f[s], h[s], s in toRead)
      ensures AllDowngraded(f, h, s + 1, toRead)
    {
    }

    method Reopen(t: Torrent, ghost x: nat)
      requires t.Valid() && sub < |t.files| && i < |t.pieces| && MidBooks(t.l, t.valid, i, x, t.left, t.files)
      modifies t`files
      ensures t.Valid() && MidBooks(t.l, t.valid, i, x, t.left, t.files) && SameDisk(old(t.files), t.files, sub + 1)
      ensures sub < |old(t.files)| == |t.files| && t.files == old(t.files)[sub := t.files[sub]]
      ensures t.files[sub].left == old(t.files)[sub].left
      ensures t.files[sub].mode == if sub in t.system.toRead then ReadOnly else Closed
    {
      hide Ok, Bounded, MidBooks, Torrent.PiecesOk;
      t.files := t.files[sub := t.files[sub].(mode := if sub in t.system.toRead then ReadOnly else Closed)];
      MidSame(t.l, t.valid, i, x, t.left, old(t.files), t.files);
    }

    // The pieces of a file with a wrong root are invalid, and its tree is reset.
    method CheckRoot(t: Torrent, ghost b: M.Before, ghost x: nat)
      requires t.Valid() && (t.merkle ==> Aligned(t.l)) && AtEnd(t.l, sub, i, x) && i < |t.pieces|
      requires MidBooks(t.l, t.valid, i, x, t.left, t.files)
      requires Tracked(t, b, i + 1, sub) && (M.Solid(t.l) ==> t.l.files[sub].size > 0)
      modifies this`chunk, this`rs, t`files, t`left, t`trees, t`valid, t.pieces
      ensures t.Valid() && MidBooks(t.l, t.valid, i, x, t.left, t.files) && chunk == 0 && rs == []
      ensures Tracked(t, b, i + 1, sub + 1) && (!t.merkle ==> t.valid == old(t.valid))
      ensures sub < |old(t.files)| == |t.files| && t.files == old(t.files)[sub := t.files[sub]]
      ensures t.files[sub].mode == old(t.files)[sub].mode
    {
      hide Ok, Bounded, Aligned, M.Tracks, M.Solid, MidBooks, MerkleFiles.RootOf, MerkleFiles.Leaves, Torrent.PiecesOk;
      var rootOk := HasRoot(t, sub);
      if t.merkle && !rootOk {
        forall k: nat | InRange(t.l, sub, k)
          ensures k <= i
        {
          RangeBelow(t.l, sub, i, x, k);
        }
        MidLeft(t.l, t.valid, i, x, t.left, t.files);
        InvalidateFile(t);
        MidInvalidate(t.l, old(t.valid), t.valid, i, x, old(t.left), old(t.files), t.files, sub);
      }
      assert t.trees == old(t.trees)[sub := t.trees[sub]];
      hide AtEnd, InRange;
      if t.merkle && M.Solid(t.l) {
        EndOfFile(b, x, old(t.trees), old(t.valid), t.trees[sub], t.valid);
      }
      chunk, rs := 0, [];
    }

    lemma EndOfFile(b: M.Before, x: nat, trees: seq<Tree>, valid: seq<bool>, m: Tree, valid': seq<bool>)
      requires M.Tracks(b, validate, i + 1, sub, chunk, trees, valid, rs)
      requires AtEnd(b.l, sub, i, x) && b.l.files[sub].size > 0 && |valid'| == |valid|
      requires b.l.cb > 0 && |b.roots| == |trees| == |b.l.files| && M.Ended(b, sub, trees[sub], valid, m, valid')
      ensures M.Tracks(b, validate, i + 1, sub + 1, 0, trees[sub := m], valid', [])
    {
      hide M.Judged, M.Progress, M.Ended, Ok, Aligned;
      FileIsDone(b.l, sub, i, x);
      hide *;
      M.TracksEnd(b, validate, i + 1, sub, chunk, trees, valid, rs, m, valid');
    }

    lemma FileIsDone(l: Layout, sub: nat, i: nat, x: nat)
      requires Ok(l) && l.cb > 0 && Aligned(l) && AtEnd(l, sub, i, x) && l.files[sub].size > 0
      ensures FirstPiece(l, sub) + CPieces(l, sub) <= i + 1
      ensures sub + 1 < |l.files| && l.files[sub + 1].size > 0 ==> i + 1 <= FirstPiece(l, sub + 1)
    {
      var next := sub + 1;
      M.FileHasPieces(l, sub);
      RangeBelow(l, sub, i, x, FirstPiece(l, sub) + CPieces(l, sub) - 1);
      if next < |l.files| && l.files[next].size > 0 {
        M.FileHasPieces(l, next);
        RangeOfFile(l, next, FirstPiece(l, next));
        FileOrder(l, sub, next);
        if FirstPiece(l, next) <= i {
          StartsRise(l, FirstPiece(l, next), i);
        }
      }
    }

    lemma MidLeft(l: Layout, valid: seq<bool>, i: nat, x: nat, left: int, f: seq<SubFile>)
      requires i < |l.sizes| == |valid| && |f| == |l.files| && MidBooks(l, valid, i, x, left, f)
      ensures left == InvalidSize(l, valid, i + 1)
    {
    }

    lemma MidSame(l: Layout, valid: seq<bool>, i: nat, x: nat, left: int, f: seq<SubFile>, g: seq<SubFile>)
      requires i < |l.sizes| == |valid| && |f| == |g| == |l.files| && MidBooks(l, valid, i, x, left, f)
      requires forall j :: 0 <= j < |f| ==> f[j].left == g[j].left
      ensures MidBooks(l, valid, i, x, left, g)
    {
      forall j | 0 <= j < |g|
        ensures MidCounted(l, valid, i, x, g, j)
      {
        assert MidCounted(l, valid, i, x, f, j);
      }
    }

    // Reads piece `i` of a Merkle torrent, and hashes its chunks.
    method JudgeChunks(t: Torrent, ghost b: M.Before) returns (ok: bool)
      requires t.Valid() && i < |t.pieces| && At(t.l, sub, off, Start(t.l, i))
      requires t.merkle && validate && Aligned(t.l) && Follows(t, b, i, sub)
      modifies this`chunk, this`rs, t`trees
      ensures t.Valid() && |t.trees| == |old(t.trees)|
      ensures M.Solid(t.l) ==> M.Tracks(b, true, i + 1, sub, chunk, t.trees, t.valid[i := ok], rs)
    {
      hide Ok, Bounded, Aligned, At, M.Tracks, M.Solid, SameDisk, InRange, IsSlice, Readable;
      PieceHere(t.l, sub, off, i);
      var n := MerkleFiles.Leaves(t.l.files[sub].size);
      var rootOk := HasRoot(t, sub);
      var readable, d := t.ReadPiece(i);
      var tree;
      ghost var now;
      ok, tree, now := MerkleFiles.JudgeChunks(
        M.LeafHash(t.digest), M.InnerHash(t.digest), n, t.trees[sub], chunk, rootOk, d, readable);
      if M.Solid(t.l) {
        ChunksTrack(t, b, tree, d, readable, ok, now);
      }
      t.trees, chunk, rs := t.trees[sub := tree], chunk + MerkleFiles.Leaves(|d|), rs + now;
    }

    lemma ChunksTrack(t: Torrent, b: M.Before, tree: Tree, d: Bytes, readable: bool, ok: bool, now: seq<Hash20>)
      requires t.Valid() && i < |t.pieces| && sub < |t.files| && InRange(t.l, sub, i)
      requires FromTorrent(t, b) && SameDisk(b.files, t.files, sub)
      requires M.Tracks(b, true, i, sub, chunk, t.trees, t.valid, rs)
      requires |d| == t.l.sizes[i] && (readable ==> IsSlice(t.l, t.files, Start(t.l, i), d))
      requires readable <==> Readable(t.l, t.files, Start(t.l, i), t.l.sizes[i])
      requires b.Fits() ==> M.ChunksJudged(b, sub, t.trees[sub], chunk, tree, d, readable, ok, now)
      ensures M.Tracks(b, true, i + 1, sub, chunk + |now|, t.trees[sub := tree], t.valid[i := readable && ok], rs + now)
    {
      hide Ok, Aligned, Bounded, M.Judged, M.Progress, InRange, M.ChunksJudged, IsSlice, Readable;
      M.PieceRead(b, sub, i, t.files, d, readable);
      M.TracksJudge(b, i, sub, chunk, t.trees, t.valid, rs, tree, d, readable, ok, now);
    }

    lemma PieceHere(l: Layout, sub: nat, off: nat, i: nat)
      requires Ok(l) && l.cb > 0 && Aligned(l) && At(l, sub, off, Start(l, i)) && i < |l.sizes|
      ensures sub < |l.files| && (M.Solid(l) ==> l.files[sub].size > 0 && InRange(l, sub, i))
    {
      assert InPiece(l, i, Start(l, i));
      CursorIn(l, sub, off, i, Start(l, i));
      AtByte(l, sub, off, i, Start(l, i));
      if M.Solid(l) {
        PieceInRange(l, sub, i, Start(l, i));
      }
    }

    // Decides whether piece `i` is valid.
    method Judge(t: Torrent, ghost b: M.Before)
      requires t.Valid() && i < |t.pieces| && Books(t.l, t.valid, i, t.left, t.files)
      requires At(t.l, sub, off, Start(t.l, i)) && (t.merkle ==> Aligned(t.l)) && Follows(t, b, i, sub)
      modifies this`chunk, this`rs, t`left, t`trees, t`valid, t.pieces
      ensures t.Valid() && MidBooks(t.l, t.valid, i, Start(t.l, i), t.left, t.files)
      ensures t.valid == old(t.valid)[i := t.valid[i]] && (!validate ==> t.valid == old(t.valid))
      ensures !t.merkle && validate ==> (t.valid[i] <==> t.Matches(t.files, i))
      ensures Follows(t, b, i + 1, sub)
    {
      hide Ok, Bounded, MidBooks, Books, At, M.Tracks, M.Solid, SameDisk, AllDowngraded, FromTorrent;
      if validate {
        var ok;
        if t.merkle {
          ok := JudgeChunks(t, b);
        } else {
          var readable;
          ok, readable := t.CheckPiece(i);
          ok := readable && ok;
          MatchesIsReadable(t, i);
        }
        t.SetPiece(i, ok);
      } else if t.merkle && M.Solid(t.l) {
        M.TracksSkip(b, i, sub, chunk, t.trees, t.valid, rs);
      }
      assert t.PieceOk(i) && t.valid == old(t.valid)[i := t.valid[i]];
      MidStart(t.l, old(t.valid), t.valid, i, t.left, t.files);
      if !t.pieces[i].valid {
        t.left := t.left + t.pieces[i].size;
      }
      assert t.PiecesOk();
    }

    // One piece further; false when there is none.
    method Run(t: Torrent, ghost b: M.Before) returns (more: bool)
      requires Walked(t) && FollowsHere(t, b)
      modifies this, t`files, t`left, t`trees, t`valid, t.pieces
      ensures Walked(t) && more == (old(i) < |t.pieces|) && i == old(i) + (if more then 1 else 0)
      ensures FollowsHere(t, b)
      ensures !more ==> t.files == old(t.files) && t.trees == old(t.trees) && t.valid == old(t.valid)
      ensures more && !t.merkle ==> t.valid == old(t.valid)[old(i) := t.valid[old(i)]]
      ensures more && !t.merkle && !validate ==> t.valid == old(t.valid)
      ensures more && !t.merkle && validate ==> (t.valid[old(i)] <==> t.Matches(b.files, old(i)))
    {
      hide Ok, Bounded, Aligned, MidBooks, Books, SameDisk, AllDowngraded, At, M.Tracks, M.Solid, FromTorrent;
      if i >= |t.pieces| {
        return false;
      }
      if i == 0 {
        sub := 0;
        AtStart(t.l);
      }
      CursorPassed(t.l, sub, off, i);
      MatchesSame(t, b.files, t.files, sub, i);
      Judge(t, b);
      WalkFiles(t, b);
      MidEnd(t.l, t.valid, i, t.left, t.files);
      NextPiece(t.l, sub, off, i);
      i := i + 1;
      more := true;
    }

    lemma AtStart(l: Layout)
      ensures At(l, 0, 0, Start(l, 0))
    {
    }

    lemma MatchesIsReadable(t: Torrent, i: nat)
      requires t.Valid() && i < |t.pieces|
      ensures t.Matches(t.files, i) ==> Readable(t.l, t.files, Start(t.l, i), t.l.sizes[i])
    {
    }

    lemma CursorPassed(l: Layout, sub: nat, off: nat, k: nat)
      requires At(l, sub, off, Start(l, k))
      ensures Passed(l, sub, Start(l, k))
    {
    }

    lemma MatchesSame(t: Torrent, f: seq<SubFile>, g: seq<SubFile>, from: nat, k: nat)
      requires SameDisk(f, g, from) && |g| == |t.l.files| && k < |t.l.sizes| == |t.hashes|
      requires Passed(t.l, from, Start(t.l, k))
      ensures |f| == |g| && (t.Matches(f, k) <==> t.Matches(g, k))
    {
      if d: Bytes :| |d| == t.l.sizes[k] && IsSlice(t.l, f, Start(t.l, k), d) && t.digest(d) == t.hashes[k] {
        SameSlice(t.l, f, g, from, Start(t.l, k), d);
      }
      if d: Bytes :| |d| == t.l.sizes[k] && IsSlice(t.l, g, Start(t.l, k), d) && t.digest(d) == t.hashes[k] {
        SameSlice(t.l, g, f, from, Start(t.l, k), d);
      }
    }

    lemma SameDiskChain(f: seq<SubFile>, g: seq<SubFile>, h: seq<SubFile>, a: nat, b: nat)
      requires SameDisk(f, g, a) && SameDisk(g, h, b)
      ensures SameDisk(f, h, Max(a, b))
    {
    }

    // The whole torrent. In a Merkle torrent every file with bytes has been
    // judged.
    method RunAll(t: Torrent)
      requires Walked(t) && i == 0
      modifies this, t`files, t`left, t`trees, t`valid, t.pieces
      ensures t.Valid() && Books(t.l, t.valid, |t.valid|, t.left, t.files) && SameDisk(old(t.files), t.files, |t.files|)
      ensures !t.merkle && !validate ==> t.valid == old(t.valid)
      ensures !t.merkle && validate ==> forall k :: 0 <= k < |t.valid| ==> (t.valid[k] <==> t.Matches(old(t.files), k))
      ensures t.merkle && M.Solid(t.l) ==> M.AllJudged(old(Scene(t)), validate, t.trees, t.valid)
      ensures forall j :: 0 <= j < |t.files| && t.l.files[j].size > 0 ==>
        Downgraded(old(t.files)[j], t.files[j], j in t.system.toRead)
    {
      hide Ok, Bounded, Aligned, Books, At, SameDisk, M.Tracks, M.Solid;
      var more := true;
      ghost var b := Scene(t);
      StartOfRun(t, b);
      while more
        invariant Walked(t) && FollowsHere(t, b) && (!more ==> i == |t.pieces|)
        invariant !t.merkle && !validate ==> t.valid == old(t.valid)
        invariant !t.merkle && validate ==> forall k :: 0 <= k < i ==> (t.valid[k] <==> t.Matches(b.files, k))
        decreases |t.pieces| - i, more
      {
        more := Run(t, b);
      }
      EndOfRun(t, b);
    }

    // A run that checks a Merkle torrent and has come to piece `i`: its counter is
    // at the chunk the piece starts with if and only if pieces are whole chunks or
    // the piece is the first of its file.
    lemma ChunkIsRightIff(t: Torrent, b: M.Before)
      requires Walked(t) && FollowsHere(t, b) && t.merkle && validate && M.Solid(t.l) && i < |t.pieces|
      ensures var s := if i == 0 then 0 else sub;
        && s < |t.l.files| && InRange(t.l, s, i)
        && (MerkleStream.CHUNK * chunk == M.Pos(t.l, s, i) <==>
              t.l.cb % MerkleStream.CHUNK == 0 || i == FirstPiece(t.l, s))
    {
      hide Ok, Bounded, Aligned, Books, At, SameDisk, M.Tracks, M.Solid, Torrent.PiecesOk;
      AtStart(t.l);
      PieceHere(t.l, if i == 0 then 0 else sub, if i == 0 then 0 else off, i);
      M.CounterIsRightIff(b, i, if i == 0 then 0 else sub, chunk, t.trees, t.valid, rs);
    }

    // A file of 32 KiB has one leaf. In pieces of 16 KiB, every run is behind that
    // leaf when it comes to the second piece.
    lemma LeafBehindLast(t: Torrent, b: M.Before)
      requires Walked(t) && FollowsHere(t, b) && t.merkle && validate && i == 1
      requires t.l == TorrentInfo.LayoutOf(true, 16384, [32768])
      ensures sub == 0 && chunk == 1 == MerkleFiles.Leaves(t.l.files[0].size)
    {
      hide Books, SameDisk, Torrent.PiecesOk, M.Judged, M.Progress, TorrentInfo.LayoutOf;
      SmallPiecesAccepted(t.l, TorrentInfo.Entry(32768, true, true));
      PieceHere(t.l, sub, off, i);
    }

    lemma StartOfRun(t: Torrent, b: M.Before)
      requires Walked(t) && i == 0 && b == Scene(t)
      ensures FollowsHere(t, b)
    {
      hide Ok, Bounded, M.Tracks;
      if t.merkle {
        M.TracksStart(b, validate);
      }
    }

    lemma EndOfRun(t: Torrent, b: M.Before)
      requires Walked(t) && i == |t.pieces| && FollowsHere(t, b)
      ensures SameDisk(b.files, t.files, |t.files|)
      ensures forall j :: 0 <= j < |t.files| && t.l.files[j].size > 0 ==>
        Downgraded(b.files[j], t.files[j], j in t.system.toRead)
      ensures t.merkle && M.Solid(t.l) ==> M.AllJudged(b, validate, t.trees, t.valid)
    {
      assert |t.pieces| == |t.l.sizes|;
      hide M.Judged, M.Progress, M.Tracks, M.AllJudged, M.Solid, Ok, Bounded, Books, At, Torrent.PiecesOk;
      var s := if i == 0 then 0 else sub;
      AtStart(t.l);
      AllPassed(t.l, s, if i == 0 then 0 else off);
      if t.merkle && M.Solid(t.l) {
        M.TracksDone(b, validate, i, s, chunk, t.trees, t.valid, rs);
      }
    }

    // At the end of the pieces only empty files are left.
    lemma AllPassed(l: Layout, s: nat, o: nat)
      requires Ok(l) && Bounded(l) && At(l, s, o, Start(l, |l.sizes|))
      ensures s <= |l.files| && forall m :: s <= m < |l.files| ==> l.files[m].size == 0
    {
    }

    // Opens the sub-files; pieces of files that are missing are not valid.
    method OpenFiles(t: Torrent)
      requires t.Valid()
      modifies t`files, t`valid, t.pieces
      ensures t.Valid()
      ensures forall j :: 0 <= j < |t.files| ==> t.files[j].data == old(t.files)[j].data
      ensures forall j :: 0 <= j < |t.files| ==> OpenedIn(t.system, j, t.files[j].mode)
      ensures forall p :: 0 <= p < |t.valid| ==> (t.valid[p] <==> old(t.valid)[p] && !Lost(t.l, t.files, |t.files|, p))
    {
      hide Ok, Bounded, Lost, LostWith;
      var offset := 0;
      LostNone(t.l, t.files);
      for j := 0 to |t.files|
        invariant t.Valid() && offset == Unpadded(t.l, j) && |t.files| == |old(t.files)|
        invariant forall k :: 0 <= k < |t.files| ==> t.files[k].data == old(t.files)[k].data
        invariant forall k :: 0 <= k < j ==> OpenedIn(t.system, k, t.files[k].mode)
        invariant forall p :: 0 <= p < |t.valid| ==> (t.valid[p] <==> old(t.valid)[p] && !Lost(t.l, t.files, j, p))
      {
        ghost var f := t.files;
        OpenFile(t, j, offset);
        offset := offset + t.l.files[j].size;
        LostMore(t.l, f, t.files, j);
      }
    }

    // Opens one sub-file for reading and writing, for reading only, or not.
    method OpenFile(t: Torrent, j: nat, offset: nat)
      requires t.Valid() && j < |t.files| && offset == Unpadded(t.l, j)
      modifies t`files, t`valid, t.pieces
      ensures t.Valid() && t.files == old(t.files)[j := t.files[j]] && t.files[j].data == old(t.files)[j].data
      ensures OpenedIn(t.system, j, t.files[j].mode)
      ensures forall p :: 0 <= p < |t.valid| ==>
        (t.valid[p] <==> old(t.valid)[p] && !(t.files[j].mode == Closed && LostWith(t.l, j, p)))
    {
      hide Ok, Bounded;
      var mode := if j in t.system.toWrite then ReadWrite else if j in t.system.toRead then ReadOnly else Closed;
      t.files := t.files[j := t.files[j].(mode := mode)];
      assert t.PiecesOk();
      if mode == Closed && t.l.files[j].size > 0 {
        InvalidateRange(t, offset / t.l.cb, (offset + t.l.files[j].size - 1) / t.l.cb, j);
      }
    }

    lemma LostNone(l: Layout, f: seq<SubFile>)
      requires l.cb > 0 && |f| == |l.files|
      ensures forall p: nat :: !Lost(l, f, 0, p)
    {
    }

    lemma LostMore(l: Layout, f: seq<SubFile>, g: seq<SubFile>, j: nat)
      requires l.cb > 0 && j < |f| == |g| == |l.files| && g == f[j := g[j]]
      ensures forall p: nat ::
        var n := j + 1; Lost(l, g, n, p) <==> Lost(l, f, j, p) || (g[j].mode == Closed && LostWith(l, j, p))
    {
      var n := j + 1;
      forall p: nat
        ensures Lost(l, g, n, p) <==> Lost(l, f, j, p) || (g[j].mode == Closed && LostWith(l, j, p))
      {
        LostStep(l, f, g, j, p);
      }
    }

    lemma LostStep(l: Layout, f: seq<SubFile>, g: seq<SubFile>, j: nat, p: nat)
      requires l.cb > 0 && j < |f| == |g| == |l.files| && g == f[j := g[j]]
      ensures Lost(l, g, j + 1, p) <==> Lost(l, f, j, p) || (g[j].mode == Closed && LostWith(l, j, p))
    {
      if k :| 0 <= k < j && f[k].mode == Closed && LostWith(l, k, p) {
        assert g[k].mode == Closed;
      }
      if k :| 0 <= k < j + 1 && g[k].mode == Closed && LostWith(l, k, p) {
        assert k < j ==> f[k].mode == Closed;
      }
    }

    method InvalidateRange(t: Torrent, a: nat, b: nat, ghost j: nat)
      requires t.Valid() && j < |t.files| && t.l.files[j].size > 0
      requires a == IndexOf(t.l, Unpadded(t.l, j)) && b == Last(t.l, Unpadded(t.l, j), t.l.files[j].size)
      modifies t`valid, t.pieces
      ensures t.Valid()
      ensures forall p :: 0 <= p < |t.valid| ==> (t.valid[p] <==> old(t.valid)[p] && !LostWith(t.l, j, p))
    {
      UnpaddedBelow(t.l, j);
      DivBelow(t.l.cb, Unpadded(t.l, j) + t.l.files[j].size - 1, |t.l.sizes|);
      hide Ok, Bounded;
      var p := a;
      while p <= b
        invariant a <= p && t.Valid()
        invariant forall q :: 0 <= q < |t.valid| ==> (t.valid[q] <==> old(t.valid)[q] && !(a <= q < p && q <= b))
      {
        t.SetPiece(p, false);
        p := p + 1;
      }
    }

    // Opening a torrent: after it the books are right. `b` is what is judged: the
    // files that could be opened, without the pieces of the others.
    method Open(t: Torrent) returns (ghost b: M.Before)
      requires t.Valid() && (t.merkle ==> Aligned(t.l)) && Fresh()
      modifies this, t`files, t`left, t`trees, t`valid, t.pieces
      ensures t.Valid() && Books(t.l, t.valid, |t.valid|, t.left, t.files)
      ensures LeftSum(t.l, t.valid, |t.valid|, |t.l.files|) == t.left
      ensures forall j :: 0 <= j < |b.files| ==> OpenedIn(t.system, j, b.files[j].mode)
      ensures FromTorrent(t, b) && b.trees == old(t.trees) && |b.valid| == |t.valid|
      ensures SameDisk(b.files, t.files, |t.files|)
      ensures SameDisk(old(t.files), b.files, |t.files|)
      ensures forall p :: 0 <= p < |b.valid| ==> (b.valid[p] <==> old(t.valid)[p] && !Lost(t.l, b.files, |b.files|, p))
      ensures !t.merkle && !validate ==> t.valid == b.valid
      ensures !t.merkle && validate ==> forall k :: 0 <= k < |t.valid| ==> (t.valid[k] <==> t.Matches(b.files, k))
      ensures t.merkle && M.Solid(t.l) ==> M.AllJudged(b, validate, t.trees, t.valid)
      ensures forall j :: 0 <= j < |t.files| && t.l.files[j].size > 0 ==>
        Downgraded(b.files[j], t.files[j], j in t.system.toRead)
    {
      hide Ok, Bounded, Aligned, Lost, M.AllJudged, M.Solid;
      OpenFiles(t);
      t.left := 0;
      ghost var f := t.files;
      for j := 0 to |t.files|
        invariant t.Valid() && |f| == |t.files| && forall k :: 0 <= k < j ==> t.files[k].left == 0
        invariant forall k :: 0 <= k < |f| ==> t.files[k].data == f[k].data && t.files[k].mode == f[k].mode
        modifies t`files
      {
        t.files := t.files[j := t.files[j].(left := 0)];
        assert t.PiecesOk();
      }
      assert forall j :: 0 <= j < |t.files| ==> FileCounted(t.l, t.valid, 0, t.files, j);
      b := Scene(t);
      LostSame(t.l, f, b.files);
      RunAll(t);
      SumsAgree(t.l, t.valid, |t.valid|);
    }

    lemma LostSame(l: Layout, f: seq<SubFile>, g: seq<SubFile>)
      requires l.cb > 0 && |f| == |g| == |l.files| && forall k :: 0 <= k < |f| ==> f[k].mode == g[k].mode
      ensures forall p: nat :: Lost(l, f, |f|, p) <==> Lost(l, g, |g|, p)
    {
    }
  }

  // Such a run, whatever the file and its root are.
  method ReachLeafBehind(digest: Bytes -> Hash20, root: Hash20, disk: Bytes, hashes: seq<Hash20>)
    returns (t: Torrent, h: Hasher, ghost b: M.Before)
    requires |hashes| == 2
    ensures t.l == TorrentInfo.LayoutOf(true, 16384, [32768]) && t.merkle && h.validate && |t.pieces| == 2
    ensures h.Walked(t) && h.FollowsHere(t, b) && b.files[0].data == disk && b.roots == [root]
    ensures h.i == 1 && h.sub == 0 && h.chunk == 1 == MerkleFiles.Leaves(t.l.files[0].size)
  {
    hide SameDisk, M.Tracks, TorrentInfo.LayoutOf, Ok, Aligned, Bounded, MerkleFiles.Leaves;
    var l := Layout(16384, [16384, 16384], [Extent(0, 32768)]);
    SmallPiecesAccepted(TorrentInfo.LayoutOf(true, 16384, [32768]), TorrentInfo.Entry(32768, true, true));
    var pieces := P.MakePieces(l.sizes);
    t := new Torrent(l, true, digest, hashes, [root], pieces, [disk]);
    h := new Hasher(true);
    t.left, t.files := 0, [t.files[0].(left := 0)];
    b := h.Scene(t);
    assert t.PiecesOk() && FileCounted(t.l, t.valid, 0, t.files, 0) && Books(t.l, t.valid, 0, t.left, t.files);
    h.StartOfRun(t, b);
    var more := h.Run(t, b);
    h.LeafBehindLast(t, b);
  }
}
