// A torrent on disk: its sub-files act as one flat array of bytes, its pieces
// are checked against their hashes, and it knows how many bytes are left.
module Torrent {
  import opened Arithmetic
  import opened StreamInt
  import opened TorrentLayout
  import P = Piece
  import MerkleSpec

  datatype Mode = Closed | ReadOnly | ReadWrite

  datatype SubFile = SubFile(left: int, mode: Mode, data: Bytes)

  const PIECE_INDEX_LIMIT := 0x1_0000_0000

  // The files that the operating system creates, opens for reading and writing, and
  // opens for reading, if it is asked now.
  datatype System = System(toCreate: set<nat>, toWrite: set<nat>, toRead: set<nat>)

  // A file that has no bytes left is open for reading only, if it opens; any other
  // is open as it was.
  predicate Downgraded(f: SubFile, g: SubFile, opens: bool) {
    g.mode == if g.left != 0 then f.mode else if opens then ReadOnly else Closed
  }

  // The same of a file that was passed, or not.
  predicate Rests(f: SubFile, g: SubFile, opens: bool) {
    Downgraded(f, g, opens) || (g.left == f.left && g.mode == f.mode)
  }

  // A file can be written to if it is open for writing, or closed and can be
  // created.
  predicate MayWrite(f: SubFile, creates: bool) {
    f.mode == ReadWrite || (f.mode == Closed && creates)
  }

  // The hash tree of a file: its nodes that are known.
  type Tree = MerkleSpec.Nodes<Hash20>

  // ----- files -----

  // A file after a write, with zeros in a hole.
  function Put(data: Bytes, pos: nat, s: Bytes): (r: Bytes)
    ensures |r| == Max(|data|, pos + |s|)
    ensures forall p :: 0 <= p < |r| ==>
      r[p] == if pos <= p < pos + |s| then s[p - pos] else if p < |data| then data[p] else 0
  {
    seq(Max(|data|, pos + |s|), p requires 0 <= p < Max(|data|, pos + |s|) =>
      if pos <= p < pos + |s| then s[p - pos] else if p < |data| then data[p] else 0)
  }

  predicate CanRead(f: SubFile, offset: int, n: int) {
    f.mode != Closed && 0 <= offset && (n > 0 ==> offset + n <= |f.data|)
  }

  // Byte `y` of the torrent is in file `j`, and can be read there.
  predicate Holds(l: Layout, f: seq<SubFile>, j: nat, y: nat)
    requires j < |l.files| == |f| && InFile(l, j, y)
  {
    f[j].mode != Closed && y - l.files[j].offset < |f[j].data|
  }

  function ByteAt(l: Layout, f: seq<SubFile>, j: nat, y: nat): Byte
    requires j < |l.files| == |f| && InFile(l, j, y) && y - l.files[j].offset < |f[j].data|
  {
    f[j].data[y - l.files[j].offset]
  }

  ghost predicate Readable(l: Layout, f: seq<SubFile>, x: nat, n: nat)
    requires |l.files| == |f|
  {
    forall j, y :: 0 <= j < |f| && x <= y < x + n && InFile(l, j, y) ==> Holds(l, f, j, y)
  }

  // `d` is what the torrent holds from `x` on.
  ghost predicate IsSlice(l: Layout, f: seq<SubFile>, x: nat, d: Bytes)
    requires |l.files| == |f|
  {
    forall j, y :: 0 <= j < |f| && x <= y < x + |d| && InFile(l, j, y) ==>
      Holds(l, f, j, y) && d[y - x] == ByteAt(l, f, j, y)
  }

  lemma {:induction false} SliceIsUnique(l: Layout, f: seq<SubFile>, i: nat, d: Bytes, d': Bytes)
    requires Ok(l) && |f| == |l.files| && i < |l.sizes| && |d| == |d'| == l.sizes[i]
    requires IsSlice(l, f, Start(l, i), d) && IsSlice(l, f, Start(l, i), d')
    ensures d == d'
  {
    forall k | 0 <= k < |d|
      ensures d[k] == d'[k]
    {
      var y: nat := Start(l, i) + k;
      assert InPiece(l, i, y);
      var j := FileOf(l, i, y);
      assert d[y - Start(l, i)] == d'[y - Start(l, i)];
    }
  }

  // The torrent's books: what is left of it and of each file, when only the
  // first `n` pieces are looked at.
  ghost predicate FileCounted(l: Layout, valid: seq<bool>, n: nat, f: seq<SubFile>, j: nat)
    requires n <= |l.sizes| == |valid| && j < |f| == |l.files|
  {
    f[j].left == InvalidInFile(l, valid, n, j)
  }

  ghost predicate Books(l: Layout, valid: seq<bool>, n: nat, left: int, f: seq<SubFile>)
    requires n <= |l.sizes| == |valid| && |f| == |l.files|
  {
    left == InvalidSize(l, valid, n) && forall j :: 0 <= j < |f| ==> FileCounted(l, valid, n, f, j)
  }

  // A piece that becomes valid takes its bytes out of the books.
  lemma {:induction false} BooksOfValid(l: Layout, valid: seq<bool>, a: nat, left: int, f: seq<SubFile>,
                                        g: seq<SubFile>)
    requires |f| == |g| == |l.files| && a < |l.sizes| == |valid| && !valid[a] && Books(l, valid, |valid|, left, f)
    requires forall j :: 0 <= j < |f| ==>
      g[j].left == f[j].left - PieceOverlap(l, a, l.files[j].offset, l.files[j].End())
    ensures Books(l, valid[a := true], |valid|, left - l.sizes[a], g)
  {
    InvalidSizeUpdate(l, valid, |valid|, a);
    var valid' := valid[a := true];
    forall j | 0 <= j < |g|
      ensures FileCounted(l, valid', |valid|, g, j)
    {
      assert FileCounted(l, valid, |valid|, f, j);
      InvalidInUpdate(l, valid, |valid|, a, l.files[j].offset, l.files[j].End());
    }
  }

  // Files in front of `j` end at or before `x`.
  predicate Passed(l: Layout, j: nat, x: int) {
    j <= |l.files| && forall k :: 0 <= k < j ==> l.files[k].End() <= x
  }

  lemma PassedStep(l: Layout, j: nat, x: int, y: int)
    requires Passed(l, j, x) && j < |l.files| && x <= y && l.files[j].End() <= y
    ensures Passed(l, j + 1, y)
  {
  }

  // Files from `j` on start at or behind `x`.
  predicate Ahead(l: Layout, j: nat, x: int) {
    forall k :: j <= k < |l.files| ==> x <= l.files[k].offset
  }

  // [x, x + n) lies in piece `i`.
  predicate Within(l: Layout, i: nat, x: int, n: nat) {
    i < |l.sizes| && Start(l, i) <= x && x + n <= Start(l, i) + l.sizes[i]
  }

  // When the files in front of `j` have been passed, a byte of a piece is in
  // file `j` or behind it.
  lemma {:induction false} Front(l: Layout, j: nat, i: nat, x: nat)
    requires Ok(l) && Passed(l, j, x) && i < |l.sizes| && InPiece(l, i, x)
    ensures j < |l.files| && (x < l.files[j].End() ==> InFile(l, j, x))
  {
    var k := FileOf(l, i, x);
    assert k >= j;
    if k > j {
      assert l.files[j].End() <= l.files[k].offset;
    }
  }

  // Without files in front, [x, x + n) starts and stops in file `j`.
  lemma {:induction false} SliceStep(l: Layout, f: seq<SubFile>, x: nat, d: Bytes, j: nat, e: Bytes)
    requires Ok(l) && |l.files| == |f| && j < |f| && IsSlice(l, f, x, d)
    requires e != [] ==> InFile(l, j, x + |d|) && x + |d| + |e| <= l.files[j].End()
    requires e != [] ==> CanRead(f[j], x + |d| - l.files[j].offset, |e|)
    requires e != [] ==> e == f[j].data[x + |d| - l.files[j].offset..][..|e|]
    ensures IsSlice(l, f, x, d + e)
  {
    forall k, y | 0 <= k < |f| && x <= y < x + |d + e| && InFile(l, k, y)
      ensures Holds(l, f, k, y) && (d + e)[y - x] == ByteAt(l, f, k, y)
    {
      if y >= x + |d| {
        OneFile(l, j, k, y);
      }
    }
  }

  // A closed file is created with its full size before it is written to.
  function Opened(f: SubFile, size: nat): SubFile {
    if f.mode == Closed && size > 0 then f.(mode := ReadWrite, data := Put(f.data, size - 1, [0])) else f
  }

  // It has at least that size then, with a zero as its last byte and in the hole,
  // and is open for reading and writing.
  lemma CreatedFile(f: SubFile, size: nat)
    requires f.mode == Closed && size > 0
    ensures var g := Opened(f, size);
      && g.mode == ReadWrite && g.left == f.left && |g.data| == Max(|f.data|, size) && g.data[size - 1] == 0
      && forall p :: 0 <= p < |g.data| && p != size - 1 ==> g.data[p] == if p < |f.data| then f.data[p] else 0
  {
  }

  predicate Touches(l: Layout, j: nat, x: nat, n: nat)
    requires j < |l.files|
  {
    x < l.files[j].End() && l.files[j].offset < x + n && l.files[j].size > 0
  }

  // File `j` after `s` was written to the torrent at `x`.
  function Wrote(l: Layout, f: SubFile, j: nat, x: nat, s: Bytes): SubFile
    requires j < |l.files|
  {
    if !Touches(l, j, x, |s|) then f
    else
      var from, to := Max(x, l.files[j].offset), Min(x + |s|, l.files[j].End());
      var g := Opened(f, l.files[j].size);
      g.(data := Put(g.data, from - l.files[j].offset, s[from - x..to - x]))
  }

  // The files in front of `m` that the range touches are open for writing.
  predicate Writable(l: Layout, f: seq<SubFile>, m: nat, x: nat, n: nat)
    requires m <= |f| == |l.files|
  {
    forall j :: 0 <= j < m && Touches(l, j, x, n) ==> f[j].mode == ReadWrite
  }

  // After a chunk a file has been written to, or is as it was and not open for
  // writing.
  predicate Settled(l: Layout, f: SubFile, g: SubFile, j: nat, x: nat, s: Bytes)
    requires j < |l.files|
  {
    g == if g.mode == ReadWrite then Wrote(l, f, j, x, s) else f
  }

  // The flat range changes, and nothing else but the last byte of a file that
  // had to be created.
  lemma {:induction false} WroteIsFlat(l: Layout, f: seq<SubFile>, g: seq<SubFile>, x: nat, s: Bytes, j: nat, y: nat)
    requires |f| == |g| == |l.files| && j < |f| && InFile(l, j, y)
    requires g[j] == Wrote(l, f[j], j, x, s)
    ensures x <= y < x + |s| ==> Holds(l, g, j, y) && ByteAt(l, g, j, y) == s[y - x]
    ensures !(x <= y < x + |s|) && Holds(l, f, j, y) ==> Holds(l, g, j, y) && ByteAt(l, g, j, y) == ByteAt(l, f, j, y)
    ensures !(x <= y < x + |s|) && y + 1 < l.files[j].End() && y - l.files[j].offset < |f[j].data| ==>
      y - l.files[j].offset < |g[j].data| && g[j].data[y - l.files[j].offset] == f[j].data[y - l.files[j].offset]
  {
    hide Put;
    var e := l.files[j];
    if Touches(l, j, x, |s|) {
      var from, to := Max(x, e.offset), Min(x + |s|, e.End());
      var b := Opened(f[j], e.size);
      PutAt(b.data, from - e.offset, s[from - x..to - x], y - e.offset);
      if f[j].mode == Closed {
        PutAt(f[j].data, e.size - 1, [0], y - e.offset);
      }
    }
  }

  lemma PutAt(data: Bytes, pos: nat, s: Bytes, p: nat)
    ensures var r := Put(data, pos, s);
      |r| == Max(|data|, pos + |s|) &&
      (p < |r| ==> r[p] == if pos <= p < pos + |s| then s[p - pos] else if p < |data| then data[p] else 0)
  {
  }

  lemma SettledUntouched(l: Layout, f: SubFile, j: nat, x: nat, s: Bytes)
    requires j < |l.files| && !Touches(l, j, x, |s|)
    ensures Settled(l, f, f, j, x, s)
  {
  }

  // Writing does not touch the books.
  lemma BooksOfSettled(l: Layout, valid: seq<bool>, left: int, f: seq<SubFile>, g: seq<SubFile>, x: nat, s: Bytes)
    requires |f| == |g| == |l.files| && |valid| == |l.sizes|
    requires forall j :: 0 <= j < |f| ==> Settled(l, f[j], g[j], j, x, s)
    ensures Books(l, valid, |valid|, left, f) ==> Books(l, valid, |valid|, left, g)
    ensures Passed(l, |f|, x) ==> g == f
  {
    if Books(l, valid, |valid|, left, f) {
      forall j | 0 <= j < |g|
        ensures FileCounted(l, valid, |valid|, g, j)
      {
        assert FileCounted(l, valid, |valid|, f, j);
      }
    }
  }

  lemma Behind(l: Layout, j: nat, x: int)
    requires Ok(l) && j < |l.files| && x <= l.files[j].End()
    ensures Ahead(l, j + 1, x)
  {
  }

  lemma AheadNext(l: Layout, j: nat, x: int)
    requires Ahead(l, j, x) && j < |l.files|
    ensures x <= l.files[j].offset && Ahead(l, j + 1, x)
  {
  }

  lemma NotTouched(l: Layout, j: nat, x: nat, n: nat, y: nat)
    requires j < |l.files| && l.files[j].End() <= y && (y == x || (x < y <= l.files[j].offset))
    ensures !Touches(l, j, x, n)
  {
  }

  lemma WritableStep(l: Layout, f: seq<SubFile>, g: seq<SubFile>, j: nat, x: nat, n: nat)
    requires j < |f| == |g| == |l.files| && g == f[j := g[j]]
    ensures Writable(l, g, j + 1, x, n) <==> Writable(l, f, j, x, n) && (Touches(l, j, x, n) ==> g[j].mode == ReadWrite)
  {
    if Writable(l, g, j + 1, x, n) {
      assert forall k :: 0 <= k < j ==> g[k] == f[k];
    }
  }

  // A write of `cb` bytes from `y` on, which is where chunk and file meet.
  lemma SettledHere(l: Layout, f: SubFile, j: nat, x: nat, s: Bytes, y: nat, cb: nat)
    requires j < |l.files| && InFile(l, j, y) && (y == x || (x < y == l.files[j].offset))
    requires y < x + |s| && cb == Min(x + |s| - y, l.files[j].End() - y)
    ensures Touches(l, j, x, |s|) && (f.mode != ReadWrite ==> Settled(l, f, f, j, x, s))
    ensures var o := Opened(f, l.files[j].size);
      o.mode == ReadWrite ==>
        Settled(l, f, o.(data := Put(o.data, y - l.files[j].offset, s[y - x..y + cb - x])), j, x, s)
  {
    hide Put;
  }

  class Torrent {
    const l: Layout
    const merkle: bool
    const digest: Bytes -> Hash20
    const hashes: seq<Hash20>
    const roots: seq<Hash20>
    const pieces: seq<P.Piece>
    var system: System
    var files: seq<SubFile>
    var trees: seq<Tree>
    var left: int
    ghost var valid: seq<bool>

    ghost predicate PieceOk(i: nat)
      requires i < |pieces| == |l.sizes| == |valid|
      reads this`valid, pieces
    {
      pieces[i].Counted() && pieces[i].size == l.sizes[i] && pieces[i].valid == valid[i]
    }

    ghost predicate PiecesOk()
      requires |pieces| == |l.sizes| == |valid|
      reads this`valid, pieces
    {
      && (forall i, k :: 0 <= i < k < |pieces| ==> pieces[i] != pieces[k])
      && (forall i :: 0 <= i < |pieces| ==> PieceOk(i))
    }

    lemma PieceAt(i: nat)
      requires Valid() && i < |pieces|
      ensures PieceOk(i)
    {
    }

    ghost predicate Valid()
      reads this, pieces
    {
      Ok(l) && Bounded(l) && l.cb > 0 && |l.sizes| <= PIECE_INDEX_LIMIT && |roots| == |files| == |trees| == |l.files|
      && |pieces| == |l.sizes| == |valid| == |hashes| && PiecesOk()
    }

    // A torrent with new pieces and trees; its files are not open, and hold what
    // `disk` says.
    constructor (l: Layout, merkle: bool, digest: Bytes -> Hash20, hashes: seq<Hash20>, roots: seq<Hash20>,
                 pieces: seq<P.Piece>, disk: seq<Bytes>)
      requires Ok(l) && Bounded(l) && l.cb > 0 && |l.sizes| <= PIECE_INDEX_LIMIT
      requires |pieces| == |l.sizes| == |hashes| && |disk| == |l.files| == |roots|
      requires forall i, k :: 0 <= i < k < |pieces| ==> pieces[i] != pieces[k]
      requires forall i :: 0 <= i < |pieces| ==> pieces[i].New(l.sizes[i])
      ensures Valid() && this.l == l && this.merkle == merkle && this.pieces == pieces && this.hashes == hashes
      ensures this.digest == digest && this.roots == roots && trees == seq(|roots|, _ => map[])
      ensures left == -1 && files == seq(|disk|, j requires 0 <= j < |disk| => SubFile(0, Closed, disk[j]))
    {
      this.l, this.merkle, this.digest, this.hashes, this.pieces := l, merkle, digest, hashes, pieces;
      this.roots, trees := roots, seq(|roots|, _ => map[]);
      system, left := *, -1;
      files := seq(|disk|, j requires 0 <= j < |disk| => SubFile(0, Closed, disk[j]));
      valid := seq(|pieces|, _ => false);
    }

    // Reads from the sub-files one after another.
    method ReadData(offset: nat, n: nat) returns (code: int, d: Bytes)
      requires Valid()
      ensures code == 0 || code == 1
      ensures code == 0 ==> |d| == n && IsSlice(l, files, offset, d)
      ensures forall i :: 0 <= i < |l.sizes| && Within(l, i, offset, n) && n > 0 ==>
        (code == 0 <==> Readable(l, files, offset, n))
    {
      var x, size := offset, n;
      d := [];
      for j := 0 to |files|
        invariant x == offset + |d| && |d| + size == n && size >= 0 && (n > 0 ==> size > 0) && Passed(l, j, x)
        invariant IsSlice(l, files, offset, d)
      {
        if x >= l.files[j].End() {
          continue;
        }
        var cb := Min(size, l.files[j].End() - x);
        var from := x - l.files[j].offset;
        if !CanRead(files[j], from, cb) {
          if n > 0 {
            NotReadable(offset, n, x, j);
          }
          return 1, d;
        }
        var e := if cb == 0 then [] else files[j].data[from..][..cb];
        SliceStep(l, files, offset, d, j, e);
        d := d + e;
        size := size - cb;
        if size == 0 {
          return 0, d;
        }
        x := x + cb;
      }
      forall i | 0 <= i < |l.sizes| && Within(l, i, offset, n) && n > 0
        ensures false
      {
        Front(l, |l.files|, i, x);
      }
      code := 1;
    }

    lemma NotReadable(offset: nat, n: nat, x: nat, j: nat)
      requires Valid() && offset <= x < offset + n && j < |files| && Passed(l, j, x) && x < l.files[j].End()
      requires !CanRead(files[j], x - l.files[j].offset, Min(offset + n - x, l.files[j].End() - x))
      ensures forall i :: 0 <= i < |l.sizes| && Within(l, i, offset, n) ==> !Readable(l, files, offset, n)
    {
      forall i | 0 <= i < |l.sizes| && Within(l, i, offset, n)
        ensures !Readable(l, files, offset, n)
      {
        Front(l, j, i, x);
        var y := x + Min(offset + n - x, l.files[j].End() - x) - 1;
        assert InFile(l, j, y) && !Holds(l, files, j, y);
      }
    }

    // Writes to the sub-files one after another, creating those that are not
    // open. The chunk is in a piece, or behind all files.
    method WriteChunk(offset: nat, s: Bytes, ghost i: nat) returns (failed: bool)
      requires Valid() && s != []
      requires Within(l, i, offset, |s|) || Passed(l, |files|, offset)
      modifies this`files
      ensures Valid() && forall j :: 0 <= j < |files| ==> Settled(l, old(files)[j], files[j], j, offset, s)
      ensures failed <==> !Writable(l, files, |files|, offset, |s|)
      ensures forall j :: 0 <= j < |files| && Touches(l, j, offset, |s|) ==>
        (files[j].mode == ReadWrite <==> MayWrite(old(files)[j], j in system.toCreate))
    {
      hide Ok, Bounded, Settled, Wrote, Touches, PiecesOk, Start, Ahead, MayWrite;
      var x, size := offset, |s|;
      failed := false;
      var j := 0;
      while j < |files|
        invariant x + size == offset + |s| && x >= offset && size > 0 && Passed(l, j, x) && |files| == |old(files)|
        invariant x > offset ==> Ahead(l, j, x) && Within(l, i, offset, |s|)
        invariant forall k :: j <= k < |files| ==> files[k] == old(files)[k]
        invariant forall k :: 0 <= k < j ==> Settled(l, old(files)[k], files[k], k, offset, s)
        invariant failed <==> !Writable(l, files, j, offset, |s|)
        invariant forall k :: 0 <= k < j && Touches(l, k, offset, |s|) ==>
          (files[k].mode == ReadWrite <==> MayWrite(old(files)[k], k in system.toCreate))
      {
        if x > offset {
          AheadNext(l, j, x);
        }
        if x >= l.files[j].End() {
          NotTouched(l, j, offset, |s|, x);
          SettledUntouched(l, files[j], j, offset, s);
          j := j + 1;
          continue;
        }
        assert Within(l, i, offset, |s|);
        assert InPiece(l, i, x);
        Front(l, j, i, x);
        var cb := Min(size, l.files[j].End() - x);
        SettledHere(l, files[j], j, offset, s, x, cb);
        ghost var f := files;
        var ok := WriteFile(j, x - l.files[j].offset, s[x - offset..x + cb - offset]);
        failed := failed || !ok;
        WritableStep(l, f, files, j, offset, |s|);
        size := size - cb;
        x := x + cb;
        Behind(l, j, x);
        j := j + 1;
        if size == 0 {
          RestUntouched(j, offset, s);
          break;
        }
      }
    }

    // Files behind the chunk stay as they are.
    lemma RestUntouched(m: nat, x: nat, s: Bytes)
      requires m <= |files| == |l.files| && Ahead(l, m, x + |s|)
      ensures forall k :: m <= k < |files| ==> Settled(l, files[k], files[k], k, x, s)
      ensures Writable(l, files, m, x, |s|) <==> Writable(l, files, |files|, x, |s|)
      ensures forall k :: m <= k < |files| ==> !Touches(l, k, x, |s|)
    {
    }

    // Writes to one sub-file, which must be open for writing then.
    method WriteFile(j: nat, from: nat, r: Bytes) returns (ok: bool)
      requires j < |files| == |l.files|
      modifies this`files
      ensures |files| == |old(files)| && files == old(files)[j := files[j]] && files[j].left == old(files)[j].left
      ensures ok <==> files[j].mode == ReadWrite
      ensures l.files[j].size > 0 ==> (ok <==> MayWrite(old(files)[j], j in system.toCreate))
      ensures !ok ==> files == old(files)
      ensures ok ==> var o := Opened(old(files)[j], l.files[j].size); files[j] == o.(data := Put(o.data, from, r))
    {
      hide Put;
      if files[j].mode == Closed && l.files[j].size > 0 {
        if j in system.toCreate {
          files := files[j := Opened(files[j], l.files[j].size)];
        }
      }
      ok := files[j].mode == ReadWrite;
      if ok {
        files := files[j := files[j].(data := Put(files[j].data, from, r))];
      }
      assert files == old(files)[j := files[j]];
    }

    // The piece's bytes on disk have its hash.
    ghost predicate Matches(f: seq<SubFile>, i: nat)
      requires |f| == |l.files| && i < |l.sizes| == |hashes|
    {
      exists d: Bytes :: |d| == l.sizes[i] && IsSlice(l, f, Start(l, i), d) && digest(d) == hashes[i]
    }

    // Reads a piece. What is left in the buffer by a read that failed may be
    // anything.
    method ReadPiece(i: nat) returns (readable: bool, d: Bytes)
      requires Valid() && i < |pieces|
      ensures |d| == l.sizes[i] && (readable <==> Readable(l, files, Start(l, i), l.sizes[i]))
      ensures readable ==> IsSlice(l, files, Start(l, i), d)
    {
      assert Within(l, i, Start(l, i), l.sizes[i]);
      var code, r := ReadData(Start(l, i), l.sizes[i]);
      readable, d := code == 0, r;
      if !readable {
        d := seq(l.sizes[i], _ => 0);
      }
    }

    // Compares a piece with its hash.
    method CheckPiece(i: nat) returns (ok: bool, readable: bool)
      requires Valid() && i < |pieces|
      ensures readable <==> Readable(l, files, Start(l, i), l.sizes[i])
      ensures readable ==> (ok <==> Matches(files, i))
    {
      var d;
      readable, d := ReadPiece(i);
      ok := digest(d) == hashes[i];
      if readable {
        forall d' | |d'| == l.sizes[i] && IsSlice(l, files, Start(l, i), d')
          ensures d' == d
        {
          SliceIsUnique(l, files, i, d, d');
        }
      }
    }

    // Takes a piece off the files it lies in; files without bytes left are
    // opened again for reading only, if they can be.
    method CountDown(a: nat)
      requires Valid() && a < |pieces|
      modifies this`files
      ensures Valid() && forall j :: 0 <= j < |files| ==>
        && files[j].left == old(files)[j].left - PieceOverlap(l, a, l.files[j].offset, l.files[j].End())
        && files[j].data == old(files)[j].data && Rests(old(files)[j], files[j], j in system.toRead)
    {
      assert l.sizes[a] > 0;
      hide Ok, Bounded, Taken, PiecesOk, Passed, Ahead, Start;
      var x, size := Start(l, a), l.sizes[a];
      var j := 0;
      while j < |files|
        invariant x + size == Start(l, a) + l.sizes[a] && x >= Start(l, a) && size > 0 && |files| == |old(files)|
        invariant Passed(l, j, x) && (x > Start(l, a) ==> Ahead(l, j, x))
        invariant forall k :: j <= k < |files| ==> files[k] == old(files)[k]
        invariant forall k :: 0 <= k < j ==> Taken(old(files)[k], files[k], a, k)
        invariant forall k :: 0 <= k < |files| ==> Rests(old(files)[k], files[k], k in system.toRead)
      {
        var cb := CountFile(a, j, x, size);
        size := size - cb;
        x := x + cb;
        j := j + 1;
        if size == 0 {
          RestTaken(files, a, j);
          break;
        }
      }
      assert forall k :: 0 <= k < |files| ==> Taken(old(files)[k], files[k], a, k);
      TakenAll(old(files), files, a);
    }

    // Takes the bytes of the piece from `x` on off one file.
    method CountFile(a: nat, j: nat, x: nat, size: nat) returns (cb: nat)
      requires Valid() && a < |pieces| && j < |files| && size > 0
      requires Start(l, a) <= x && x + size == Start(l, a) + l.sizes[a]
      requires Passed(l, j, x) && (x > Start(l, a) ==> Ahead(l, j, x))
      modifies this`files
      ensures Valid() && |files| == |old(files)| && files == old(files)[j := files[j]]
      ensures cb <= size && Taken(old(files)[j], files[j], a, j)
      ensures Rests(old(files)[j], files[j], j in system.toRead)
      ensures cb < size ==> Passed(l, j + 1, x + cb)
      ensures x + cb > Start(l, a) ==> Ahead(l, j + 1, x + cb)
    {
      hide Ok, Bounded, Taken, PiecesOk, Passed, Ahead, Start;
      if x > Start(l, a) {
        AheadNext(l, j, x);
      }
      if x >= l.files[j].End() {
        TakenHere(files[j], a, j, x, 0);
        PassedStep(l, j, x, x);
        return 0;
      }
      assert InPiece(l, a, x);
      Front(l, j, a, x);
      cb := Min(size, l.files[j].End() - x);
      Behind(l, j, x + cb);
      TakenHere(files[j], a, j, x, cb);
      CountOff(j, cb);
      if cb < size {
        PassedStep(l, j, x, x + cb);
      }
    }

    method CountOff(j: nat, cb: int)
      requires j < |files|
      modifies this`files
      ensures |files| == |old(files)| && files == old(files)[j := files[j]]
      ensures files[j].left == old(files)[j].left - cb && files[j].data == old(files)[j].data
      ensures Downgraded(old(files)[j], files[j], j in system.toRead)
    {
      var f := files[j].(left := files[j].left - cb);
      if f.left == 0 {
        f := f.(mode := if j in system.toRead then ReadOnly else Closed);
      }
      files := files[j := f];
    }

    // Piece and file meet in [x, x + cb), or nowhere.
    lemma TakenHere(f: SubFile, a: nat, j: nat, x: nat, cb: nat)
      requires a < |l.sizes| && j < |l.files| && Start(l, a) <= x < Start(l, a) + l.sizes[a]
      requires if cb == 0 then x >= l.files[j].End() && (x == Start(l, a) || x <= l.files[j].offset)
        else
          && InFile(l, j, x) && (x == Start(l, a) || x == l.files[j].offset)
          && cb == Min(Start(l, a) + l.sizes[a] - x, l.files[j].End() - x)
      ensures forall g: SubFile :: g.left == f.left - cb && g.data == f.data ==> Taken(f, g, a, j)
    {
    }

    lemma RestTaken(f: seq<SubFile>, a: nat, j: nat)
      requires a < |l.sizes| && |f| == |l.files| && Ahead(l, j, Start(l, a) + l.sizes[a])
      ensures forall k :: j <= k < |f| ==> Taken(f[k], f[k], a, k)
    {
    }

    lemma TakenAll(f: seq<SubFile>, g: seq<SubFile>, a: nat)
      requires a < |l.sizes| && |f| == |g| == |l.files| && forall j :: 0 <= j < |f| ==> Taken(f[j], g[j], a, j)
      ensures forall j :: 0 <= j < |f| ==>
        g[j].left == f[j].left - PieceOverlap(l, a, l.files[j].offset, l.files[j].End()) && g[j].data == f[j].data
    {
    }

    ghost predicate Taken(f: SubFile, g: SubFile, a: nat, j: nat)
      requires a < |l.sizes| && j < |l.files|
    {
      g.left == f.left - PieceOverlap(l, a, l.files[j].offset, l.files[j].End()) && g.data == f.data
    }

    // A piece takes a chunk, or refuses it.
    method Accept(a: nat, offset: nat, n: nat) returns (code: int)
      requires Valid() && a < |pieces|
      modifies pieces[a]
      ensures Valid() && code == if old(pieces[a].Accepts(offset, n)) then 0 else 1
      ensures code == 0 ==> n > 0 && offset + n <= l.sizes[a] && !valid[a]
      ensures code == 0 ==> (pieces[a].left == 0 <==> old(Completed(pieces[a], offset)))
      ensures code == 0 && pieces[a].left == 0 ==> pieces[a].subPieces == []
    {
      hide Ok;
      assert PieceOk(a);
      code := pieces[a].Write(offset, n);
      assert PieceOk(a);
      forall i | 0 <= i < |pieces|
        ensures PieceOk(i)
      {
        assert old(PieceOk(i));
        assert i == a || pieces[i] != pieces[a];
      }
    }

    // A piece is complete: if its bytes are right it becomes valid.
    method Finish(a: nat)
      requires Valid() && a < |pieces| && !valid[a] && pieces[a].subPieces == []
      modifies this`files, this`left, this`valid, pieces[a]
      ensures Valid() && (old(Books(l, valid, |valid|, left, files)) ==> Books(l, valid, |valid|, left, files))
      ensures forall j :: 0 <= j < |files| ==>
        files[j].data == old(files)[j].data && Rests(old(files)[j], files[j], j in system.toRead)
      ensures Checked(a, old(files), old(valid), valid)
    {
      hide Ok, Books, Bounded, Readable, PieceOverlap, Downgraded;
      var ok, readable := CheckPiece(a);
      SetPiece(a, merkle || ok);
      assert PieceOk(a);
      if !pieces[a].valid {
        assert valid == old(valid);
        return;
      }
      left := left - pieces[a].size;
      ghost var f := files;
      CountDown(a);
      if old(Books(l, valid, |valid|, left, files)) {
        BooksOfValid(l, old(valid), a, old(left), f, files);
      }
    }

    method SetPiece(i: nat, v: bool)
      requires Valid() && i < |pieces|
      modifies this`valid, pieces[i]
      ensures Valid() && valid == old(valid)[i := v]
    {
      hide Ok;
      assert PieceOk(i);
      pieces[i].SetValid(v);
      valid := valid[i := v];
      assert PieceOk(i);
      forall k | 0 <= k < |pieces|
        ensures PieceOk(k)
      {
        assert old(PieceOk(k));
        assert k == i || pieces[k] != pieces[i];
      }
    }

    // Without Merkle hashes the piece is valid exactly if its bytes match.
    ghost predicate Checked(a: nat, disk: seq<SubFile>, was: seq<bool>, now: seq<bool>)
      requires a < |l.sizes| == |hashes| && |disk| == |l.files|
    {
      && |was| == |now| == |l.sizes| && now == was[a := now[a]] && (merkle ==> now[a])
      && (!merkle && Readable(l, disk, Start(l, a), l.sizes[a]) ==> (now[a] <==> Matches(disk, a)))
    }

    // A chunk from a peer. It is refused, or written to the files; the chunk that
    // completes a piece has the piece checked and, if it is good, counted off.
    // `disk` is what the files were then.
    method WriteData(offset: int, s: Bytes) returns (code: int, failed: bool, ghost disk: seq<SubFile>)
      requires Valid()
      modifies this`files, this`left, this`valid, pieces
      ensures Valid() && (old(Books(l, valid, |valid|, left, files)) ==> Books(l, valid, |valid|, left, files))
      ensures code == if offset >= 0 && old(Takes(offset, s)) then 0 else 1
      ensures code == 1 ==> files == old(files) && valid == old(valid) && left == old(left)
      ensures code == 0 ==> |disk| == |files| && forall j :: 0 <= j < |files| ==>
        files[j].data == disk[j].data && Rests(disk[j], files[j], j in system.toRead)
      ensures code == 0 ==> (Within(l, PieceIndex(offset), offset, |s|) <==> offset / l.cb < 0x1_0000_0000)
      ensures code == 0 && offset / l.cb >= 0x1_0000_0000 ==> disk == old(files)
      ensures code == 0 ==> forall j :: 0 <= j < |files| ==> Settled(l, old(files)[j], disk[j], j, offset, s)
      ensures code == 0 ==> (failed <==> !Writable(l, disk, |disk|, offset, |s|))
      ensures code == 0 ==> forall j :: 0 <= j < |files| && Touches(l, j, offset, |s|) ==>
        (disk[j].mode == ReadWrite <==> MayWrite(old(files)[j], j in system.toCreate))
      ensures code == 0 ==> if old(Completed(pieces[PieceIndex(offset)], offset % l.cb))
        then Checked(PieceIndex(offset), disk, old(valid), valid) else valid == old(valid) && left == old(left)
    {
      hide Ok, Bounded, Books, Checked, Settled, Completed, Writable, Downgraded, Touches, MayWrite;
      code, failed, disk := 1, false, files;
      if offset < 0 {
        return;
      }
      var a := PieceIndex(offset);
      if a >= |pieces| {
        return;
      }
      assert Takes(offset, s) == pieces[a].Accepts(offset % l.cb, |s|);
      code := Accept(a, offset % l.cb, |s|);
      if code != 0 {
        return;
      }
      ChunkPlace(offset, |s|, a);
      failed := WriteChunk(offset, s, a);
      disk := files;
      BooksOfSettled(l, valid, left, old(files), files, offset, s);
      if pieces[a].left != 0 {
        return;
      }
      Finish(a);
    }

    lemma IndexBelow(q: nat)
      ensures q < PIECE_INDEX_LIMIT ==> q % PIECE_INDEX_LIMIT == q
    {
    }

    // Where an accepted chunk lies: in its piece, or behind all files if the
    // piece index was cut off.
    lemma ChunkPlace(offset: nat, n: nat, a: nat)
      requires Ok(l) && Bounded(l) && l.cb > 0 && |l.sizes| <= PIECE_INDEX_LIMIT
      requires a == PieceIndex(offset) < |l.sizes| && offset % l.cb + n <= l.sizes[a]
      ensures n > 0 ==> (offset / l.cb < PIECE_INDEX_LIMIT <==> Within(l, a, offset, n))
      ensures offset / l.cb < PIECE_INDEX_LIMIT ==> Within(l, a, offset, n)
      ensures offset / l.cb >= PIECE_INDEX_LIMIT ==> Passed(l, |l.files|, offset)
    {
      var q := offset / l.cb;
      assert offset == l.cb * q + offset % l.cb && a == q % PIECE_INDEX_LIMIT;
      IndexBelow(q);
      hide PieceIndex, Ok;
      if q >= PIECE_INDEX_LIMIT {
        StartsRise(l, |l.sizes|, q);
        StartsApart(l, a, |l.sizes|);
      }
    }

    // An offset and the one 2^32 pieces behind it are taken for the same.
    lemma IndexWraps(offset: nat, s: Bytes)
      requires l.cb > 0
      ensures Takes(offset + l.cb * PIECE_INDEX_LIMIT, s) == Takes(offset, s)
      ensures (offset + l.cb * PIECE_INDEX_LIMIT) / l.cb >= PIECE_INDEX_LIMIT
    {
      var q, r := offset / l.cb, offset % l.cb;
      assert l.cb * (q + PIECE_INDEX_LIMIT) == l.cb * q + l.cb * PIECE_INDEX_LIMIT;
      ModUnique(offset + l.cb * PIECE_INDEX_LIMIT, l.cb, q + PIECE_INDEX_LIMIT, r);
      assert (q + PIECE_INDEX_LIMIT) % PIECE_INDEX_LIMIT == q % PIECE_INDEX_LIMIT;
    }

    // The index of the piece of a byte, cut off at 32 bits.
    function PieceIndex(offset: int): int
      requires l.cb > 0
    {
      (offset / l.cb) % PIECE_INDEX_LIMIT
    }

    ghost predicate Takes(offset: int, s: Bytes)
      requires l.cb > 0
      reads pieces
    {
      0 <= PieceIndex(offset) < |pieces| && pieces[PieceIndex(offset)].Accepts(offset % l.cb, |s|)
    }
  }

  // Every other sub-piece has arrived.
  ghost predicate Completed(p: P.Piece, offset: nat)
    reads p
  {
    forall b :: 0 <= b < |p.subPieces| && b != offset / P.CB_SUB_PIECE ==> p.subPieces[b].valid
  }
}
