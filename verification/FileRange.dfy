// The pieces of one file: those that lie in it, and the range that the program
// computes from the place and size of the file.
module FileRange {
  import opened Arithmetic
  import opened TorrentLayout

  // The piece that byte `x` is in, if there is one.
  function IndexOf(l: Layout, x: nat): nat
    requires l.cb > 0
  {
    x / l.cb
  }

  function FirstPiece(l: Layout, j: nat): nat
    requires l.cb > 0 && j < |l.files|
  {
    IndexOf(l, l.files[j].offset)
  }

  function CPieces(l: Layout, j: nat): nat
    requires l.cb > 0 && j < |l.files|
  {
    (l.files[j].size + l.cb - 1) / l.cb
  }

  predicate InRange(l: Layout, j: nat, k: nat)
    requires l.cb > 0 && j < |l.files|
  {
    FirstPiece(l, j) <= k < FirstPiece(l, j) + CPieces(l, j)
  }

  lemma StartIn(cb: nat, offset: nat, size: nat, k: nat)
    requires cb > 0 && offset % cb == 0
    ensures (offset / cb <= k < offset / cb + (size + cb - 1) / cb) <==> (offset <= cb * k < offset + size)
  {
    var f, c := offset / cb, (size + cb - 1) / cb;
    assert offset == cb * f;
    assert cb * c <= size + cb - 1 < cb * c + cb;
    assert cb * (f + c) == offset + cb * c;
    MulMonotone(cb, f, k);
    MulMonotone(cb, k, f);
    MulMonotone(cb, f + c, k);
    MulMonotone(cb, k, f + c);
  }

  lemma FileOrder(l: Layout, j: nat, m: nat)
    requires Ok(l) && j < |l.files| && m < |l.files|
    ensures j < m ==> l.files[j].End() <= l.files[m].offset
    ensures m < j ==> l.files[m].End() <= l.files[j].offset
  {
  }

  // In an aligned layout the pieces of a file are the ones its range names.
  lemma {:induction false} RangeOfFile(l: Layout, j: nat, k: nat)
    requires Ok(l) && l.cb > 0 && Aligned(l) && j < |l.files| && InRange(l, j, k)
    ensures k < |l.sizes| && l.files[j].offset <= Start(l, k) && Start(l, k) + l.sizes[k] <= l.files[j].End()
  {
    var e := l.files[j];
    NotEmpty(l, j, k);
    StartIn(l.cb, e.offset, e.size, k);
    assert InFile(l, j, Start(l, k));
    var p := PieceOf(l, j, Start(l, k));
    StartsApart(l, p, k);
    StartsApart(l, k, p);
    if Start(l, k) + l.sizes[k] > e.End() {
      assert InPiece(l, k, e.End());
      var m := FileOf(l, k, e.End());
      FileOrder(l, j, m);
      BetweenMultiples(l.cb, k, l.files[m].offset);
    }
  }

  lemma NotEmpty(l: Layout, j: nat, k: nat)
    requires l.cb > 0 && j < |l.files| && InRange(l, j, k)
    ensures l.files[j].size > 0
  {
  }

  lemma BetweenMultiples(cb: nat, k: nat, x: nat)
    requires cb > 0 && cb * k < x < cb * k + cb
    ensures x % cb != 0
  {
    var q := x / cb;
    assert x == cb * q + x % cb;
    MulMonotone(cb, q, k);
    MulMonotone(cb, k, q);
  }

  // A byte of a file is in a piece of its range.
  lemma {:induction false} PieceInRange(l: Layout, j: nat, p: nat, y: nat)
    requires Ok(l) && l.cb > 0 && Aligned(l) && j < |l.files| && p < |l.sizes| && InFile(l, j, y) && InPiece(l, p, y)
    ensures InRange(l, j, p)
  {
    var e := l.files[j];
    if Start(l, p) < e.offset {
      assert e.offset % l.cb == 0;
      BetweenMultiples(l.cb, p, e.offset);
    }
    StartIn(l.cb, e.offset, e.size, p);
  }

  // Pieces outside the range of a file have no bytes in it, and those in it
  // have none in other files.
  lemma {:induction false} RangeApart(l: Layout, j: nat, p: nat)
    requires Ok(l) && l.cb > 0 && Aligned(l) && j < |l.files| && p < |l.sizes|
    ensures !InRange(l, j, p) ==> PieceOverlap(l, p, l.files[j].offset, l.files[j].End()) == 0
    ensures InRange(l, j, p) ==> forall m :: 0 <= m < |l.files| && m != j ==>
      PieceOverlap(l, p, l.files[m].offset, l.files[m].End()) == 0
  {
    var e := l.files[j];
    if InRange(l, j, p) {
      RangeOfFile(l, j, p);
      forall m | 0 <= m < |l.files| && m != j
        ensures PieceOverlap(l, p, l.files[m].offset, l.files[m].End()) == 0
      {
        FileOrder(l, j, m);
      }
    } else if PieceOverlap(l, p, e.offset, e.End()) > 0 {
      PieceInRange(l, j, p, Max(Start(l, p), e.offset));
    }
  }
}
