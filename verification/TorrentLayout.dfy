// The flat byte space of a torrent: pieces on one side, sub-files on the other.
module TorrentLayout {
  import opened Arithmetic

  datatype Extent = Extent(offset: nat, size: nat) {
    function End(): nat { offset + size }
  }

  // Piece `i` starts at `cb * i`.
  datatype Layout = Layout(cb: nat, sizes: seq<nat>, files: seq<Extent>)

  function Start(l: Layout, i: nat): nat {
    l.cb * i
  }

  predicate InPiece(l: Layout, i: nat, x: nat)
    requires i < |l.sizes|
  {
    Start(l, i) <= x < Start(l, i) + l.sizes[i]
  }

  predicate InFile(l: Layout, j: nat, x: nat)
    requires j < |l.files|
  {
    l.files[j].offset <= x < l.files[j].End()
  }

  ghost predicate PieceHas(l: Layout, x: nat) {
    exists i :: 0 <= i < |l.sizes| && InPiece(l, i, x)
  }

  ghost predicate FileHas(l: Layout, x: nat) {
    exists j :: 0 <= j < |l.files| && InFile(l, j, x)
  }

  // Pieces are short enough to be disjoint, files are in order, and pieces and
  // files have the same bytes.
  ghost predicate Ok(l: Layout) {
    && (forall i :: 0 <= i < |l.sizes| ==> 0 < l.sizes[i] <= l.cb)
    && (forall i, j :: 0 <= i < j < |l.files| ==> l.files[i].End() <= l.files[j].offset)
    && (forall x: nat :: SameBytes(l, x))
  }

  // No file, not even an empty one, ends behind the room of the pieces.
  predicate Bounded(l: Layout) {
    forall j :: 0 <= j < |l.files| ==> l.files[j].End() <= Start(l, |l.sizes|)
  }

  // Every file that is not empty starts at a multiple of the piece length.
  predicate Aligned(l: Layout)
    requires l.cb > 0
  {
    forall j :: 0 <= j < |l.files| && l.files[j].size > 0 ==> l.files[j].offset % l.cb == 0
  }

  ghost predicate SameBytes(l: Layout, x: nat) {
    PieceHas(l, x) <==> FileHas(l, x)
  }

  lemma StartsApart(l: Layout, i: nat, k: nat)
    ensures i < k ==> Start(l, i) + l.cb <= Start(l, k)
  {
    if i < k {
      assert l.cb * k == l.cb * i + l.cb * (k - i);
      MulGrows(l.cb, k - i);
    }
  }

  lemma StartsRise(l: Layout, i: nat, k: nat)
    requires i <= k
    ensures Start(l, i) <= Start(l, k)
  {
    var d: nat := k - i;
    assert l.cb * k == l.cb * i + l.cb * d;
  }

  // A byte is in one file at most.
  lemma OneFile(l: Layout, j: nat, k: nat, x: nat)
    requires Ok(l) && j < |l.files| && k < |l.files| && InFile(l, j, x) && InFile(l, k, x)
    ensures j == k
  {
  }

  lemma {:induction false} FileOf(l: Layout, i: nat, x: nat) returns (j: nat)
    requires Ok(l) && i < |l.sizes| && InPiece(l, i, x)
    ensures j < |l.files| && InFile(l, j, x)
  {
    assert PieceHas(l, x) && SameBytes(l, x);
    j :| 0 <= j < |l.files| && InFile(l, j, x);
  }

  lemma {:induction false} PieceOf(l: Layout, j: nat, x: nat) returns (i: nat)
    requires Ok(l) && j < |l.files| && InFile(l, j, x)
    ensures i < |l.sizes| && InPiece(l, i, x)
  {
    assert FileHas(l, x) && SameBytes(l, x);
    i :| 0 <= i < |l.sizes| && InPiece(l, i, x);
  }

  // ----- walking over pieces and files at once -----

  // A cursor `off` bytes into file `sub` stands at byte `x`: in the file, or in
  // front of the next file that is not empty.
  predicate At(l: Layout, sub: nat, off: nat, x: nat) {
    && sub <= |l.files|
    && (forall j :: 0 <= j < sub ==> l.files[j].End() <= x)
    && (off > 0 ==> sub < |l.files| && off < l.files[sub].size && l.files[sub].offset + off == x)
    && (off == 0 ==> forall j :: sub <= j < |l.files| && l.files[j].size > 0 ==> x <= l.files[j].offset)
  }

  // At a byte of a piece, the file is there, and the cursor is exact.
  lemma {:induction false} AtByte(l: Layout, sub: nat, off: nat, i: nat, x: nat)
    requires Ok(l) && At(l, sub, off, x) && i < |l.sizes| && InPiece(l, i, x)
    ensures sub < |l.files| && (l.files[sub].size > 0 ==> l.files[sub].offset + off == x)
    ensures l.files[sub].size == 0 ==> off == 0 && l.files[sub].offset <= x
  {
    var j := FileOf(l, i, x);
    assert j >= sub;
    if j > sub {
      assert l.files[sub].End() <= l.files[j].offset;
    }
  }

  // `n` bytes further on in the same piece.
  lemma {:induction false} Advance(l: Layout, sub: nat, off: nat, i: nat, x: nat, n: nat)
    requires Ok(l) && At(l, sub, off, x) && i < |l.sizes| && InPiece(l, i, x)
    requires sub < |l.files| && n == Min(Start(l, i) + l.sizes[i] - x, l.files[sub].size - off)
    ensures if off + n == l.files[sub].size then At(l, sub + 1, 0, x + n) else At(l, sub, off + n, x + n)
    ensures n > 0 ==> InFile(l, sub, x) && x + n <= l.files[sub].End()
  {
    AtByte(l, sub, off, i, x);
  }

  // From the end of a piece to the start of the next.
  lemma {:induction false} NextPiece(l: Layout, sub: nat, off: nat, i: nat)
    requires Ok(l) && i < |l.sizes| && At(l, sub, off, Start(l, i) + l.sizes[i])
    ensures At(l, sub, off, Start(l, i + 1))
  {
    var x := Start(l, i) + l.sizes[i];
    assert Start(l, i + 1) == Start(l, i) + l.cb;
    if off > 0 {
      NoFileByteInGap(l, i, sub, x);
    }
    forall j | sub <= j < |l.files| && l.files[j].size > 0 && off == 0
      ensures Start(l, i + 1) <= l.files[j].offset
    {
      if l.files[j].offset < Start(l, i + 1) {
        NoFileByteInGap(l, i, j, l.files[j].offset);
      }
    }
  }

  lemma {:induction false} NoFileByteInGap(l: Layout, i: nat, j: nat, x: nat)
    requires Ok(l) && i < |l.sizes| && j < |l.files| && InFile(l, j, x)
    requires Start(l, i) + l.sizes[i] <= x
    ensures Start(l, i + 1) <= x
  {
    var k := PieceOf(l, j, x);
    if k <= i {
      StartsApart(l, k, i);
    } else {
      StartsApart(l, i, i + 1);
      StartsApart(l, i + 1, k);
    }
  }

  // ----- counting bytes -----

  // How many bytes of [a, b) are in [lo, hi).
  function Overlap(a: int, b: int, lo: int, hi: int): nat {
    Max(0, Min(b, hi) - Max(a, lo))
  }

  // The bytes of the first `n` pieces that are invalid.
  function InvalidSize(l: Layout, valid: seq<bool>, n: nat): nat
    requires n <= |l.sizes| == |valid|
  {
    if n == 0 then 0
    else InvalidSize(l, valid, n - 1) + if valid[n - 1] then 0 else l.sizes[n - 1]
  }

  // ... and those of them that are in [lo, hi).
  function InvalidIn(l: Layout, valid: seq<bool>, n: nat, lo: int, hi: int): nat
    requires n <= |l.sizes| == |valid|
  {
    if n == 0 then 0
    else InvalidIn(l, valid, n - 1, lo, hi) + if valid[n - 1] then 0 else PieceOverlap(l, n - 1, lo, hi)
  }

  function PieceOverlap(l: Layout, i: nat, lo: int, hi: int): nat
    requires i < |l.sizes|
  {
    Overlap(Start(l, i), Start(l, i) + l.sizes[i], lo, hi)
  }

  function InvalidInFile(l: Layout, valid: seq<bool>, n: nat, j: nat): nat
    requires n <= |l.sizes| == |valid| && j < |l.files|
  {
    InvalidIn(l, valid, n, l.files[j].offset, l.files[j].End())
  }

  lemma {:induction false} InvalidSizeUpdate(l: Layout, valid: seq<bool>, n: nat, i: nat)
    requires i < n <= |l.sizes| == |valid| && !valid[i]
    ensures InvalidSize(l, valid[i := true], n) == InvalidSize(l, valid, n) - l.sizes[i]
  {
    if i == n - 1 {
      InvalidSizeSame(l, valid, valid[i := true], n - 1);
    } else {
      InvalidSizeUpdate(l, valid, n - 1, i);
    }
  }

  lemma {:induction false} InvalidSizeSame(l: Layout, valid: seq<bool>, valid': seq<bool>, n: nat)
    requires n <= |l.sizes| == |valid| == |valid'| && forall k :: 0 <= k < n ==> valid[k] == valid'[k]
    ensures InvalidSize(l, valid, n) == InvalidSize(l, valid', n)
  {
    if n > 0 {
      InvalidSizeSame(l, valid, valid', n - 1);
    }
  }

  // Validity counts only for pieces with bytes in the range.
  lemma {:induction false} InvalidInSame(l: Layout, valid: seq<bool>, valid': seq<bool>, n: nat, lo: int, hi: int)
    requires n <= |l.sizes| == |valid| == |valid'|
    requires forall k :: 0 <= k < n ==> valid[k] == valid'[k] || PieceOverlap(l, k, lo, hi) == 0
    ensures InvalidIn(l, valid, n, lo, hi) == InvalidIn(l, valid', n, lo, hi)
  {
    if n > 0 {
      InvalidInSame(l, valid, valid', n - 1, lo, hi);
    }
  }

  lemma {:induction false} InvalidInUpdate(l: Layout, valid: seq<bool>, n: nat, i: nat, lo: int, hi: int)
    requires i < n <= |l.sizes| == |valid| && !valid[i]
    ensures InvalidIn(l, valid[i := true], n, lo, hi) == InvalidIn(l, valid, n, lo, hi) - PieceOverlap(l, i, lo, hi)
  {
    if i == n - 1 {
      InvalidInSame(l, valid, valid[i := true], n - 1, lo, hi);
    } else {
      InvalidInUpdate(l, valid, n - 1, i, lo, hi);
    }
  }

  ghost predicate InFirst(l: Layout, n: nat, x: nat)
    requires n <= |l.sizes|
  {
    exists i :: 0 <= i < n && InPiece(l, i, x)
  }

  lemma {:induction false} EarlierPieces(l: Layout, n: nat, x: nat)
    requires Ok(l) && n < |l.sizes| && InFirst(l, n + 1, x)
    ensures if x < Start(l, n) then InFirst(l, n, x) else InPiece(l, n, x)
  {
    var i :| 0 <= i < n + 1 && InPiece(l, i, x);
    StartsApart(l, i, n);
  }

  lemma EarlierRange(l: Layout, n: nat, m: nat, lo: nat, mid: nat)
    requires Ok(l) && n + 1 == m <= |l.sizes| && (lo < mid ==> mid <= Start(l, n))
    requires forall x: nat | lo <= x < mid :: InFirst(l, m, x)
    ensures forall x: nat | lo <= x < mid :: InFirst(l, n, x)
  {
    forall x: nat | lo <= x < mid
      ensures InFirst(l, n, x)
    {
      EarlierPieces(l, n, x);
    }
  }

  // Pieces that end at or before `mid` do not see what is above it.
  lemma {:induction false} CutHigh(l: Layout, valid: seq<bool>, n: nat, lo: int, mid: int, hi: int)
    requires Ok(l) && n <= |l.sizes| == |valid| && mid <= hi && (n > 0 ==> Start(l, n - 1) + l.sizes[n - 1] <= mid)
    ensures InvalidIn(l, valid, n, lo, hi) == InvalidIn(l, valid, n, lo, mid)
    ensures forall k :: 0 <= k < n ==> PieceOverlap(l, k, lo, hi) == PieceOverlap(l, k, lo, mid)
  {
    if n > 0 {
      if n > 1 {
        StartsApart(l, n - 2, n - 1);
      }
      CutHigh(l, valid, n - 1, lo, mid, hi);
    }
  }

  // The bytes of a range that are in one of the first `n` pieces, when all of
  // them are and none of these pieces is valid.
  lemma {:induction false} AllInvalidIn(l: Layout, valid: seq<bool>, n: nat, lo: nat, hi: nat)
    requires Ok(l) && n <= |l.sizes| == |valid| && lo <= hi
    requires forall x: nat | lo <= x < hi :: InFirst(l, n, x)
    requires forall k :: 0 <= k < n ==> !valid[k] || PieceOverlap(l, k, lo, hi) == 0
    ensures InvalidIn(l, valid, n, lo, hi) == hi - lo
    decreases n
  {
    if n == 0 {
      assert lo < hi ==> InFirst(l, n, lo);
    } else {
      var m: nat := n - 1;
      var s := Start(l, m);
      var mid := if s >= hi then hi else if s <= lo then lo else s;
      EarlierRange(l, m, n, lo, mid);
      if s < hi {
        if n > 1 {
          StartsApart(l, n - 2, n - 1);
        }
        CutHigh(l, valid, m, lo, mid, hi);
      }
      AllInvalidIn(l, valid, m, lo, mid);
      if mid < hi {
        assert InFirst(l, n, hi - 1);
        EarlierPieces(l, m, hi - 1);
      }
    }
  }

  // ----- the sum over the files -----

  // The bytes of [lo, hi) in the first `m` files.
  function FilesOverlap(l: Layout, m: nat, lo: int, hi: int): nat
    requires m <= |l.files|
  {
    if m == 0 then 0
    else FilesOverlap(l, m - 1, lo, hi) + Overlap(lo, hi, l.files[m - 1].offset, l.files[m - 1].End())
  }

  function LeftSum(l: Layout, valid: seq<bool>, n: nat, m: nat): nat
    requires n <= |l.sizes| == |valid| && m <= |l.files|
  {
    if m == 0 then 0 else LeftSum(l, valid, n, m - 1) + InvalidInFile(l, valid, n, m - 1)
  }

  ghost predicate InFirstFiles(l: Layout, m: nat, x: nat)
    requires m <= |l.files|
  {
    exists j :: 0 <= j < m && InFile(l, j, x)
  }

  // Files before `m` do not see what is above a point in front of which they end.
  lemma {:induction false} CutHighFiles(l: Layout, m: nat, lo: int, mid: int, hi: int)
    requires m <= |l.files| && mid <= hi && forall j :: 0 <= j < m ==> l.files[j].End() <= mid || l.files[j].size == 0
    ensures FilesOverlap(l, m, lo, hi) == FilesOverlap(l, m, lo, mid)
  {
    if m > 0 {
      CutHighFiles(l, m - 1, lo, mid, hi);
    }
  }

  lemma {:induction false} EarlierFiles(l: Layout, m: nat, x: nat)
    requires Ok(l) && m < |l.files| && InFirstFiles(l, m + 1, x)
    ensures if x < l.files[m].offset then InFirstFiles(l, m, x) else InFile(l, m, x)
  {
    var j :| 0 <= j < m + 1 && InFile(l, j, x);
    if j < m {
      assert l.files[j].End() <= l.files[m].offset;
    }
  }

  lemma {:induction false} AllInFiles(l: Layout, m: nat, lo: nat, hi: nat)
    requires Ok(l) && m <= |l.files| && lo <= hi
    requires forall x: nat | lo <= x < hi :: InFirstFiles(l, m, x)
    ensures FilesOverlap(l, m, lo, hi) == hi - lo
    decreases m
  {
    if m == 0 {
      assert lo < hi ==> InFirstFiles(l, m, lo);
    } else {
      var k: nat := m - 1;
      var o := l.files[k].offset;
      var mid := if o >= hi then hi else if o <= lo then lo else o;
      forall x: nat | lo <= x < mid
        ensures InFirstFiles(l, k, x)
      {
        assert InFirstFiles(l, m, x);
        EarlierFiles(l, k, x);
      }
      AllInFiles(l, k, lo, mid);
      if o < hi {
        CutHighFiles(l, k, lo, mid, hi);
      }
      if mid < hi {
        assert InFirstFiles(l, m, hi - 1);
        EarlierFiles(l, k, hi - 1);
      }
    }
  }

  lemma {:induction false} LeftSumStep(l: Layout, valid: seq<bool>, n: nat, m: nat)
    requires 0 < n <= |l.sizes| == |valid| && m <= |l.files|
    ensures LeftSum(l, valid, n, m) == LeftSum(l, valid, n - 1, m) +
      if valid[n - 1] then 0 else FilesOverlap(l, m, Start(l, n - 1), Start(l, n - 1) + l.sizes[n - 1])
  {
    if m > 0 {
      LeftSumStep(l, valid, n, m - 1);
    }
  }

  lemma LeftSumOfNone(l: Layout, valid: seq<bool>, m: nat)
    requires |l.sizes| == |valid| && m <= |l.files|
    ensures LeftSum(l, valid, 0, m) == 0
  {
  }

  // What is left of the torrent is what is left of its files.
  lemma {:induction false} SumsAgree(l: Layout, valid: seq<bool>, n: nat)
    requires Ok(l) && n <= |l.sizes| == |valid|
    ensures LeftSum(l, valid, n, |l.files|) == InvalidSize(l, valid, n)
  {
    if n == 0 {
      LeftSumOfNone(l, valid, |l.files|);
    } else {
      var k: nat := n - 1;
      SumsAgree(l, valid, k);
      LeftSumStep(l, valid, n, |l.files|);
      forall x: nat | Start(l, k) <= x < Start(l, k) + l.sizes[k]
        ensures InFirstFiles(l, |l.files|, x)
      {
        assert InPiece(l, k, x);
        var j := FileOf(l, k, x);
      }
      AllInFiles(l, |l.files|, Start(l, k), Start(l, k) + l.sizes[k]);
    }
  }
}
