// How the metadata of a torrent is laid out as sub-files and pieces.
module TorrentInfo {
  import opened Arithmetic
  import opened TorrentLayout
  import opened Wrappers

  // A sub-file of the metadata: its length, and whether it has a name and a
  // Merkle hash of 20 bytes.
  datatype Entry = Entry(size: int, named: bool, hashed: bool)

  // `&` on integers in two's complement.
  function And(x: int, m: int): (r: int)
    ensures m >= 0 ==> 0 <= r <= m
    decreases if m < 0 then -m else m
  {
    if m == 0 then 0
    else if m == -1 then x
    else 2 * And(x / 2, m / 2) + if x % 2 == 1 && m % 2 == 1 then 1 else 0
  }

  predicate PowerOfTwo(n: nat): (r: bool)
    ensures r ==> n > 0
  {
    n == 1 || (n > 0 && n % 2 == 0 && PowerOfTwo(n / 2))
  }

  lemma {:induction false} PowersAre(n: nat)
    ensures PowerOfTwo(n) <==> exists k :: n == Pow2(k)
  {
    if PowerOfTwo(n) {
      var k := ExponentOf(n);
    }
    if k: nat :| n == Pow2(k) {
      PowerIs(k);
    }
  }

  lemma {:induction false} ExponentOf(n: nat) returns (k: nat)
    requires PowerOfTwo(n)
    ensures n == Pow2(k)
  {
    k := 0;
    if n > 1 {
      k := ExponentOf(n / 2);
      k := k + 1;
    }
  }

  lemma {:induction false} PowerIs(k: nat)
    ensures PowerOfTwo(Pow2(k))
  {
    if k > 0 {
      PowerIs(k - 1);
    }
  }

  lemma {:induction false} MaskIsMod(x: int, n: nat)
    requires PowerOfTwo(n)
    ensures And(x, n - 1) == x % n
    decreases n
  {
    if n > 1 {
      assert (n - 1) / 2 == n / 2 - 1;
      MaskIsMod(x / 2, n / 2);
      ModOfHalf(x, n / 2);
    }
  }

  lemma ModOfHalf(x: int, h: nat)
    requires h > 0
    ensures x % (2 * h) == 2 * ((x / 2) % h) + x % 2
  {
    var q, r := (x / 2) / h, (x / 2) % h;
    assert x == 2 * (h * q + r) + x % 2;
    assert x == (2 * h) * q + (2 * r + x % 2) by {
      assert 2 * (h * q) == (2 * h) * q;
    }
    ModUnique(x, 2 * h, q, 2 * r + x % 2);
  }

  // ----- sub-files -----

  function Padding(merkle: bool, cb: int, offset: nat): int {
    if merkle then And(0 - offset, cb - 1) else 0
  }

  lemma {:induction false} PaddingFits(cb: nat, offset: nat)
    requires PowerOfTwo(cb)
    ensures 0 <= Padding(true, cb, offset) < cb && (offset + Padding(true, cb, offset)) % cb == 0
  {
    hide And, PowerOfTwo;
    MaskIsMod(0 - offset, cb);
    PaddedIsMultiple(cb, offset);
  }

  lemma PaddedIsMultiple(cb: nat, offset: nat)
    requires cb > 0
    ensures (offset + (0 - offset) % cb) % cb == 0
  {
    var q := (0 - offset) / cb;
    assert cb * q + (0 - offset) % cb == 0 - offset;
    assert cb * -q == -(cb * q);
    ModUnique(offset + (0 - offset) % cb, cb, -q, 0);
  }

  // ----- pieces -----

  // The pieces of `size` bytes.
  function Cut(cb: nat, size: nat): seq<nat>
    requires cb > 0
  {
    if size == 0 then [] else [Min(size, cb)] + Cut(cb, size - Min(size, cb))
  }

  lemma {:induction false} CutAt(cb: nat, size: nat)
    requires cb > 0
    ensures forall i :: 0 <= i < |Cut(cb, size)| ==> cb * i < size && Cut(cb, size)[i] == Min(size - cb * i, cb)
    ensures size <= cb * |Cut(cb, size)| < size + cb
    decreases size
  {
    if size > 0 {
      var m := Min(size, cb);
      var t := Cut(cb, size - m);
      CutAt(cb, size - m);
      OneMore(cb, |t|);
      forall i | 0 <= i < |t| + 1
        ensures cb * i < size && Cut(cb, size)[i] == Min(size - cb * i, cb)
      {
        OneMore(cb, i - 1);
      }
    }
  }

  lemma OneMore(cb: nat, i: int)
    ensures cb * (i + 1) == cb * i + cb
  {
  }

  lemma {:induction false} CutCount(cb: nat, size: nat)
    requires cb > 0
    ensures |Cut(cb, size)| == (size + cb - 1) / cb
  {
    hide Cut;
    CutAt(cb, size);
    var q := |Cut(cb, size)|;
    ModUnique(size + cb - 1, cb, q, size + cb - 1 - cb * q);
  }

  // Pieces cut from [cb * p, cb * p + size) cover it.
  lemma {:induction false} CutCovers(l: Layout, p: nat, size: nat, x: nat)
    requires l.cb > 0 && p <= |l.sizes| && l.sizes[p..] == Cut(l.cb, size) && x >= l.cb * p
    ensures x < l.cb * p + size <==> exists i :: p <= i < |l.sizes| && InPiece(l, i, x)
  {
    hide Cut;
    CutAt(l.cb, size);
    var t := Cut(l.cb, size);
    forall i | p <= i < |l.sizes|
      ensures l.sizes[i] == t[i - p] && l.cb * i == l.cb * p + l.cb * (i - p)
    {
      assert l.sizes[i] == l.sizes[p..][i - p];
      Distribute(l.cb, p, i - p);
    }
    if x < l.cb * p + size {
      var y := x - l.cb * p;
      QuotientInside(y, l.cb, |t|);
      assert InPiece(l, p + y / l.cb, x);
    }
  }

  lemma Distribute(cb: int, p: int, k: int)
    ensures cb * (p + k) == cb * p + cb * k
  {
  }

  lemma QuotientInside(y: nat, cb: nat, n: nat)
    requires cb > 0 && y < cb * n
    ensures 0 <= y / cb < n && cb * (y / cb) <= y < cb * (y / cb) + cb
  {
    var e := y / cb - n;
    assert cb * (y / cb) == cb * n + cb * e;
    assert e >= 0 ==> cb * e >= 0;
  }

  // ----- the layout -----

  // Where a file after those of the given sizes goes.
  function Next(merkle: bool, cb: nat, s: seq<nat>): nat
    requires cb > 0
  {
    if s == [] then 0
    else
      var e := Next(merkle, cb, s[..|s| - 1]) + s[|s| - 1];
      e + Padding(merkle, cb, e)
  }

  function Files(merkle: bool, cb: nat, s: seq<nat>): (r: seq<Extent>)
    requires cb > 0
    ensures |r| == |s| && forall j :: 0 <= j < |s| ==> r[j].size == s[j]
  {
    if s == [] then []
    else Files(merkle, cb, s[..|s| - 1]) + [Extent(Next(merkle, cb, s[..|s| - 1]), s[|s| - 1])]
  }

  // Every file cut into pieces of its own.
  function CutEach(cb: nat, s: seq<nat>): seq<nat>
    requires cb > 0
  {
    if s == [] then [] else CutEach(cb, s[..|s| - 1]) + Cut(cb, s[|s| - 1])
  }

  function LayoutOf(merkle: bool, cb: nat, s: seq<nat>): Layout
    requires cb > 0
  {
    Layout(cb, if merkle then CutEach(cb, s) else Cut(cb, Sum(s)), Files(merkle, cb, s))
  }

  predicate FilesOrdered(l: Layout) {
    forall i, j :: 0 <= i < j < |l.files| ==> l.files[i].End() <= l.files[j].offset
  }

  // Files are in order, and in front of the next place.
  lemma {:induction false} FilesInOrder(merkle: bool, cb: nat, s: seq<nat>)
    requires cb > 0
    ensures FilesOrdered(LayoutOf(merkle, cb, s))
    ensures forall j :: 0 <= j < |s| ==> Files(merkle, cb, s)[j].End() <= Next(merkle, cb, s)
    decreases |s|
  {
    if s != [] {
      FilesInOrder(merkle, cb, s[..|s| - 1]);
    }
  }

  // Without padding the files fill [0, total).
  lemma {:induction false} FilesFill(cb: nat, s: seq<nat>, x: nat)
    requires cb > 0
    ensures Next(false, cb, s) == Sum(s)
    ensures x < Sum(s) <==> FileHas(LayoutOf(false, cb, s), x)
    decreases |s|
  {
    if s != [] {
      var n := |s| - 1;
      var l, l' := LayoutOf(false, cb, s[..n]), LayoutOf(false, cb, s);
      FilesFill(cb, s[..n], x);
      SumPrefix(s, n);
      assert s[..n + 1] == s;
      FileAdded(l, l', x);
    }
  }

  lemma FileAdded(l: Layout, l': Layout, x: nat)
    requires l'.files != [] && l.files == l'.files[..|l'.files| - 1]
    ensures FileHas(l', x) <==> FileHas(l, x) || InFile(l', |l.files|, x)
  {
    if j :| 0 <= j < |l.files| && InFile(l, j, x) {
      assert InFile(l', j, x);
    }
    if j :| 0 <= j < |l'.files| && InFile(l', j, x) {
      assert j < |l.files| ==> InFile(l, j, x);
    }
  }

  lemma PiecesAdded(l: Layout, l': Layout, x: nat)
    requires l.cb == l'.cb && |l.sizes| <= |l'.sizes| && l.sizes == l'.sizes[..|l.sizes|]
    ensures PieceHas(l', x) <==> PieceHas(l, x) || exists i :: |l.sizes| <= i < |l'.sizes| && InPiece(l', i, x)
  {
    if i :| 0 <= i < |l.sizes| && InPiece(l, i, x) {
      assert InPiece(l', i, x);
    }
    if i :| 0 <= i < |l'.sizes| && InPiece(l', i, x) {
      assert i < |l.sizes| ==> InPiece(l, i, x);
    }
  }

  lemma {:induction false} PlainIsOk(cb: nat, s: seq<nat>)
    requires cb > 0
    ensures Ok(LayoutOf(false, cb, s)) && Bounded(LayoutOf(false, cb, s))
  {
    var l := LayoutOf(false, cb, s);
    CutAt(cb, Sum(s));
    FilesInOrder(false, cb, s);
    FilesFill(cb, s, 0);
    forall x: nat
      ensures SameBytes(l, x)
    {
      FilesFill(cb, s, x);
      assert l.sizes[0..] == l.sizes;
      CutCovers(l, 0, Sum(s), x);
    }
  }

  // A file that is not empty starts where its first piece does.
  predicate Placed(cb: nat, s: seq<nat>, j: nat)
    requires cb > 0 && j < |s|
  {
    s[j] > 0 ==> Next(true, cb, s[..j]) == cb * |CutEach(cb, s[..j])|
  }

  predicate AllPlaced(cb: nat, s: seq<nat>)
    requires cb > 0
  {
    forall j :: 0 <= j < |s| ==> Placed(cb, s, j)
  }

  lemma PlacedPrefix(cb: nat, s: seq<nat>, n: nat)
    requires cb > 0 && n <= |s| && forall j :: 0 <= j < n ==> Placed(cb, s, j)
    ensures AllPlaced(cb, s[..n])
  {
    forall j | 0 <= j < n
      ensures Placed(cb, s[..n], j)
    {
      assert s[..n][..j] == s[..j] && Placed(cb, s, j);
    }
  }

  lemma {:induction false} PlacedIsOk(cb: nat, s: seq<nat>)
    requires cb > 0 && AllPlaced(cb, s)
    ensures Ok(LayoutOf(true, cb, s))
    decreases |s|
  {
    if s != [] {
      var n := |s| - 1;
      var l, l' := LayoutOf(true, cb, s[..n]), LayoutOf(true, cb, s);
      var p := |l.sizes|;
      PlacedPrefix(cb, s, n);
      PlacedIsOk(cb, s[..n]);
      CutAt(cb, s[n]);
      FilesInOrder(true, cb, s);
      assert Placed(cb, s, n);
      assert l'.sizes[p..] == Cut(cb, s[n]);
      forall x: nat
        ensures SameBytes(l', x)
      {
        assert SameBytes(l, x);
        FileAdded(l, l', x);
        PiecesAdded(l, l', x);
        if x >= cb * p {
          CutCovers(l', p, s[n], x);
        } else {
          StartsAbove(l', p, x);
        }
      }
    }
  }

  lemma StartsAbove(l: Layout, p: nat, x: nat)
    requires x < Start(l, p)
    ensures forall i :: p <= i < |l.sizes| ==> !InPiece(l, i, x)
  {
    forall i | p <= i < |l.sizes|
      ensures !InPiece(l, i, x)
    {
      StartsApart(l, p, i);
    }
  }

  lemma {:induction false} PrefixOf(cb: nat, s: seq<nat>, n: nat)
    requires cb > 0 && n <= |s|
    ensures Files(true, cb, s[..n]) == Files(true, cb, s)[..n]
    ensures CutEach(cb, s[..n]) <= CutEach(cb, s)
    ensures n < |s| ==> Files(true, cb, s)[n].offset == Next(true, cb, s[..n])
    ensures n < |s| ==> |CutEach(cb, s)| >= |CutEach(cb, s[..n])| + |Cut(cb, s[n])|
    decreases |s|
  {
    hide Cut, Next;
    var m := |s| - 1;
    if n < m {
      PrefixOf(cb, s[..m], n);
      assert s[..m][..n] == s[..n];
    } else if n == |s| {
      assert s[..n] == s;
    }
  }

  // The first file that is not placed has a byte without a piece, or its first
  // piece has a byte without a file.
  lemma {:induction false} MisplacedIsNotOk(cb: nat, s: seq<nat>, j: nat)
    requires cb > 0 && j < |s| && !Placed(cb, s, j) && forall k :: 0 <= k < j ==> Placed(cb, s, k)
    ensures !Ok(LayoutOf(true, cb, s))
  {
    hide Cut, And, CutEach, Files, Padding, Next;
    var l, l' := LayoutOf(true, cb, s[..j]), LayoutOf(true, cb, s);
    PlacedPrefix(cb, s, j);
    PlacedIsOk(cb, s[..j]);
    PrefixOf(cb, s, j);
    CutAt(cb, s[j]);
    assert l'.files[j].offset == Next(true, cb, s[..j]) && s[j] > 0;
    assert |Cut(cb, s[j])| > 0 by {
      assert cb * |Cut(cb, s[j])| > 0;
    }
    if Ok(l') {
      MisplacedLow(l, l', j);
      MisplacedHigh(l, l', j);
    }
  }

  ghost predicate Extends(l: Layout, l': Layout, j: nat) {
    && l.cb == l'.cb && Ok(l) && Ok(l') && j < |l'.files| && l'.files[j].size > 0 && l.files == l'.files[..j]
    && |l.sizes| < |l'.sizes| && l.sizes == l'.sizes[..|l.sizes|]
  }

  lemma {:induction false} MisplacedLow(l: Layout, l': Layout, j: nat)
    requires Extends(l, l', j)
    ensures l'.files[j].offset >= Start(l, |l.sizes|)
  {
    var p, o := |l.sizes|, l'.files[j].offset;
    if o < Start(l, p) {
      assert InFile(l', j, o);
      var i := PieceOf(l', j, o);
      StartsAbove(l', p, o);
      assert InPiece(l, i, o);
      var k := FileOf(l, i, o);
      assert false;
    }
  }

  lemma {:induction false} MisplacedHigh(l: Layout, l': Layout, j: nat)
    requires Extends(l, l', j)
    ensures l'.files[j].offset <= Start(l, |l.sizes|)
  {
    var p := |l.sizes|;
    var x := Start(l, p);
    assert InPiece(l', p, x);
    var k := FileOf(l', p, x);
    if k < j {
      assert InFile(l, k, x);
      var i := PieceOf(l, k, x);
      StartsApart(l, i, p);
      assert false;
    }
    assert k > j ==> l'.files[j].End() <= l'.files[k].offset;
  }

  // Exactly when pieces and files agree about the bytes of a Merkle torrent.
  lemma {:induction false} MerkleLayoutOkIff(cb: nat, s: seq<nat>)
    requires cb > 0
    ensures Ok(LayoutOf(true, cb, s)) <==> AllPlaced(cb, s)
  {
    if AllPlaced(cb, s) {
      PlacedIsOk(cb, s);
    } else {
      var j := FirstMisplaced(cb, s, |s|);
      MisplacedIsNotOk(cb, s, j);
    }
  }

  lemma {:induction false} FirstMisplaced(cb: nat, s: seq<nat>, n: nat) returns (j: nat)
    requires cb > 0 && n <= |s| && exists k :: 0 <= k < n && !Placed(cb, s, k)
    ensures j < n && !Placed(cb, s, j) && forall k :: 0 <= k < j ==> Placed(cb, s, k)
  {
    j := 0;
    while Placed(cb, s, j)
      invariant j < n && forall k :: 0 <= k < j ==> Placed(cb, s, k)
      decreases n - j
    {
      j := j + 1;
    }
  }

  // A piece length that is a power of two always does.
  lemma {:induction false} PowerOfTwoPlaces(cb: nat, s: seq<nat>)
    requires PowerOfTwo(cb)
    ensures Next(true, cb, s) == cb * |CutEach(cb, s)|
    decreases |s|
  {
    hide And, PowerOfTwo, Cut, Padding;
    if s != [] {
      var n := |s| - 1;
      PowerOfTwoPlaces(cb, s[..n]);
      var p, e := |CutEach(cb, s[..n])|, Next(true, cb, s[..n]) + s[n];
      CutAt(cb, s[n]);
      PaddingFits(cb, e);
      PaddedEnd(cb, p, s[n], |Cut(cb, s[n])|, Padding(true, cb, e));
    }
  }

  lemma PaddedEnd(cb: nat, p: nat, size: nat, c: nat, padding: nat)
    requires cb > 0 && padding < cb && size <= cb * c < size + cb && (cb * p + size + padding) % cb == 0
    ensures cb * p + size + padding == cb * (p + c)
  {
    assert cb * (p + c) == cb * p + cb * c;
    SameMultiple(cb, cb * p + size + padding, p + c);
  }

  lemma SameMultiple(cb: nat, x: nat, q: nat)
    requires cb > 0 && x % cb == 0 && cb * q - cb < x < cb * q + cb
    ensures x == cb * q
  {
    var d, m := x / cb - q, q - x / cb;
    assert x == cb * (x / cb);
    assert cb * d == x - cb * q;
    assert cb * m == cb * q - x;
    MulGrows(cb, d);
    MulGrows(cb, m);
  }

  lemma {:induction false} PowerOfTwoIsOk(cb: nat, s: seq<nat>)
    requires PowerOfTwo(cb)
    ensures Ok(LayoutOf(true, cb, s)) && Aligned(LayoutOf(true, cb, s)) && Bounded(LayoutOf(true, cb, s))
  {
    FilesInOrder(true, cb, s);
    PowerOfTwoPlaces(cb, s);
    forall j | 0 <= j < |s|
      ensures Placed(cb, s, j) && Files(true, cb, s)[j].offset % cb == 0
    {
      PowerOfTwoPlaces(cb, s[..j]);
      PrefixOf(cb, s, j);
      var q := |CutEach(cb, s[..j])|;
      ModUnique(cb * q, cb, q, 0);
    }
    PlacedIsOk(cb, s);
  }

  // With pieces of 24 KiB, the second of these files starts at 32 KiB, behind
  // the piece that should hold it.
  lemma {:induction false} OddPieceLengthFails(single: Entry)
    ensures var files := [Entry(8193, true, true), Entry(1, true, true)];
      Accepted(true, true, 24576, single, files, 0) && SizesOf(Parts(single, files)) == [8193, 1]
    ensures !Ok(LayoutOf(true, 24576, [8193, 1]))
  {
    OddFilesAccepted(single);
    hide Accepted, SizesOf, Parts;
    hide Cut, And, CutEach, Next, Placed, LayoutOf, Files, Ok;
    var s: seq<nat> := [8193, 1];
    var cb: nat := 24576;
    assert !Placed(cb, s, 1) by {
      NotPlaced(cb, s);
    }
    assert !AllPlaced(cb, s);
    MerkleLayoutOkIff(cb, s);
  }

  lemma OddFilesAccepted(single: Entry)
    ensures var files := [Entry(8193, true, true), Entry(1, true, true)];
      Accepted(true, true, 24576, single, files, 0) && SizesOf(Parts(single, files)) == [8193, 1]
  {
    var sizes := SizesOf([Entry(8193, true, true), Entry(1, true, true)]);
    assert sizes == [8193, 1] && sizes[1..] == [1] && Sum([1]) == 1 && Sum(sizes) == 8193 + Sum([1]);
  }

  lemma {:induction false} NotPlaced(cb: nat, s: seq<nat>)
    requires cb == 24576 && s == [8193, 1]
    ensures !Placed(cb, s, 1)
  {
    hide And;
    assert s[..1] == [8193] && [8193][..0] == [];
    assert PowerOfTwo(8192);
    AndExample(8192);
    OnePieceCut(cb, [8193]);
    assert Next(true, cb, []) == 0;
    assert Next(true, cb, [8193]) == 8193 + Padding(true, cb, 8193);
  }

  lemma {:induction false} AndExample(p: nat)
    requires PowerOfTwo(p)
    ensures And(0 - p - 1, 3 * p - 1) == 3 * p - 1
    decreases p
  {
    if p == 1 {
      assert And(-1, 1) == 1 + 2 * And(-1, 0);
    } else {
      var q := p / 2;
      AndExample(q);
      assert (0 - p - 1) / 2 == 0 - q - 1 && (3 * p - 1) / 2 == 3 * q - 1;
    }
  }

  lemma OnePieceCut(cb: nat, s: seq<nat>)
    requires |s| == 1 && 0 < s[0] <= cb
    ensures CutEach(cb, s) == [s[0]]
  {
    assert CutEach(cb, s) == [] + Cut(cb, s[0]) && Cut(cb, s[0]) == [s[0]] + Cut(cb, 0);
  }

  // Two files of one byte with pieces of 16 KiB: the second is in the second piece.
  lemma TwoSmallFiles()
    ensures LayoutOf(true, 16384, [1, 1]) == Layout(16384, [1, 1], [Extent(0, 1), Extent(16384, 1)])
  {
    hide And, PowerOfTwo;
    var s: seq<nat> := [1, 1];
    assert s[..1] == [1] && [1][..0] == [];
    OnePieceCut(16384, [1]);
    assert Cut(16384, 1) == [1] + Cut(16384, 0);
    assert PowerOfTwo(16384) by {
      SixteenKilo();
    }
    MaskIsMod(-1, 16384);
    assert Next(true, 16384, []) == 0 && Files(true, 16384, []) == [];
    assert Next(true, 16384, [1]) == 16384 && Files(true, 16384, [1]) == [Extent(0, 1)];
  }

  // One file of 32 KiB with pieces of 16 KiB.
  lemma TwoSmallPieces()
    ensures LayoutOf(true, 16384, [32768]) == Layout(16384, [16384, 16384], [Extent(0, 32768)])
  {
    var s: seq<nat> := [32768];
    SingleFile(true, 16384, s);
    assert CutEach(16384, s[..0]) == [] && CutEach(16384, s) == [] + Cut(16384, 32768);
    assert Cut(16384, 32768) == [16384] + Cut(16384, 16384) && Cut(16384, 16384) == [16384] + Cut(16384, 0);
  }

  lemma SixteenKilo()
    ensures PowerOfTwo(16384)
  {
    assert PowerOfTwo(128);
  }

  // ----- reading the metadata -----

  predicate Fine(e: Entry) {
    e.named && e.size >= 0
  }

  predicate AllFine(entries: seq<Entry>) {
    forall j :: 0 <= j < |entries| ==> Fine(entries[j])
  }

  predicate Accepted(named: bool, merkle: bool, cb: int, single: Entry, entries: seq<Entry>, cbHashes: nat) {
    && named && 16384 <= cb <= 16777216
    && AllFine(entries)
    && (var s := Parts(single, entries);
        && (forall j :: 0 <= j < |s| ==> s[j].size >= 0)
        && Sum(SizesOf(s)) >= 1
        && (if merkle then forall j :: 0 <= j < |s| ==> s[j].hashed
            else cbHashes == 20 * ((Sum(SizesOf(s)) + cb - 1) / cb)))
  }

  // Without a list of files the torrent is one file.
  function Parts(single: Entry, entries: seq<Entry>): seq<Entry> {
    if entries == [] then [single] else entries
  }

  function SizesOf(s: seq<Entry>): (r: seq<nat>)
    ensures |r| == |s| && forall j :: 0 <= j < |s| ==> r[j] == Max(0, s[j].size)
  {
    seq(|s|, j requires 0 <= j < |s| => Max(0, s[j].size))
  }

  function Total(entries: seq<Entry>): int {
    if entries == [] then 0 else entries[0].size + Total(entries[1..])
  }

  lemma {:induction false} TotalIsSum(entries: seq<Entry>)
    requires forall j :: 0 <= j < |entries| ==> entries[j].size >= 0
    ensures Total(entries) == Sum(SizesOf(entries))
  {
    if entries != [] {
      TotalIsSum(entries[1..]);
      assert SizesOf(entries)[1..] == SizesOf(entries[1..]);
    }
  }

  // What metadata must have: a name, a piece length from 16 KiB to 16 MiB, one file
  // or files with names and sizes, a byte at least, and 20 bytes of hash for every
  // file of a Merkle torrent, and for every piece of another.
  lemma {:induction false} AcceptedIff(named: bool, merkle: bool, cb: int, single: Entry, entries: seq<Entry>,
                                       cbHashes: nat)
    ensures Accepted(named, merkle, cb, single, entries, cbHashes) <==>
      && named && 0x4000 <= cb <= 0x100_0000
      && if entries == [] then
           && single.size >= 1
           && if merkle then single.hashed else cbHashes == 20 * ((single.size + cb - 1) / cb)
         else
           && (forall j :: 0 <= j < |entries| ==> entries[j].named && entries[j].size >= 0) && Total(entries) >= 1
           && if merkle then forall j :: 0 <= j < |entries| ==> entries[j].hashed
              else cbHashes == 20 * ((Total(entries) + cb - 1) / cb)
  {
    if entries == [] {
      var s := SizesOf([single]);
      assert s == [Max(0, single.size)] && Sum(s) == s[0] + Sum(s[1..]) && s[1..] == [];
    } else if forall j :: 0 <= j < |entries| ==> entries[j].named && entries[j].size >= 0 {
      TotalIsSum(entries);
    }
  }

  lemma SingleFile(merkle: bool, cb: nat, s: seq<nat>)
    requires cb > 0 && |s| == 1
    ensures Sum(s) == s[0] && Files(merkle, cb, s) == [Extent(0, s[0])]
  {
    assert s[..0] == [];
  }

  // The sub-files and piece sizes of a torrent, or nothing if it is refused.
  method Info(named: bool, cb: int, single: Entry, entries: seq<Entry>, cbHashes: nat) returns (r: Option<Layout>)
    ensures r.Some? <==> Accepted(named, cbHashes == 0, cb, single, entries, cbHashes)
    ensures r.Some? ==> r.value == LayoutOf(cbHashes == 0, cb, SizesOf(Parts(single, entries)))
    ensures r.Some? && (cbHashes == 0 ==> PowerOfTwo(cb)) ==> Ok(r.value) && Bounded(r.value)
  {
    hide PowerOfTwo, And, Cut, CutEach, Ok, Files, Sum, Bounded;
    if !named {
      return None;
    }
    var merkle := cbHashes == 0;
    if cb < 16384 || cb > 16777216 {
      return None;
    }
    ghost var all := SizesOf(Parts(single, entries));
    var ok, size, files := ReadFiles(merkle, cb, entries);
    if !ok {
      return None;
    }
    if files == [] {
      size := single.size;
      SingleFile(merkle, cb, all);
      if size < 1 {
        return None;
      }
      files := [Extent(0, size)];
    }
    if size < 1 {
      return None;
    }
    assert files == Files(merkle, cb, all) && size == Sum(all);
    if merkle {
      var parts := Parts(single, entries);
      for i := 0 to |parts|
        invariant forall j :: 0 <= j < i ==> parts[j].hashed
      {
        if !parts[i].hashed {
          return None;
        }
      }
      var sizes := ResizeEach(cb, files, all);
      if PowerOfTwo(cb) {
        PowerOfTwoIsOk(cb, all);
      }
      return Some(Layout(cb, sizes, files));
    }
    if cbHashes != 20 * ((size + cb - 1) / cb) {
      return None;
    }
    var sizes := ResizePlain(cb, size);
    PlainIsOk(cb, all);
    return Some(Layout(cb, sizes, files));
  }

  // The first `i` files have been placed.
  ghost predicate Placing(merkle: bool, cb: nat, s: seq<nat>, i: nat, size: int, offset: nat, files: seq<Extent>)
    requires cb > 0
  {
    && i <= |s| && |files| == i && files == Files(merkle, cb, s[..i])
    && size == Sum(s[..i]) && offset == Next(merkle, cb, s[..i])
  }

  lemma PlacingStep(merkle: bool, cb: nat, s: seq<nat>, i: nat, size: int, offset: nat, files: seq<Extent>)
    requires cb > 0 && i < |s| && Placing(merkle, cb, s, i, size, offset, files)
    ensures var e := offset + s[i];
      Placing(merkle, cb, s, i + 1, size + s[i], e + Padding(merkle, cb, e), files + [Extent(offset, s[i])])
  {
    assert s[..i + 1][..i] == s[..i];
    SumPrefix(s, i);
  }

  method ReadFiles(merkle: bool, cb: nat, entries: seq<Entry>) returns (ok: bool, size: int, files: seq<Extent>)
    requires cb > 0
    ensures ok <==> AllFine(entries)
    ensures ok ==> |files| == |entries| && size == Sum(SizesOf(entries)) && files == Files(merkle, cb, SizesOf(entries))
  {
    ghost var all := SizesOf(entries);
    size, files := 0, [];
    var offset: nat := 0;
    assert all[..|all|] == all && Placing(merkle, cb, all, 0, size, offset, files);
    hide Padding, Placing, SizesOf, Sum, Files, Next, Fine;
    for i := 0 to |entries|
      invariant Placing(merkle, cb, all, i, size, offset, files)
      invariant forall j :: 0 <= j < i ==> Fine(entries[j])
    {
      if !Fine(entries[i]) {
        return false, size, files;
      }
      FineSize(entries, i);
      size, offset, files := PlaceFile(merkle, cb, entries[i].size, size, offset, files, all, i);
    }
    PlacingDone(merkle, cb, all, size, offset, files);
    ok := true;
  }

  lemma FineSize(entries: seq<Entry>, i: nat)
    requires i < |entries| && Fine(entries[i])
    ensures SizesOf(entries)[i] == entries[i].size
  {
  }

  // One file more, behind the others.
  method PlaceFile(merkle: bool, cb: nat, n: nat, size0: int, offset0: nat, files0: seq<Extent>, ghost all: seq<nat>,
                   ghost i: nat)
    returns (size: int, offset: nat, files: seq<Extent>)
    requires cb > 0 && i < |all| && all[i] == n && Placing(merkle, cb, all, i, size0, offset0, files0)
    ensures Placing(merkle, cb, all, i + 1, size, offset, files)
  {
    hide Padding, Placing, Sum, Files, Next;
    PlacingStep(merkle, cb, all, i, size0, offset0, files0);
    size := size0 + n;
    files := files0 + [Extent(offset0, n)];
    offset := PadOffset(merkle, cb, offset0 + n);
  }

  method PadOffset(merkle: bool, cb: nat, offset: nat) returns (r: nat)
    requires cb > 0
    ensures r == offset + Padding(merkle, cb, offset)
  {
    r := offset;
    if merkle {
      r := r + And(0 - offset, cb - 1);
    }
  }

  lemma PlacingDone(merkle: bool, cb: nat, s: seq<nat>, size: int, offset: nat, files: seq<Extent>)
    requires cb > 0 && Placing(merkle, cb, s, |s|, size, offset, files)
    ensures |files| == |s| && size == Sum(s) && files == Files(merkle, cb, s)
  {
    assert s[..|s|] == s;
  }

  method ResizePlain(cb: nat, size: nat) returns (sizes: seq<nat>)
    requires cb > 0
    ensures sizes == Cut(cb, size)
  {
    hide Cut;
    CutAt(cb, size);
    CutCount(cb, size);
    sizes := [];
    for i := 0 to (size + cb - 1) / cb
      invariant |sizes| == i && sizes == Cut(cb, size)[..i]
    {
      assert cb * i < size;
      sizes := sizes + [Min(size - cb * i, cb)];
    }
  }

  method ResizeEach(cb: nat, files: seq<Extent>, ghost all: seq<nat>) returns (sizes: seq<nat>)
    requires cb > 0 && |all| == |files| && forall j :: 0 <= j < |all| ==> all[j] == files[j].size
    ensures sizes == CutEach(cb, all)
  {
    sizes := [];
    for j := 0 to |files|
      invariant sizes == CutEach(cb, all[..j])
    {
      assert all[..j + 1][..j] == all[..j];
      var size: nat := files[j].size;
      ghost var done: seq<nat> := [];
      while size != 0
        invariant sizes == CutEach(cb, all[..j]) + done && Cut(cb, all[j]) == done + Cut(cb, size)
      {
        var m: nat := Min(size, cb);
        ConcatIsAssociative(CutEach(cb, all[..j]), done, [m]);
        ConcatIsAssociative(done, [m], Cut(cb, size - m));
        sizes := sizes + [m];
        done := done + [m];
        size := size - m;
      }
    }
    assert all[..|files|] == all;
  }
}
