// Who has which piece, and which piece to ask for next.
module Availability {
  import opened Arithmetic
  import opened StreamInt
  import P = Piece

  // ----- counting -----

  function Bit(bits: seq<bool>, i: nat): nat {
    if i < |bits| && bits[i] then 1 else 0
  }

  // How many of the links have piece `i`.
  function Count(bits: seq<seq<bool>>, i: nat): nat {
    if bits == [] then 0 else Count(bits[..|bits| - 1], i) + Bit(bits[|bits| - 1], i)
  }

  // The bytes a link with these pieces does not have.
  function Missing(sizes: seq<nat>, bits: seq<bool>): nat
    requires |sizes| == |bits|
  {
    if sizes == [] then 0
    else Missing(sizes[..|sizes| - 1], bits[..|bits| - 1]) + if bits[|bits| - 1] then 0 else sizes[|sizes| - 1]
  }

  lemma {:induction false} CountUpdate(bits: seq<seq<bool>>, k: nat, b: seq<bool>, i: nat)
    requires k < |bits|
    ensures Count(bits[k := b], i) == Count(bits, i) - Bit(bits[k], i) + Bit(b, i)
    decreases |bits|
  {
    var n := |bits| - 1;
    if k == n {
      assert bits[k := b][..n] == bits[..n];
    } else {
      assert bits[k := b][..n] == bits[..n][k := b];
      CountUpdate(bits[..n], k, b, i);
    }
  }

  lemma {:induction false} CountRemove(bits: seq<seq<bool>>, k: nat, i: nat)
    requires k < |bits|
    ensures Count(bits[..k] + bits[k + 1..], i) == Count(bits, i) - Bit(bits[k], i)
    decreases |bits|
  {
    var n := |bits| - 1;
    if k == n {
      assert bits[..k] + bits[k + 1..] == bits[..n];
    } else {
      assert (bits[..k] + bits[k + 1..])[..n - 1] == bits[..n][..k] + bits[..n][k + 1..];
      CountRemove(bits[..n], k, i);
    }
  }

  lemma {:induction false} MissingUpdate(sizes: seq<nat>, bits: seq<bool>, i: nat)
    requires |sizes| == |bits| && i < |bits| && !bits[i]
    ensures Missing(sizes, bits[i := true]) == Missing(sizes, bits) - sizes[i]
    decreases |bits|
  {
    var n := |bits| - 1;
    if i == n {
      assert bits[i := true][..n] == bits[..n];
    } else {
      assert bits[i := true][..n] == bits[..n][i := true];
      MissingUpdate(sizes[..n], bits[..n], i);
    }
  }

  lemma {:induction false} MissingAll(sizes: seq<nat>, bits: seq<bool>)
    requires |sizes| == |bits| && forall i :: 0 <= i < |bits| ==> !bits[i]
    ensures Missing(sizes, bits) == Sum(sizes)
    decreases |bits|
  {
    if bits != [] {
      MissingAll(sizes[..|sizes| - 1], bits[..|bits| - 1]);
      SumPrefix(sizes, |sizes| - 1);
      assert sizes[..|sizes|] == sizes;
    }
  }

  // ----- bit fields -----

  function Mask(j: nat): nat
    requires j < 8
  {
    if j == 0 then 128 else if j == 1 then 64 else if j == 2 then 32 else if j == 3 then 16
    else if j == 4 then 8 else if j == 5 then 4 else if j == 6 then 2 else 1
  }

  // The `i`th bit of a bit field, highest bits first.
  predicate FieldBit(s: Bytes, i: nat) {
    i / 8 < |s| && (s[i / 8] / Mask(i % 8)) % 2 == 1
  }

  lemma MaskIsPower(j: nat)
    requires j < 8
    ensures Mask(j) == Pow2(7 - j)
  {
    assert Pow2(0) == 1 && Pow2(1) == 2 && Pow2(2) == 4 && Pow2(3) == 8;
    assert Pow2(4) == 16 && Pow2(5) == 32 && Pow2(6) == 64 && Pow2(7) == 128;
  }

  // Cutting off low bits, from a byte or from what is above it.
  lemma {:induction false} BitOfSum(a: nat, b: Byte, k: nat)
    ensures k < 8 ==> (256 * a + b) / Pow2(k) % 2 == b / Pow2(k) % 2
    ensures k >= 8 ==> (256 * a + b) / Pow2(k) == a / Pow2(k - 8)
  {
    if k < 8 {
      PowersMultiply(k, 7 - k);
      MaskIsPower(0);
      LowBit(a, b, Pow2(k), Pow2(7 - k));
    } else {
      PowersMultiply(8, k - 8);
      MaskIsPower(0);
      HighBit(a, b, Pow2(k - 8));
    }
  }

  lemma LowBit(a: nat, b: Byte, p: nat, q: nat)
    requires p * q == 128 && p > 0
    ensures (256 * a + b) / p % 2 == b / p % 2
  {
    var c := q * a;
    Associate(p, q, a);
    hide *;
    LowDigit(p, c, b);
  }

  lemma Associate(p: nat, q: nat, a: nat)
    ensures p * (q * a) == (p * q) * a
  {
  }

  lemma LowDigit(p: nat, c: nat, b: nat)
    requires p > 0
    ensures (2 * (p * c) + b) / p % 2 == b / p % 2
  {
    var d := b / p;
    assert p * (2 * c + d) == 2 * (p * c) + p * d;
    ModUnique(2 * (p * c) + b, p, 2 * c + d, b % p);
  }

  lemma HighBit(a: nat, b: Byte, p: nat)
    requires p > 0
    ensures (256 * a + b) / (256 * p) == a / p
  {
    var q, r := a / p, a % p;
    assert a == p * q + r;
    assert (256 * p) * q == 256 * (p * q);
    ModUnique(256 * a + b, 256 * p, q, 256 * r + b);
  }

  lemma {:induction false} PowersMultiply(a: nat, b: nat)
    ensures Pow2(a) * Pow2(b) == Pow2(a + b)
  {
    if a > 0 {
      PowersMultiply(a - 1, b);
    }
  }

  // A bit field is a big-endian number, highest bit first.
  lemma {:induction false} FieldIsBe(s: Bytes, i: nat)
    ensures FieldBit(s, i) <==> i < 8 * |s| && FromBe(s) / Pow2(8 * |s| - 1 - i) % 2 == 1
    decreases |s|
  {
    var n := |s| - 1;
    if i < 8 * |s| {
      BitOfSum(FromBe(s[..n]), s[n], 8 * |s| - 1 - i);
      if i < 8 * n {
        FieldIsBe(s[..n], i);
      } else {
        MaskIsPower(i - 8 * n);
      }
    }
  }

  // ----- requests -----

  // The piece and the sub-piece that byte `o` is in.
  function PieceOf(cb: nat, o: nat): nat
    requires cb > 0
  {
    o / cb
  }

  function SubPieceOf(cb: nat, o: nat): nat
    requires cb > 0
  {
    o % cb / P.CB_SUB_PIECE
  }

  // Request `o` is for sub-piece `b` of piece `i`.
  predicate IsFor(cb: nat, o: nat, i: nat, b: nat)
    requires cb > 0
  {
    o / cb == i && o % cb / P.CB_SUB_PIECE == b
  }

  predicate AskedFor(cb: nat, requests: seq<nat>, i: nat, b: nat)
    requires cb > 0
  {
    exists o <- requests :: IsFor(cb, o, i, b)
  }

  // The sub-pieces of piece `i` that were asked of `id` are in its list.
  predicate AllNamed(cb: nat, requests: seq<nat>, id: P.Peer, s: seq<P.SubPiece>, i: nat)
    requires cb > 0
  {
    forall b :: 0 <= b < |s| && id in s[b].peers ==> AskedFor(cb, requests, i, b)
  }

  // The sub-pieces `s` of piece `i` become `t` when the requests are given back.
  predicate GivenBack(cb: nat, requests: seq<nat>, id: P.Peer, valid: bool, s: seq<P.SubPiece>, t: seq<P.SubPiece>,
                      i: nat)
    requires cb > 0
  {
    |t| == |s| && forall b :: 0 <= b < |s| ==>
      t[b] == if !valid && id in s[b].peers && AskedFor(cb, requests, i, b) then P.SubPiece(false, map[]) else s[b]
  }

  // Nothing stays with a link that goes exactly if its list was complete.
  lemma {:induction false} NothingStaysIff(cb: nat, requests: seq<nat>, id: P.Peer, s: seq<P.SubPiece>,
                                           t: seq<P.SubPiece>, i: nat)
    requires cb > 0 && GivenBack(cb, requests, id, false, s, t, i)
    ensures (forall b :: 0 <= b < |t| ==> id !in t[b].peers) <==> AllNamed(cb, requests, id, s, i)
  {
    if b :| 0 <= b < |s| && id in s[b].peers && !AskedFor(cb, requests, i, b) {
      assert t[b] == s[b];
    }
  }

  lemma {:induction false} AskedForSnoc(cb: nat, requests: seq<nat>, o: nat, i: nat, b: nat)
    requires cb > 0
    ensures AskedFor(cb, requests + [o], i, b) <==> AskedFor(cb, requests, i, b) || IsFor(cb, o, i, b)
  {
    var all := requests + [o];
    assert all[|requests|] == o;
    if x :| x in requests && IsFor(cb, x, i, b) {
      assert x in all;
    }
  }

  // The sub-pieces `t` of piece `i` become `u` when one request is given back.
  predicate OneBack(cb: nat, o: nat, id: P.Peer, valid: bool, t: seq<P.SubPiece>, u: seq<P.SubPiece>, i: nat)
    requires cb > 0
  {
    var b := o % cb / P.CB_SUB_PIECE;
    if o / cb == i && !valid && b < |t| && id in t[b].peers then u == t[b := P.SubPiece(false, map[])] else u == t
  }

  // One more request is given back.
  lemma {:induction false} GivenBackSnoc(cb: nat, requests: seq<nat>, o: nat, id: P.Peer, valid: bool,
                                         s: seq<P.SubPiece>, t: seq<P.SubPiece>, u: seq<P.SubPiece>, i: nat)
    requires cb > 0 && GivenBack(cb, requests, id, valid, s, t, i) && OneBack(cb, o, id, valid, t, u, i)
    ensures GivenBack(cb, requests + [o], id, valid, s, u, i)
  {
    forall b | 0 <= b < |s|
      ensures u[b] ==
        if !valid && id in s[b].peers && AskedFor(cb, requests + [o], i, b) then P.SubPiece(false, map[]) else s[b]
    {
      AskedForSnoc(cb, requests, o, i, b);
    }
  }

  // Piece `i` after request `o`, for its sub-piece `b` or for another piece.
  lemma {:induction false} NamedMore(cb: nat, requests: seq<nat>, o: nat, id: P.Peer, s: seq<P.SubPiece>,
                                     t: seq<P.SubPiece>, i: nat, b: nat)
    requires cb > 0 && AllNamed(cb, requests, id, s, i)
    requires s == t || (IsFor(cb, o, i, b) && forall d :: 0 <= d < |t| && d != b ==>
      if s == [] then t[d].peers == map[] else d < |s| && t[d] == s[d])
    ensures AllNamed(cb, requests + [o], id, t, i)
  {
    forall d | 0 <= d < |t| && id in t[d].peers
      ensures AskedFor(cb, requests + [o], i, d)
    {
      AskedForSnoc(cb, requests, o, i, d);
    }
  }

  // The list without the first request for `o`.
  function Without(requests: seq<nat>, o: int): seq<nat> {
    if requests == [] then []
    else if requests[0] == o then requests[1..]
    else [requests[0]] + Without(requests[1..], o)
  }

  lemma {:induction false} WithoutAt(requests: seq<nat>, m: nat)
    requires m < |requests| && requests[m] !in requests[..m]
    ensures Without(requests, requests[m]) == requests[..m] + requests[m + 1..]
  {
    if m > 0 {
      assert requests[..m][0] == requests[0] && requests[1..][..m - 1] == requests[..m][1..];
      WithoutAt(requests[1..], m - 1);
    }
  }

  lemma {:induction false} WithoutNone(requests: seq<nat>, o: int)
    requires o !in requests
    ensures Without(requests, o) == requests
  {
    if requests != [] {
      WithoutNone(requests[1..], o);
    }
  }

  lemma {:induction false} WithoutKeeps(requests: seq<nat>, o: nat, x: nat)
    ensures x in Without(requests, o) ==> x in requests
    ensures x != o && x in requests ==> x in Without(requests, o)
  {
    if requests != [] && requests[0] != o {
      WithoutKeeps(requests[1..], o, x);
    }
  }

  // A list without a request for sub-piece `b` of piece `i` still names all others.
  lemma {:induction false} AskedWithout(cb: nat, requests: seq<nat>, o: nat, i: nat, b: nat)
    requires cb > 0
    ensures AskedFor(cb, Without(requests, o), i, b) ==> AskedFor(cb, requests, i, b)
    ensures !IsFor(cb, o, i, b) && AskedFor(cb, requests, i, b) ==> AskedFor(cb, Without(requests, o), i, b)
  {
    if x :| x in Without(requests, o) && IsFor(cb, x, i, b) {
      WithoutKeeps(requests, o, x);
    }
    if x :| x in requests && IsFor(cb, x, i, b) {
      WithoutKeeps(requests, o, x);
    }
  }

  lemma {:induction false} NamedElsewhere(cb: nat, requests: seq<nat>, o: nat, id: P.Peer, s: seq<P.SubPiece>, i: nat)
    requires cb > 0 && AllNamed(cb, requests, id, s, i) && o / cb != i
    ensures AllNamed(cb, Without(requests, o), id, s, i)
  {
    forall d | 0 <= d < |s| && id in s[d].peers
      ensures AskedFor(cb, Without(requests, o), i, d)
    {
      AskedWithout(cb, requests, o, i, d);
    }
  }

  // The sub-pieces of the piece whose request `o` is off the list. They are as
  // they were, or the one that was asked for has arrived.
  // All other sub-pieces are as they were, or none is left.
  predicate Kept(s: seq<P.SubPiece>, t: seq<P.SubPiece>, b: nat) {
    t == [] || (|t| == |s| && forall d :: 0 <= d < |t| && d != b ==> t[d] == s[d])
  }

  lemma NothingKeeps(s: seq<P.SubPiece>, b: nat)
    ensures Kept(s, s, b)
  {
  }

  lemma ArrivedKeeps(s: seq<P.SubPiece>, b: nat, t: seq<P.SubPiece>, valid: bool)
    requires Arrived(s, b, t, valid)
    ensures Kept(s, t, b) && (b < |t| ==> t[b].peers == map[])
  {
  }

  lemma {:induction false} NamedHere(cb: nat, requests: seq<nat>, o: nat, id: P.Peer, s: seq<P.SubPiece>,
                                     t: seq<P.SubPiece>, a: nat, b: nat)
    requires cb > 0 && AllNamed(cb, requests, id, s, a) && IsFor(cb, o, a, b)
    requires Kept(s, t, b)
    ensures AllNamed(cb, Without(requests, o), id, t, a) <==>
      (b < |t| && id in t[b].peers ==> AskedFor(cb, Without(requests, o), a, b))
  {
    assert forall d: nat :: d != b ==> !IsFor(cb, o, a, d);
    hide IsFor, AskedFor;
    forall d: nat | d < |t| && d != b && id in t[d].peers
      ensures AskedFor(cb, Without(requests, o), a, d)
    {
      AskedWithout(cb, requests, o, a, d);
    }
  }

  predicate PieceNamed(cb: nat, requests: seq<nat>, i: nat)
    requires cb > 0
  {
    exists o <- requests :: o / cb == i
  }

  // The sub-pieces `s` of piece `i` become `t` when the late ones are taken back.
  predicate Expired(cb: nat, requests: seq<nat>, id: P.Peer, timeOut: int, now: P.Time, s: seq<P.SubPiece>,
                    t: seq<P.SubPiece>, i: nat)
    requires cb > 0
  {
    |t| == |s| && forall b :: 0 <= b < |s| ==>
      t[b] == if PieceNamed(cb, requests, i) && P.Late(s[b], id, timeOut, now) then P.SubPiece(false, map[]) else s[b]
  }

  // The piece of one more request is looked at.
  lemma {:induction false} ExpiredSnoc(cb: nat, requests: seq<nat>, o: nat, id: P.Peer, timeOut: int, now: P.Time,
                                       s: seq<P.SubPiece>, t: seq<P.SubPiece>, u: seq<P.SubPiece>, i: nat)
    requires cb > 0 && Expired(cb, requests, id, timeOut, now, s, t, i) && |u| == |t|
    requires forall b :: 0 <= b < |t| ==>
      u[b] == if o / cb == i && P.Late(t[b], id, timeOut, now) then P.SubPiece(false, map[]) else t[b]
    ensures Expired(cb, requests + [o], id, timeOut, now, s, u, i)
  {
    PieceNamedSnoc(cb, requests, o, i);
  }

  lemma PieceNamedSnoc(cb: nat, requests: seq<nat>, o: nat, i: nat)
    requires cb > 0
    ensures PieceNamed(cb, requests + [o], i) <==> PieceNamed(cb, requests, i) || o / cb == i
  {
    var all := requests + [o];
    assert all[|requests|] == o && o in all;
    if x :| x in requests && x / cb == i {
      assert x in all;
    }
  }

  lemma {:induction false} NamedExpired(cb: nat, requests: seq<nat>, id: P.Peer, timeOut: int, now: P.Time,
                                        s: seq<P.SubPiece>, t: seq<P.SubPiece>, i: nat)
    requires cb > 0 && AllNamed(cb, requests, id, s, i) && Expired(cb, requests, id, timeOut, now, s, t, i)
    ensures AllNamed(cb, requests, id, t, i)
  {
  }

  // Sub-piece `b` arrives. With the last one the piece is valid, or starts again.
  predicate Arrived(s: seq<P.SubPiece>, b: nat, t: seq<P.SubPiece>, valid: bool) {
    if forall d :: 0 <= d < |s| && d != b ==> s[d].valid then t == []
    else b < |s| && t == s[b := P.SubPiece(true, map[])] && !valid
  }

  // Where sub-piece `b` of piece `a` starts.
  lemma RequestIsFor(cb: nat, a: nat, b: nat)
    requires cb > 0 && P.CB_SUB_PIECE * b < cb
    ensures IsFor(cb, cb * a + P.CB_SUB_PIECE * b, a, b)
  {
    ModUnique(cb * a + P.CB_SUB_PIECE * b, cb, a, P.CB_SUB_PIECE * b);
  }

  lemma SubPieceFits(size: nat, cb: nat, b: nat)
    requires b < (size + P.CB_SUB_PIECE - 1) / P.CB_SUB_PIECE && size <= cb
    ensures P.CB_SUB_PIECE * b < cb
  {
  }

  class Link {
    const id: P.Peer
    var pieces: seq<bool>
    var left: int
    var localInterested: bool
    var requests: seq<nat>

    constructor (id: P.Peer)
      ensures this.id == id && pieces == [] && left == 0 && !localInterested && requests == []
    {
      this.id, pieces, left, localInterested, requests := id, [], 0, false, [];
    }
  }

  class Swarm {
    const cb: nat
    const sizes: seq<nat>
    const pieces: seq<P.Piece>
    var links: seq<Link>
    var left: int
    var endMode: bool
    ghost var bits: seq<seq<bool>>

    ghost predicate PieceOk(i: nat)
      requires i < |pieces| == |sizes|
      reads this`bits, pieces
    {
      pieces[i].Counted() && pieces[i].size == sizes[i] && pieces[i].mcPeers == Count(bits, i)
    }

    // A link has no pieces yet, or any more, or a flag for every piece.
    ghost predicate LinkOk(k: nat)
      requires k < |links| == |bits|
      reads this`links, this`bits, links
    {
      && links[k].pieces == bits[k]
      && (bits[k] != [] ==> |bits[k]| == |sizes| && links[k].left == Missing(sizes, bits[k]))
      && RequestsOk(links[k].requests)
    }

    // Requests are for bytes of pieces.
    predicate RequestsOk(requests: seq<nat>) {
      cb > 0 && forall o <- requests :: o / cb < |sizes|
    }

    ghost predicate Valid()
      reads this, pieces, links
    {
      && |pieces| == |sizes| && |bits| == |links| && cb > 0 && (forall i :: 0 <= i < |sizes| ==> sizes[i] <= cb)
      && (forall i, k :: 0 <= i < k < |pieces| ==> pieces[i] != pieces[k])
      && (forall i, k :: 0 <= i < k < |links| ==> links[i] != links[k])
      && (forall i :: 0 <= i < |pieces| ==> PieceOk(i))
      && (forall k :: 0 <= k < |links| ==> LinkOk(k))
    }

    constructor (cb: nat, sizes: seq<nat>, pieces: seq<P.Piece>)
      requires |pieces| == |sizes| && cb > 0 && forall i :: 0 <= i < |sizes| ==> sizes[i] <= cb
      requires forall i, k :: 0 <= i < k < |pieces| ==> pieces[i] != pieces[k]
      requires forall i :: 0 <= i < |pieces| ==> pieces[i].New(sizes[i])
      ensures Valid() && this.cb == cb && this.sizes == sizes && this.pieces == pieces
      ensures links == [] && left == -1 && !endMode
    {
      this.cb, this.sizes, this.pieces, links, left, endMode, bits := cb, sizes, pieces, [], -1, false, [];
    }

    // A link comes up: nothing is known of its pieces.
    method Connect(c: Link)
      requires Valid() && c !in links && c.requests == []
      modifies this`links, this`bits, c`pieces, c`left
      ensures Valid() && links == old(links) + [c]
      ensures bits == old(bits) + [seq(|sizes|, _ => false)]
    {
      var none := seq(|sizes|, _ => false);
      c.pieces := none;
      c.left := 0;
      for i := 0 to |sizes|
        invariant c.left == Sum(sizes[..i])
        modifies c`left
      {
        SumPrefix(sizes, i);
        c.left := c.left + sizes[i];
      }
      assert sizes[..|sizes|] == sizes;
      MissingAll(sizes, none);
      links, bits := links + [c], bits + [none];
      forall i | 0 <= i < |pieces|
        ensures PieceOk(i)
      {
        assert old(PieceOk(i));
        assert bits[..|bits| - 1] == old(bits);
      }
      forall k | 0 <= k < |links|
        ensures LinkOk(k)
      {
        assert k < |links| - 1 ==> old(LinkOk(k));
      }
    }

    // What there is of the pieces, and what has been asked for.
    ghost function Work(): seq<(bool, int, seq<P.SubPiece>)>
      reads pieces
    {
      seq(|pieces|, i requires 0 <= i < |pieces| reads pieces =>
        (pieces[i].valid, pieces[i].unrequested, pieces[i].subPieces))
    }

    // Link `k` has piece `v`.
    method RemoteHas(k: nat, v: nat)
      requires Valid() && k < |links| == |bits| && |bits[k]| == |sizes|
      modifies this`bits, links[k], pieces
      ensures Valid() && bits == old(bits)[k := if v < |sizes| then old(bits)[k][v := true] else old(bits)[k]]
      ensures links[k].localInterested ==
        (old(links[k].localInterested) || (v < |sizes| && !old(bits)[k][v] && !pieces[v].valid))
      ensures links[k].requests == old(links[k].requests) && Work() == old(Work())
    {
      hide Count, Missing, P.Unfinished, P.Unrequested;
      var c := links[k];
      assert LinkOk(k);
      if v < |pieces| && !c.pieces[v] {
        assert PieceOk(v);
        ghost var was := bits;
        pieces[v].mcPeers := pieces[v].mcPeers + 1;
        c.left := c.left - pieces[v].size;
        c.pieces := c.pieces[v := true];
        if !c.localInterested && !pieces[v].valid {
          c.localInterested := true;
        }
        bits := bits[k := c.pieces];
        MissingUpdate(sizes, was[k], v);
        forall i | 0 <= i < |pieces|
          ensures PieceOk(i)
        {
          assert old(PieceOk(i));
          CountUpdate(was, k, c.pieces, i);
          assert i != v ==> pieces[i] != pieces[v];
        }
        forall m | 0 <= m < |links|
          ensures LinkOk(m)
        {
          assert old(LinkOk(m));
          assert m != k ==> links[m] != c;
        }
      } else {
        assert v < |sizes| ==> bits[k][v := true] == bits[k];
      }
    }

    // A whole bit field at once; bits behind the last piece are ignored.
    method Bitfield(k: nat, s: Bytes)
      requires Valid() && k < |links| == |bits| && |bits[k]| == |sizes|
      modifies this`bits, links[k], pieces
      ensures Valid() && |bits| == |old(bits)| && (forall m :: 0 <= m < |bits| && m != k ==> bits[m] == old(bits)[m])
      ensures |bits[k]| == |sizes|
      ensures forall i :: 0 <= i < |sizes| ==> (bits[k][i] <==> old(bits)[k][i] || FieldBit(s, i))
      ensures links[k].requests == old(links[k].requests) && Work() == old(Work())
    {
      assert LinkOk(k);
      var i := 0;
      while i < 8 * |s|
        invariant i <= 8 * |s| && Valid()
        invariant |bits| == |old(bits)| && (forall m :: 0 <= m < |bits| && m != k ==> bits[m] == old(bits)[m])
        invariant |bits[k]| == |sizes| && links[k].requests == old(links[k].requests) && Work() == old(Work())
        invariant forall v :: 0 <= v < |sizes| ==> (bits[k][v] <==> old(bits)[k][v] || (v < i && FieldBit(s, v)))
      {
        if (s[i / 8] / Mask(i % 8)) % 2 == 1 {
          RemoteHas(k, i);
          assert LinkOk(k);
        }
        i := i + 1;
      }
    }

    // One request is given back.
    method Erase(id: P.Peer, o: nat)
      requires Valid() && o / cb < |pieces|
      modifies pieces
      ensures Valid() && forall i :: 0 <= i < |pieces| ==> pieces[i].valid == old(pieces[i].valid)
      ensures forall i :: 0 <= i < |pieces| ==>
        OneBack(cb, o, id, pieces[i].valid, old(pieces[i].subPieces), pieces[i].subPieces, i)
    {
      hide Count, Missing, P.Unfinished, P.Unrequested;
      var a := o / cb;
      assert PieceOk(a);
      pieces[a].ErasePeer(id, o % cb);
      forall i | 0 <= i < |pieces|
        ensures PieceOk(i) && pieces[i].valid == old(pieces[i].valid)
        ensures OneBack(cb, o, id, pieces[i].valid, old(pieces[i].subPieces), pieces[i].subPieces, i)
      {
        assert old(PieceOk(i));
        assert i != a ==> pieces[i] != pieces[a];
      }
      assert forall m :: 0 <= m < |links| ==> old(LinkOk(m));
    }

    // The list of a link has everything that was asked of it.
    ghost predicate Named(c: Link)
      requires cb > 0
      reads c, pieces
    {
      forall i :: 0 <= i < |pieces| ==> AllNamed(cb, c.requests, c.id, pieces[i].subPieces, i)
    }

    // Asks a link for the next free sub-piece of piece `a`, if there is one.
    method Ask(c: Link, a: nat, now: P.Time) returns (b: int)
      requires Valid() && c in links && a < |pieces|
      modifies c`requests, pieces[a]
      ensures Valid() && pieces[a].valid == old(pieces[a].valid)
      ensures old(pieces[a].unrequested) == 0 ==>
        b == -1 && c.requests == old(c.requests) && pieces[a].subPieces == old(pieces[a].subPieces)
      ensures old(pieces[a].unrequested) != 0 ==>
        && 0 <= b < |old(pieces[a].Allocated())| && P.Free(old(pieces[a].Allocated())[b])
        && c.requests == old(c.requests) + [cb * a + P.CB_SUB_PIECE * b]
        && pieces[a].subPieces == old(pieces[a].Allocated())[b := P.SubPiece(false, map[c.id := now])]
      ensures old(Named(c)) ==> Named(c)
    {
      hide Count, Missing, P.Unfinished, P.Unrequested, AllNamed;
      assert PieceOk(a);
      ghost var s := pieces[a].Allocated();
      b := pieces[a].NextInvalidSubPiece(c.id, now);
      if b != -1 {
        SubPieceFits(pieces[a].size, cb, b);
        RequestIsFor(cb, a, b);
        c.requests := c.requests + [cb * a + P.CB_SUB_PIECE * b];
      }
      forall i | 0 <= i < |pieces|
        ensures PieceOk(i)
      {
        assert old(PieceOk(i));
        assert i != a ==> pieces[i] != pieces[a];
      }
      forall m | 0 <= m < |links|
        ensures LinkOk(m)
      {
        assert old(LinkOk(m));
      }
      if old(Named(c)) && b != -1 {
        forall i | 0 <= i < |pieces|
          ensures AllNamed(cb, c.requests, c.id, pieces[i].subPieces, i)
        {
          assert old(AllNamed(cb, c.requests, c.id, pieces[i].subPieces, i));
          assert i != a ==> pieces[i] != pieces[a];
          NamedMore(cb, old(c.requests), cb * a + P.CB_SUB_PIECE * b, c.id, old(pieces[i].subPieces),
            pieces[i].subPieces, i, b);
        }
      }
    }

    // Whether the chunk is taken.
    ghost predicate Takes(o: int, n: nat)
      requires cb > 0
      reads pieces
    {
      0 <= o / cb < |pieces| && pieces[o / cb].Accepts(o % cb, n)
    }

    // Nothing is asked of `id` there, or the list names it once more.
    ghost predicate StillNamed(requests: seq<nat>, id: P.Peer, o: nat)
      requires cb > 0
      reads pieces
    {
      var a, b := PieceOf(cb, o), SubPieceOf(cb, o);
      a < |pieces| && b < |pieces[a].subPieces| && id in pieces[a].subPieces[b].peers ==> AskedFor(cb, requests, a, b)
    }

    // A chunk of `n` bytes for byte `o` is taken, or not; a piece that is complete
    // is checked.
    method TakeChunk(o: nat, n: nat)
      requires Valid() && o / cb < |pieces|
      modifies this`left, pieces[o / cb]
      ensures Valid()
      ensures !old(Takes(o, n)) ==> left == old(left) && pieces[o / cb].valid == old(pieces[o / cb].valid)
      ensures old(Takes(o, n)) ==> left == old(left) - if pieces[o / cb].valid then pieces[o / cb].size else 0
      ensures !old(Takes(o, n)) ==> pieces[o / cb].subPieces == old(pieces[o / cb].subPieces)
      ensures old(Takes(o, n)) ==>
        Arrived(old(pieces[o / cb].subPieces), SubPieceOf(cb, o), pieces[o / cb].subPieces, pieces[o / cb].valid)
    {
      hide Count, Missing, P.Unfinished, P.Unrequested;
      var a := o / cb;
      var p := pieces[a];
      assert PieceOk(a);
      var code := p.Write(o % cb, n);
      if code == 0 && p.left == 0 {
        var good: bool := *;
        p.SetValid(good);
        left := left - if good then p.size else 0;
      }
      forall i | 0 <= i < |pieces|
        ensures PieceOk(i)
      {
        assert old(PieceOk(i));
        assert i != a ==> pieces[i] != pieces[a];
      }
      forall m | 0 <= m < |links|
        ensures LinkOk(m)
      {
        assert old(LinkOk(m));
      }
    }

    // A chunk of `n` bytes arrives for byte `o`. Its request comes off the list
    // first; then the chunk may be refused.
    method ReadPiece(c: Link, o: int, n: nat) returns (code: int)
      requires Valid() && c in links
      modifies c`requests, this`left, pieces
      ensures Valid() && code == (if o in old(c.requests) then 0 else 1) && c.requests == Without(old(c.requests), o)
      ensures forall i :: 0 <= i < |pieces| && i != o / cb ==>
        pieces[i].valid == old(pieces[i].valid) && pieces[i].subPieces == old(pieces[i].subPieces)
      ensures code == 1 || !old(Takes(o, n)) ==> left == old(left) && forall i :: 0 <= i < |pieces| ==>
        pieces[i].valid == old(pieces[i].valid) && pieces[i].subPieces == old(pieces[i].subPieces)
      ensures code == 0 ==> 0 <= o / cb < |pieces|
      ensures code == 0 && old(Takes(o, n)) ==> left == old(left) - if pieces[o / cb].valid then sizes[o / cb] else 0
      ensures code == 0 && old(Takes(o, n)) ==>
        Arrived(old(pieces[o / cb].subPieces), SubPieceOf(cb, o), pieces[o / cb].subPieces, pieces[o / cb].valid)
      ensures old(Named(c)) ==>
        (Named(c) <==> code == 1 || old(Takes(o, n)) || old(StillNamed(Without(c.requests, o), c.id, o)))
    {
      hide Count, Missing, P.Unfinished, P.Unrequested, AllNamed, AskedFor, Arrived, Kept, SubPieceOf, P.Piece.Accepts;
      ghost var requests := c.requests;
      ghost var was := Work();
      var found := TakeOff(c, o);
      if !found {
        WithoutNone(requests, o);
        return 1;
      }
      code := 0;
      TakeChunk(o, n);
      assert PieceOk(o / cb);
      ghost var s, t := old(pieces[PieceOf(cb, o)].subPieces), pieces[PieceOf(cb, o)].subPieces;
      if old(Takes(o, n)) {
        ArrivedKeeps(s, SubPieceOf(cb, o), t, pieces[PieceOf(cb, o)].valid);
      } else {
        NothingKeeps(t, SubPieceOf(cb, o));
      }
      if old(Named(c)) {
        NamedAfter(c, requests, o, was);
      }
    }

    // The request for byte `o` comes off the list.
    method TakeOff(c: Link, o: int) returns (found: bool)
      requires Valid() && c in links
      modifies c`requests
      ensures Valid() && found == (o in old(c.requests)) && c.requests == Without(old(c.requests), o)
      ensures found ==> 0 <= o && o / cb < |pieces|
    {
      var m := 0;
      while m < |c.requests| && c.requests[m] != o
        invariant 0 <= m <= |c.requests| && o !in c.requests[..m]
      {
        m := m + 1;
      }
      found := m < |c.requests|;
      if found {
        ListOk(c);
        assert c.requests[m] in c.requests;
        WithoutAt(c.requests, m);
        c.requests := c.requests[..m] + c.requests[m + 1..];
        forall x | x in c.requests
          ensures x / cb < |sizes|
        {
          WithoutKeeps(old(c.requests), o, x);
        }
        assert forall i :: 0 <= i < |pieces| ==> old(PieceOk(i));
        forall i | 0 <= i < |links|
          ensures LinkOk(i)
        {
          assert old(LinkOk(i));
        }
      } else {
        assert c.requests[..m] == c.requests;
        WithoutNone(c.requests, o);
      }
    }

    // Whether the list is complete once its request `o` is off it.
    lemma NamedAfter(c: Link, requests: seq<nat>, o: nat, was: seq<(bool, int, seq<P.SubPiece>)>)
      requires cb > 0 && c.requests == Without(requests, o) && |was| == |pieces|
      requires forall i :: 0 <= i < |pieces| ==> AllNamed(cb, requests, c.id, was[i].2, i)
      requires forall i :: 0 <= i < |pieces| && i != PieceOf(cb, o) ==> pieces[i].subPieces == was[i].2
      requires PieceOf(cb, o) < |pieces|
      requires Kept(was[PieceOf(cb, o)].2, pieces[PieceOf(cb, o)].subPieces, SubPieceOf(cb, o))
      ensures Named(c) <==> StillNamed(c.requests, c.id, o)
    {
      var a, b := PieceOf(cb, o), SubPieceOf(cb, o);
      assert IsFor(cb, o, a, b);
      forall i | 0 <= i < |pieces| && i != a
        ensures AllNamed(cb, c.requests, c.id, pieces[i].subPieces, i)
      {
        NamedElsewhere(cb, requests, o, c.id, pieces[i].subPieces, i);
      }
      hide AllNamed, AskedFor, IsFor;
      NamedHere(cb, requests, o, c.id, was[a].2, pieces[a].subPieces, a, b);
    }

    lemma ListOk(c: Link)
      requires Valid() && c in links
      ensures RequestsOk(c.requests)
    {
      var k :| 0 <= k < |links| && links[k] == c;
      assert LinkOk(k);
    }

    // check_pieces: what a link has not delivered in time can be asked of others,
    // in the pieces that its list still names.
    method CheckPieces(c: Link, timeOut: int, now: P.Time)
      requires Valid() && c in links
      modifies pieces
      ensures Valid() && forall i :: 0 <= i < |pieces| ==> pieces[i].valid == old(pieces[i].valid)
      ensures forall i :: 0 <= i < |pieces| ==>
        Expired(cb, c.requests, c.id, timeOut, now, old(pieces[i].subPieces), pieces[i].subPieces, i)
      ensures old(Named(c)) ==> Named(c)
    {
      ListOk(c);
      for m := 0 to |c.requests|
        invariant Valid() && forall i :: 0 <= i < |pieces| ==> pieces[i].valid == old(pieces[i].valid)
        invariant forall i :: 0 <= i < |pieces| ==>
          Expired(cb, c.requests[..m], c.id, timeOut, now, old(pieces[i].subPieces), pieces[i].subPieces, i)
      {
        assert c.requests[m] in c.requests;
        label Before:
        CheckPiece(c.id, c.requests[m] / cb, timeOut, now);
        assert c.requests[..m + 1] == c.requests[..m] + [c.requests[m]];
        forall i | 0 <= i < |pieces|
          ensures Expired(cb, c.requests[..m + 1], c.id, timeOut, now, old(pieces[i].subPieces), pieces[i].subPieces, i)
        {
          ExpiredSnoc(cb, c.requests[..m], c.requests[m], c.id, timeOut, now, old(pieces[i].subPieces),
            old@Before(pieces[i].subPieces), pieces[i].subPieces, i);
        }
      }
      assert c.requests[..|c.requests|] == c.requests;
      if old(Named(c)) {
        forall i | 0 <= i < |pieces|
          ensures AllNamed(cb, c.requests, c.id, pieces[i].subPieces, i)
        {
          assert old(AllNamed(cb, c.requests, c.id, pieces[i].subPieces, i));
          NamedExpired(cb, c.requests, c.id, timeOut, now, old(pieces[i].subPieces), pieces[i].subPieces, i);
        }
      }
    }

    method CheckPiece(id: P.Peer, a: nat, timeOut: int, now: P.Time)
      requires Valid() && a < |pieces|
      modifies pieces
      ensures Valid() && forall i :: 0 <= i < |pieces| ==>
        pieces[i].valid == old(pieces[i].valid) && |pieces[i].subPieces| == |old(pieces[i].subPieces)|
      ensures forall i, b :: 0 <= i < |pieces| && 0 <= b < |pieces[i].subPieces| ==>
        pieces[i].subPieces[b] ==
          if a == i && P.Late(old(pieces[i].subPieces)[b], id, timeOut, now) then P.SubPiece(false, map[])
          else old(pieces[i].subPieces)[b]
    {
      hide Count, Missing, P.Unfinished, P.Unrequested;
      assert PieceOk(a);
      var found := pieces[a].CheckPeer(id, timeOut, now);
      forall i | 0 <= i < |pieces|
        ensures PieceOk(i) && (i != a ==> pieces[i] != pieces[a])
      {
        assert old(PieceOk(i));
      }
      forall m | 0 <= m < |links|
        ensures LinkOk(m)
      {
        assert old(LinkOk(m));
      }
    }

    // What becomes of piece `i` when requests are given back.
    predicate Returned(requests: seq<nat>, id: P.Peer, was: bool, s: seq<P.SubPiece>, now: bool, t: seq<P.SubPiece>,
                       i: nat)
      requires cb > 0
    {
      now == was && GivenBack(cb, requests, id, was, s, t, i)
    }

    // clear_local_requests: what the link was asked for can be asked of others.
    method ClearRequests(c: Link)
      requires Valid() && c in links
      modifies c`requests, pieces
      ensures Valid() && c.requests == []
      ensures forall i :: 0 <= i < |pieces| ==> Returned(old(c.requests), c.id, old(pieces[i].valid),
        old(pieces[i].subPieces), pieces[i].valid, pieces[i].subPieces, i)
    {
      ghost var k :| 0 <= k < |links| && links[k] == c;
      assert LinkOk(k);
      for m := 0 to |c.requests|
        invariant Valid() && c.requests == old(c.requests) && RequestsOk(c.requests)
        invariant forall i :: 0 <= i < |pieces| ==> Returned(c.requests[..m], c.id, old(pieces[i].valid),
          old(pieces[i].subPieces), pieces[i].valid, pieces[i].subPieces, i)
        modifies pieces
      {
        assert c.requests[m] in c.requests;
        label Before:
        Erase(c.id, c.requests[m]);
        assert c.requests[..m + 1] == c.requests[..m] + [c.requests[m]];
        forall i | 0 <= i < |pieces|
          ensures Returned(c.requests[..m + 1], c.id, old(pieces[i].valid), old(pieces[i].subPieces), pieces[i].valid,
            pieces[i].subPieces, i)
        {
          GivenBackSnoc(cb, c.requests[..m], c.requests[m], c.id, pieces[i].valid, old(pieces[i].subPieces),
            old@Before(pieces[i].subPieces), pieces[i].subPieces, i);
        }
      }
      assert c.requests[..|c.requests|] == c.requests;
      c.requests := [];
      forall m | 0 <= m < |links|
        ensures LinkOk(m)
      {
        assert old(LinkOk(m));
      }
    }

    // A link goes down; closing it again changes nothing.
    method Close(k: nat)
      requires Valid() && k < |links|
      modifies this`bits, links[k], pieces
      ensures Valid() && bits == old(bits)[k := []] && links[k].requests == []
      ensures forall i :: 0 <= i < |pieces| ==> Returned(old(links[k].requests), links[k].id, old(pieces[i].valid),
        old(pieces[i].subPieces), pieces[i].valid, pieces[i].subPieces, i)
    {
      var c := links[k];
      ClearRequests(c);
      assert LinkOk(k);
      ghost var was := bits;
      DropBits(c.pieces, was);
      c.pieces := [];
      bits := bits[k := []];
      forall i | 0 <= i < |pieces|
        ensures PieceOk(i)
      {
        CountUpdate(was, k, [], i);
      }
      forall m | 0 <= m < |links|
        ensures LinkOk(m)
      {
        assert old(LinkOk(m));
        assert m != k ==> links[m] != c;
      }
    }

    method DropBits(b: seq<bool>, ghost was: seq<seq<bool>>)
      requires Valid() && bits == was && |b| <= |pieces|
      modifies pieces
      ensures forall p :: 0 <= p < |pieces| ==> pieces[p].Counted() && pieces[p].size == sizes[p]
      ensures forall p :: 0 <= p < |pieces| ==> pieces[p].mcPeers == Count(was, p) - Bit(b, p)
      ensures forall p :: 0 <= p < |pieces| ==>
        pieces[p].valid == old(pieces[p].valid) && pieces[p].subPieces == old(pieces[p].subPieces)
    {
      forall p | 0 <= p < |pieces|
        ensures pieces[p].Counted() && pieces[p].size == sizes[p] && pieces[p].mcPeers == Count(was, p)
      {
        assert PieceOk(p);
      }
      for i := 0 to |b|
        invariant forall p :: 0 <= p < |pieces| ==> pieces[p].Counted() && pieces[p].size == sizes[p]
        invariant forall p :: 0 <= p < |pieces| ==> pieces[p].mcPeers == Count(was, p) - if p < i then Bit(b, p) else 0
        invariant forall p :: 0 <= p < |pieces| ==>
          pieces[p].valid == old(pieces[p].valid) && pieces[p].subPieces == old(pieces[p].subPieces)
      {
        assert forall p :: 0 <= p < |pieces| && p != i ==> pieces[p] != pieces[i];
        pieces[i].mcPeers := pieces[i].mcPeers - if b[i] then 1 else 0;
      }
    }

    // A closed link is taken off the list.
    method Remove(k: nat)
      requires Valid() && k < |links| && links[k].pieces == []
      modifies this`links, this`bits
      ensures Valid() && links == old(links)[..k] + old(links)[k + 1..] && bits == old(bits)[..k] + old(bits)[k + 1..]
    {
      assert LinkOk(k);
      ghost var was := bits;
      links, bits := links[..k] + links[k + 1..], bits[..k] + bits[k + 1..];
      forall i | 0 <= i < |pieces|
        ensures PieceOk(i)
      {
        assert old(PieceOk(i));
        CountRemove(was, k, i);
      }
      forall m | 0 <= m < |links|
        ensures LinkOk(m)
      {
        assert old(LinkOk(if m < k then m else m + 1));
      }
    }

    // ----- choosing -----

    predicate Wanted(i: nat)
      requires i < |pieces|
      reads pieces
    {
      !pieces[i].valid && pieces[i].priority != -10 && pieces[i].unrequested != 0
    }

    predicate Eligible(c: Link, i: nat)
      requires i < |pieces| == |c.pieces|
      reads pieces, c
    {
      Wanted(i) && c.pieces[i]
    }

    ghost predicate Best(c: Link, r: nat)
      requires |pieces| == |c.pieces|
      reads pieces, c
    {
      r < |pieces| && Eligible(c, r) &&
      forall i :: 0 <= i < |pieces| && Eligible(c, i) ==> !P.Before(pieces[i].RankKey(), pieces[r].RankKey())
    }

    // A piece that the link has and that no other such piece comes before.
    method NextInvalidPiece(c: Link) returns (r: int)
      requires Valid() && c in links
      modifies this`endMode
      ensures Valid()
      ensures r == -1 <==> left == 0 || |c.pieces| != |pieces| || forall i :: 0 <= i < |pieces| ==> !Eligible(c, i)
      ensures r != -1 ==> 0 <= r && Best(c, r)
      ensures r != -1 ==> forall i :: 0 <= i < |pieces| && Eligible(c, i) ==> P.Preferred(pieces[r], pieces[i])
      ensures endMode ==
        (old(endMode) || (left != 0 && |c.pieces| == |pieces| && forall i :: 0 <= i < |pieces| ==> !Wanted(i)))
    {
      if left == 0 || |c.pieces| != |pieces| {
        return -1;
      }
      var found, rank, cUnrequested := Scan(c);
      if !endMode && cUnrequested == 0 {
        endMode := true;
      }
      assert Valid();
      if found == [] {
        return -1;
      }
      var m :| 0 <= m < |found|;
      RankDecides(c, found[m]);
      r := found[m];
      forall i | 0 <= i < |pieces| && Eligible(c, i)
        ensures P.Preferred(pieces[r], pieces[i])
      {
        P.KeyPrefers(pieces[r], pieces[i]);
      }
    }

    // The pieces of least rank, and the sub-pieces nobody has been asked for.
    method Scan(c: Link) returns (found: seq<nat>, rank: int, cUnrequested: int)
      requires Valid() && c in links && |c.pieces| == |pieces|
      ensures cUnrequested == 0 <==> forall k :: 0 <= k < |pieces| ==> !Wanted(k)
      ensures found == [] ==> forall k :: 0 <= k < |pieces| ==> !Eligible(c, k)
      ensures forall m :: 0 <= m < |found| ==>
        found[m] < |pieces| && Eligible(c, found[m]) && pieces[found[m]].Rank() == rank
      ensures forall k :: 0 <= k < |pieces| && Eligible(c, k) ==> rank <= pieces[k].Rank()
    {
      hide P.Piece.RankKey, P.Piece.Rank, Count, Missing;
      found, rank, cUnrequested := [], 0x7fffffff, 0;
      for i := 0 to |pieces|
        invariant cUnrequested >= 0 && (cUnrequested == 0 <==> forall k :: 0 <= k < i ==> !Wanted(k))
        invariant found == [] ==> rank == 0x7fffffff && forall k :: 0 <= k < i ==> !Eligible(c, k)
        invariant forall m :: 0 <= m < |found| ==>
          found[m] < i && Eligible(c, found[m]) && pieces[found[m]].Rank() == rank
        invariant forall k :: 0 <= k < i && Eligible(c, k) ==> rank <= pieces[k].Rank()
      {
        assert PieceOk(i);
        var p := pieces[i];
        if p.valid || p.priority == -10 || p.unrequested == 0 {
          continue;
        }
        P.CountersArePositive(p);
        cUnrequested := cUnrequested + p.unrequested;
        assert Wanted(i);
        if !c.pieces[i] {
          continue;
        }
        var pieceRank := p.Rank();
        P.KeyInRange(p);
        if pieceRank > rank {
          continue;
        }
        if pieceRank < rank {
          found := [];
        }
        rank := pieceRank;
        found := found + [i];
      }
    }

    lemma RankDecides(c: Link, r: nat)
      requires Valid() && |c.pieces| == |pieces| && r < |pieces| && Eligible(c, r)
      requires forall k :: 0 <= k < |pieces| && Eligible(c, k) ==> pieces[r].Rank() <= pieces[k].Rank()
      ensures Best(c, r)
    {
      forall i | 0 <= i < |pieces| && Eligible(c, i)
        ensures !P.Before(pieces[i].RankKey(), pieces[r].RankKey())
      {
        assert PieceOk(i) && PieceOk(r);
        P.KeyInRange(pieces[i]);
        P.KeyInRange(pieces[r]);
        P.RankIsLexicographic(pieces[i].RankKey(), pieces[r].RankKey());
      }
    }
  }
}
