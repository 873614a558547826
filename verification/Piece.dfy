// A piece being downloaded: which of its 16 KiB sub-pieces have arrived, and
// which have been asked for.
module Piece {
  import opened Arithmetic

  const CB_SUB_PIECE := 16 * 1024

  type Peer = nat
  type Time = int

  datatype SubPiece = SubPiece(valid: bool, peers: map<Peer, Time>)

  // ----- counting -----

  function Unfinished(s: seq<SubPiece>): (n: nat)
    ensures n <= |s|
  {
    if s == [] then 0 else Unfinished(s[..|s| - 1]) + if s[|s| - 1].valid then 0 else 1
  }

  predicate Free(p: SubPiece) {
    !p.valid && p.peers == map[]
  }

  function Unrequested(s: seq<SubPiece>): (n: nat)
    ensures n <= |s|
  {
    if s == [] then 0 else Unrequested(s[..|s| - 1]) + if Free(s[|s| - 1]) then 1 else 0
  }

  lemma {:induction false} UpdateCounts(s: seq<SubPiece>, b: nat, p: SubPiece)
    requires b < |s|
    ensures Unfinished(s[b := p]) == Unfinished(s) + (if p.valid then 0 else 1) - (if s[b].valid then 0 else 1)
    ensures Unrequested(s[b := p]) == Unrequested(s) + (if Free(p) then 1 else 0) - (if Free(s[b]) then 1 else 0)
    decreases |s|
  {
    var n := |s| - 1;
    var t := s[b := p];
    if b == n {
      assert t[..n] == s[..n];
    } else {
      assert t[..n] == s[..n][b := p] && t[n] == s[n];
      UpdateCounts(s[..n], b, p);
    }
  }

  lemma {:induction false} FreshCounts(s: seq<SubPiece>)
    requires forall b :: 0 <= b < |s| ==> Free(s[b])
    ensures Unfinished(s) == Unrequested(s) == |s|
    decreases |s|
  {
    if s != [] {
      FreshCounts(s[..|s| - 1]);
    }
  }

  lemma {:induction false} FreeExists(s: seq<SubPiece>)
    requires Unrequested(s) > 0
    ensures exists b :: 0 <= b < |s| && Free(s[b])
    decreases |s|
  {
    var n := |s| - 1;
    if !Free(s[n]) {
      FreeExists(s[..n]);
      var b :| 0 <= b < n && Free(s[..n][b]);
      assert Free(s[b]);
    }
  }

  // At most one requester, and none once the sub-piece is there.
  predicate Orderly(p: SubPiece) {
    |p.peers| <= 1 && (p.valid ==> p.peers == map[])
  }

  class Piece {
    var valid: bool
    var priority: int
    var mcPeers: int
    var size: nat
    var left: int
    var unrequested: int
    var subPieces: seq<SubPiece>

    function Count(): nat
      reads this`size
    {
      (size + CB_SUB_PIECE - 1) / CB_SUB_PIECE
    }

    // The size of sub-piece `b`.
    function CbSubPiece(b: nat): int
      reads this`size
    {
      Min(CB_SUB_PIECE * (b + 1), size) - CB_SUB_PIECE * b
    }

    // The counters tell the truth; without sub-pieces nothing has been asked
    // for, or everything has arrived.
    ghost predicate Counted()
      reads this
    {
      if subPieces == [] then left == unrequested && (left == 0 || left == Count())
      else
        && |subPieces| == Count()
        && left == Unfinished(subPieces) && unrequested == Unrequested(subPieces)
        && forall b :: 0 <= b < |subPieces| ==> Orderly(subPieces[b])
    }

    ghost predicate New(n: nat)
      reads this
    {
      Counted() && size == n && !valid && mcPeers == 0
    }

    constructor ()
      ensures Counted() && !valid && priority == 0 && mcPeers == 0 && subPieces == []
    {
      valid, priority, mcPeers, size, left, unrequested, subPieces := false, 0, 0, 0, 0, 0, [];
    }

    method Resize(v: nat)
      requires subPieces == []
      modifies this`size, this`left, this`unrequested
      ensures Counted() && size == v && left == unrequested == Count()
    {
      size := v;
      left := Count();
      unrequested := Count();
    }

    method SetValid(v: bool)
      requires Counted()
      modifies this`valid, this`left, this`unrequested, this`subPieces
      ensures Counted() && valid == v
      ensures v ==> left == 0 && subPieces == []
      ensures !v ==> subPieces == old(subPieces) && (subPieces == [] ==> left == Count())
    {
      valid := v;
      if v {
        left, unrequested, subPieces := 0, 0, [];
      } else if subPieces == [] {
        left := Count();
        unrequested := Count();
      }
    }

    // The sub-pieces, all free when there were none.
    function Allocated(): (s: seq<SubPiece>)
      reads this`subPieces, this`size
      ensures subPieces != [] ==> s == subPieces
    {
      if subPieces == [] then seq(Count(), _ => SubPiece(false, map[])) else subPieces
    }

    // Assigns the first free sub-piece to a peer; -1 if there is none.
    method NextInvalidSubPiece(peer: Peer, now: Time) returns (b: int)
      requires Counted()
      modifies this`subPieces, this`unrequested
      ensures Counted()
      ensures old(unrequested) == 0 ==> b == -1 && subPieces == old(subPieces)
      ensures old(unrequested) != 0 ==>
        && 0 <= b < Count() == |old(Allocated())| && Free(old(Allocated())[b])
        && (forall c :: 0 <= c < b ==> !Free(old(Allocated())[c]))
        && subPieces == old(Allocated())[b := SubPiece(false, map[peer := now])]
        && unrequested == old(unrequested) - 1
      ensures b != -1 ==> b < |subPieces| && 16384 * (|subPieces| - 1) < size <= 16384 * |subPieces|
    {
      if unrequested == 0 {
        return -1;
      }
      ghost var s := Allocated();
      if subPieces == [] {
        FreshCounts(s);
      }
      subPieces := Allocated();
      b := 0;
      while b < |subPieces|
        invariant 0 <= b <= |subPieces| && subPieces == s && unrequested == old(unrequested)
        invariant forall c :: 0 <= c < b ==> !Free(s[c])
      {
        if !subPieces[b].valid && subPieces[b].peers == map[] {
          var p := SubPiece(false, map[peer := now]);
          UpdateCounts(s, b, p);
          subPieces := subPieces[b := p];
          unrequested := unrequested - 1;
          assert |map[peer := now].Keys| == 1;
          return;
        }
        b := b + 1;
      }
      FreeExists(s);
      assert false;
    }

    // A peer goes away, or cancels its request.
    method ErasePeer(peer: Peer, offset: nat)
      requires Counted()
      modifies this`subPieces, this`unrequested
      ensures Counted()
      ensures var b := offset / CB_SUB_PIECE;
        if !valid && b < |old(subPieces)| && peer in old(subPieces)[b].peers
        then subPieces == old(subPieces)[b := SubPiece(false, map[])] && unrequested == old(unrequested) + 1
        else subPieces == old(subPieces)
    {
      var b := offset / CB_SUB_PIECE;
      if valid || b >= |subPieces| || peer !in subPieces[b].peers {
        return;
      }
      var i := subPieces[b];
      assert Orderly(i) && !i.valid;
      OnlyPeer(i.peers, peer);
      UpdateCounts(subPieces, b, i.(peers := i.peers - {peer}));
      subPieces := subPieces[b := i.(peers := i.peers - {peer})];
      unrequested := unrequested + 1;
    }

    // Whether a chunk fits an allocated, unfinished sub-piece exactly.
    predicate Accepts(offset: int, n: nat)
      reads this
    {
      && !valid && 0 <= offset < size && offset % CB_SUB_PIECE == 0
      && n == CbSubPiece(offset / CB_SUB_PIECE)
      && offset / CB_SUB_PIECE < |subPieces| && !subPieces[offset / CB_SUB_PIECE].valid
    }

    // A chunk arrives: 0 if it is taken.
    method Write(offset: int, n: nat) returns (code: int)
      requires Counted()
      modifies this`subPieces, this`left, this`unrequested
      ensures Counted() && code == if old(Accepts(offset, n)) then 0 else 1
      ensures code == 0 <==>
        && !valid && 0 <= offset < size && offset % 16384 == 0
        && n == (if offset + 16384 <= size then 16384 else size - offset)
        && offset / 16384 < |old(subPieces)| && !old(subPieces)[offset / 16384].valid
      ensures code == 1 ==> subPieces == old(subPieces) && left == old(left)
      ensures code == 0 ==> offset + n <= size && left == old(left) - 1
      ensures code == 0 && left != 0 ==> subPieces == old(subPieces)[offset / CB_SUB_PIECE := SubPiece(true, map[])]
      ensures code == 0 && left == 0 ==> subPieces == []
      ensures code == 0 ==>
        (left == 0 <==> forall b :: 0 <= b < |old(subPieces)| && b != offset / CB_SUB_PIECE ==> old(subPieces)[b].valid)
    {
      if valid || offset < 0 || offset >= size || offset % CB_SUB_PIECE != 0 {
        return 1;
      }
      var b := offset / CB_SUB_PIECE;
      if n != CbSubPiece(b) || b >= |subPieces| || subPieces[b].valid {
        return 1;
      }
      code := 0;
      TakeSubPiece(b);
    }

    method TakeSubPiece(b: nat)
      requires Counted() && b < |subPieces| && !subPieces[b].valid
      modifies this`subPieces, this`left, this`unrequested
      ensures Counted() && left == old(left) - 1
      ensures left != 0 ==> subPieces == old(subPieces)[b := SubPiece(true, map[])]
      ensures left == 0 ==> subPieces == []
      ensures left == 0 <==> forall c :: 0 <= c < |old(subPieces)| && c != b ==> old(subPieces)[c].valid
    {
      ghost var s := subPieces;
      var p := SubPiece(true, map[]);
      UpdateCounts(s, b, p);
      if subPieces[b].peers == map[] {
        unrequested := unrequested - 1;
      }
      subPieces := subPieces[b := p];
      left := left - 1;
      AllFinished(subPieces);
      if left == 0 {
        subPieces := [];
      }
      assert forall c :: 0 <= c < |s| && c != b ==> s[c] == s[b := p][c];
    }

    // Takes back what a peer has not delivered in time.
    method CheckPeer(peer: Peer, timeOut: int, now: Time) returns (found: bool)
      requires Counted()
      modifies this`subPieces, this`unrequested
      ensures Counted() && |subPieces| == |old(subPieces)|
      ensures forall b :: 0 <= b < |subPieces| ==>
        subPieces[b] ==
          if Late(old(subPieces)[b], peer, timeOut, now) then SubPiece(false, map[]) else old(subPieces)[b]
      ensures found <==> exists b :: 0 <= b < |subPieces| && !Late(old(subPieces)[b], peer, timeOut, now)
    {
      found := false;
      ghost var s := subPieces;
      var i := 0;
      while i < |subPieces|
        invariant 0 <= i <= |s| == |subPieces| && Counted()
        invariant forall b :: 0 <= b < |s| ==>
          subPieces[b] == (if b < i && Late(s[b], peer, timeOut, now) then SubPiece(false, map[]) else s[b])
        invariant found <==> exists b :: 0 <= b < i && !Late(s[b], peer, timeOut, now)
      {
        var kept := ExpireSubPiece(i, peer, timeOut, now);
        if kept {
          found := true;
        }
        i := i + 1;
      }
    }

    method ExpireSubPiece(i: nat, peer: Peer, timeOut: int, now: Time) returns (kept: bool)
      requires Counted() && i < |subPieces|
      modifies this`subPieces, this`unrequested
      ensures Counted() && kept == !Late(old(subPieces)[i], peer, timeOut, now)
      ensures subPieces == if kept then old(subPieces) else old(subPieces)[i := SubPiece(false, map[])]
    {
      var p := subPieces[i];
      assert Orderly(p);
      kept := true;
      if peer in p.peers && now - p.peers[peer] > timeOut {
        OnlyPeer(p.peers, peer);
        UpdateCounts(subPieces, i, p.(peers := p.peers - {peer}));
        subPieces := subPieces[i := p.(peers := p.peers - {peer})];
        if subPieces[i].peers == map[] {
          unrequested := unrequested + 1;
        }
        kept := false;
      }
    }

    // ----- resume data -----

    method SaveState() returns (w: seq<nat>)
      ensures w == if valid then [2] else if subPieces == [] then [0] else [1] + Flags(subPieces)
    {
      if valid {
        return [2];
      } else if subPieces == [] {
        return [0];
      }
      w := [1];
      for i := 0 to |subPieces|
        invariant w == [1] + Flags(subPieces[..i])
      {
        w := w + [if subPieces[i].valid then 1 else 0];
        assert subPieces[..i + 1][..i] == subPieces[..i];
      }
      assert subPieces[..|subPieces|] == subPieces;
    }

    // Restores a piece that has just been created; returns what it did not read.
    method LoadState(r0: seq<nat>) returns (r: seq<nat>)
      requires Counted() && subPieces == [] && left == Count()
      requires r0 != [] && (r0[0] == 1 ==> |r0| >= 1 + Count())
      modifies this`valid, this`left, this`unrequested, this`subPieces
      ensures Counted() && valid == (if r0[0] <= 1 then false else if r0[0] == 2 then true else old(valid))
      ensures r0[0] != 1 ==> r == r0[1..] && subPieces == [] && left == Count()
      ensures r0[0] == 1 ==> r == r0[1 + Count()..] && |subPieces| == Count() && unrequested == left
      ensures r0[0] == 1 ==> forall b :: 0 <= b < Count() ==> subPieces[b] == SubPiece(r0[1 + b] != 0, map[])
    {
      r := r0[1..];
      if r0[0] == 0 {
        valid := false;
      } else if r0[0] == 1 {
        valid := false;
        r := LoadFlags(r);
      } else if r0[0] == 2 {
        valid := true;
      }
    }

    method LoadFlags(r0: seq<nat>) returns (r: seq<nat>)
      requires |r0| >= Count() && subPieces == []
      modifies this`left, this`unrequested, this`subPieces
      ensures r == r0[Count()..] && |subPieces| == Count()
      ensures left == unrequested == Unfinished(subPieces) == Unrequested(subPieces)
      ensures forall b :: 0 <= b < Count() ==> subPieces[b] == SubPiece(r0[b] != 0, map[])
    {
      r := r0;
      subPieces := Allocated();
      FreshCounts(subPieces);
      left, unrequested := Count(), Count();
      for i := 0 to |subPieces|
        invariant |subPieces| == Count() && r == r0[i..]
        invariant left == unrequested == Unfinished(subPieces) == Unrequested(subPieces)
        invariant forall b :: 0 <= b < i ==> subPieces[b] == SubPiece(r0[b] != 0, map[])
        invariant forall b :: i <= b < |subPieces| ==> subPieces[b] == SubPiece(false, map[])
      {
        var v := r[0] != 0;
        r := r[1..];
        UpdateCounts(subPieces, i, SubPiece(v, map[]));
        subPieces := subPieces[i := SubPiece(v, map[])];
        left := left - if v then 1 else 0;
        unrequested := unrequested - if v then 1 else 0;
      }
    }

    // ----- choosing -----

    // The rank as it is computed, and the four things it orders by.
    function Rank(): int
      reads this
    {
      RankOf(RankKey())
    }

    function RankKey(): Key
      reads this
    {
      var rest := if subPieces == [] then 999 else Min(left, 999);
      Key(Max(0, Min(9 - priority, 19)), Min(mcPeers, 3), rest, Min(mcPeers, 99))
    }
  }

  // The pieces of a torrent, of the given sizes.
  method MakePieces(sizes: seq<nat>) returns (pieces: seq<Piece>)
    ensures |pieces| == |sizes| && fresh(pieces)
    ensures forall i, k :: 0 <= i < k < |pieces| ==> pieces[i] != pieces[k]
    ensures forall i :: 0 <= i < |pieces| ==> pieces[i].New(sizes[i])
    ensures forall i :: 0 <= i < |pieces| ==> pieces[i].subPieces == [] && pieces[i].unrequested == pieces[i].Count()
  {
    pieces := [];
    for i := 0 to |sizes|
      invariant |pieces| == i && fresh(pieces)
      invariant forall j, k :: 0 <= j < k < i ==> pieces[j] != pieces[k]
      invariant forall j :: 0 <= j < i ==> pieces[j].New(sizes[j])
      invariant forall j :: 0 <= j < i ==> pieces[j].subPieces == [] && pieces[j].unrequested == pieces[j].Count()
    {
      var p := new Piece();
      p.Resize(sizes[i]);
      pieces := pieces + [p];
    }
  }

  // Restoring what was saved gives the same sub-pieces, with nobody asked for
  // the missing ones.
  method SaveAndLoad(p: Piece, q: Piece, suffix: seq<nat>) returns (r: seq<nat>)
    requires p != q && p.Counted() && q.Counted() && q.size == p.size && q.subPieces == [] && q.left == q.Count()
    modifies q
    ensures q.Counted() && q.valid == p.valid && r == suffix
    ensures p.valid || p.subPieces == [] ==> q.subPieces == []
    ensures !p.valid && p.subPieces != [] ==>
      |q.subPieces| == |p.subPieces| && q.left == q.unrequested == p.left
      && forall b :: 0 <= b < |p.subPieces| ==> q.subPieces[b] == SubPiece(p.subPieces[b].valid, map[])
  {
    var w := p.SaveState();
    r := q.LoadState(w + suffix);
    if !p.valid && p.subPieces != [] {
      SameFlags(p.subPieces, q.subPieces);
    }
  }

  function Flags(s: seq<SubPiece>): (r: seq<nat>)
    ensures |r| == |s| && forall b :: 0 <= b < |s| ==> r[b] == if s[b].valid then 1 else 0
  {
    if s == [] then [] else Flags(s[..|s| - 1]) + [if s[|s| - 1].valid then 1 else 0]
  }

  lemma {:induction false} SameFlags(s: seq<SubPiece>, t: seq<SubPiece>)
    requires |s| == |t| && forall b :: 0 <= b < |s| ==> s[b].valid == t[b].valid
    ensures Unfinished(s) == Unfinished(t)
    decreases |s|
  {
    if s != [] {
      SameFlags(s[..|s| - 1], t[..|s| - 1]);
    }
  }

  datatype Key = Key(priority: int, scarcity: int, left: int, peers: int)

  function RankOf(k: Key): int {
    1000000 * k.priority + 100000 * k.scarcity + 100 * k.left + k.peers
  }

  predicate Before(a: Key, b: Key) {
    a.priority < b.priority || (a.priority == b.priority &&
      (a.scarcity < b.scarcity || (a.scarcity == b.scarcity &&
        (a.left < b.left || (a.left == b.left && a.peers < b.peers)))))
  }

  // `p` is asked for before `q`, or is as good: a higher priority, then fewer peers
  // up to three, then a piece that has been started, with less of it left, then
  // fewer peers.
  predicate Preferred(p: Piece, q: Piece)
    reads p, q
  {
    var pp, qp := Max(-10, Min(9, p.priority)), Max(-10, Min(9, q.priority));
    pp > qp || (pp == qp &&
      (Min(p.mcPeers, 3) < Min(q.mcPeers, 3) || (Min(p.mcPeers, 3) == Min(q.mcPeers, 3) &&
        (LessLeft(p, q) || (!LessLeft(q, p) && Min(p.mcPeers, 99) <= Min(q.mcPeers, 99))))))
  }

  // Pieces with 999 sub-pieces left or more are as good as those not started.
  predicate LessLeft(p: Piece, q: Piece)
    reads p, q
  {
    p.subPieces != [] && p.left < 999 && (q.subPieces == [] || p.left < q.left)
  }

  lemma {:induction false} KeyPrefers(p: Piece, q: Piece)
    ensures !Before(q.RankKey(), p.RankKey()) <==> Preferred(p, q)
  {
  }

  predicate InRange(k: Key) {
    0 <= k.priority <= 19 && 0 <= k.scarcity <= 3 && 0 <= k.left <= 999 && 0 <= k.peers <= 99
  }

  // The sum is a lexicographic order: no part can outweigh a part before it.
  lemma {:induction false} RankIsLexicographic(a: Key, b: Key)
    requires InRange(a) && InRange(b)
    ensures RankOf(a) < RankOf(b) <==> Before(a, b)
    ensures RankOf(a) == RankOf(b) ==> a == b
  {
  }

  lemma {:induction false} KeyInRange(p: Piece)
    requires p.Counted() && p.mcPeers >= 0
    ensures InRange(p.RankKey()) && p.Rank() < 0x7fffffff
  {
  }

  lemma CountersArePositive(p: Piece)
    requires p.Counted()
    ensures p.unrequested >= 0 && p.left >= 0
  {
  }

  predicate Late(p: SubPiece, peer: Peer, timeOut: int, now: Time) {
    peer in p.peers && now - p.peers[peer] > timeOut
  }

  lemma OnlyPeer(peers: map<Peer, Time>, peer: Peer)
    requires |peers| <= 1 && peer in peers
    ensures peers - {peer} == map[]
  {
    assert |peers.Keys - {peer}| == 0;
  }

  lemma {:induction false} AllFinished(s: seq<SubPiece>)
    ensures Unfinished(s) == 0 <==> forall b :: 0 <= b < |s| ==> s[b].valid
    ensures Unfinished(s) == 0 && (forall b :: 0 <= b < |s| ==> Orderly(s[b])) ==> Unrequested(s) == 0
    decreases |s|
  {
    if s != [] {
      AllFinished(s[..|s| - 1]);
    }
  }
}
