// A sub-piece that was asked of a link that is gone, and will never be asked of
// another one.
module Stranded {
  import opened Arithmetic
  import opened Availability
  import opened StreamInt
  import P = Piece

  // Sub-piece `b` has not arrived, and `id` has been asked for it.
  predicate Awaited(s: seq<P.SubPiece>, b: nat, id: P.Peer) {
    b < |s| && !s[b].valid && id in s[b].peers
  }

  // A link with this list is another one, and does not wait for the sub-piece.
  predicate Elsewhere(cb: nat, other: P.Peer, requests: seq<nat>, a: nat, b: nat, id: P.Peer)
    requires cb > 0
  {
    other != id && !AskedFor(cb, requests, a, b)
  }

  // Sub-piece `b` of piece `a` waits for `id`, which is not there, and no list
  // names it.
  ghost predicate Stranded(w: Swarm, a: nat, b: nat, id: P.Peer)
    requires w.cb > 0
    reads w, w.pieces, w.links
  {
    && a < |w.pieces| && !w.pieces[a].valid && Awaited(w.pieces[a].subPieces, b, id)
    && forall c <- w.links :: Elsewhere(w.cb, c.id, c.requests, a, b, id)
  }

  // What can happen: link `k` of the list, or a new link, does something.
  datatype Step =
    | Comes(c: Link)
    | Has(k: nat, v: nat)
    | HasMany(k: nat, s: Bytes)
    | IsAsked(k: nat, i: nat, now: P.Time)
    | Delivers(k: nat, o: int, n: nat)
    | IsChecked(k: nat, timeOut: int, now: P.Time)
    | Goes(k: nat)

  lemma OnlyOne(peers: map<P.Peer, P.Time>, id: P.Peer, other: P.Peer)
    requires |peers| <= 1 && id in peers && other in peers
    ensures other == id
  {
    P.OnlyPeer(peers, id);
    assert other != id ==> other in peers - {id};
  }

  lemma {:induction false} AwaitedReturned(w: Swarm, requests: seq<nat>, other: P.Peer, id: P.Peer, was: bool,
                                           s: seq<P.SubPiece>, now: bool, t: seq<P.SubPiece>, i: nat, b: nat)
    requires w.cb > 0 && w.Returned(requests, other, was, s, now, t, i) && Awaited(s, b, id)
    requires |s[b].peers| <= 1 && other != id
    ensures Awaited(t, b, id)
  {
    if other in s[b].peers {
      OnlyOne(s[b].peers, id, other);
    }
  }

  lemma {:induction false} AwaitedExpired(cb: nat, requests: seq<nat>, other: P.Peer, id: P.Peer, timeOut: int,
                                          now: P.Time, s: seq<P.SubPiece>, t: seq<P.SubPiece>, i: nat, b: nat)
    requires cb > 0 && Expired(cb, requests, other, timeOut, now, s, t, i) && Awaited(s, b, id)
    requires |s[b].peers| <= 1 && other != id
    ensures Awaited(t, b, id)
  {
    if other in s[b].peers {
      OnlyOne(s[b].peers, id, other);
    }
  }

  lemma {:induction false} AwaitedArrived(s: seq<P.SubPiece>, d: nat, t: seq<P.SubPiece>, valid: bool, b: nat,
                                          id: P.Peer)
    requires Arrived(s, d, t, valid) && Awaited(s, b, id) && d != b
    ensures Awaited(t, b, id) && !valid
  {
    assert !s[b].valid;
  }

  lemma OneAsked(w: Swarm, a: nat, b: nat)
    requires w.Valid() && a < |w.pieces| && b < |w.pieces[a].subPieces|
    ensures |w.pieces[a].subPieces[b].peers| <= 1
  {
    assert w.PieceOk(a);
    assert P.Orderly(w.pieces[a].subPieces[b]);
  }

  lemma OtherRequest(cb: nat, requests: seq<nat>, other: P.Peer, i: nat, d: nat, a: nat, b: nat, id: P.Peer)
    requires cb > 0 && Elsewhere(cb, other, requests, a, b, id) && P.CB_SUB_PIECE * d < cb && (i != a || d != b)
    ensures Elsewhere(cb, other, requests + [cb * i + P.CB_SUB_PIECE * d], a, b, id)
  {
    var o := cb * i + P.CB_SUB_PIECE * d;
    RequestIsFor(cb, i, d);
    AskedForSnoc(cb, requests, o, a, b);
  }

  // Every sub-piece starts in its piece.
  lemma AllFit(w: Swarm, i: nat)
    requires w.Valid() && i < |w.pieces|
    ensures forall d :: 0 <= d < |w.pieces[i].Allocated()| ==> P.CB_SUB_PIECE * d < w.cb
  {
    assert w.PieceOk(i);
    forall d: nat | d < |w.pieces[i].Allocated()|
      ensures P.CB_SUB_PIECE * d < w.cb
    {
      SubPieceFits(w.pieces[i].size, w.cb, d);
    }
  }

  // A link is asked for the next sub-piece of a piece.
  method AskFor(w: Swarm, c: Link, i: nat, now: P.Time, ghost a: nat, ghost b: nat, ghost id: P.Peer)
    requires w.Valid() && Stranded(w, a, b, id) && c in w.links && i < |w.pieces|
    modifies c`requests, w.pieces[i]
    ensures w.Valid() && Stranded(w, a, b, id)
  {
    hide AskedFor, IsFor, P.Unfinished, P.Unrequested, Count, Missing, Swarm.Named;
    assert w.PieceOk(i) && w.PieceOk(a);
    assert Elsewhere(w.cb, c.id, c.requests, a, b, id);
    ghost var s := w.pieces[i].Allocated();
    AllFit(w, i);
    var d := w.Ask(c, i, now);
    if d != -1 {
      assert i == a ==> s == old(w.pieces[i].subPieces) && d != b;
      OtherRequest(w.cb, old(c.requests), c.id, i, d, a, b, id);
    }
    assert i != a ==> w.pieces[i] != w.pieces[a];
  }

  // A chunk arrives that a link was asked for.
  method Deliver(w: Swarm, c: Link, o: int, n: nat, ghost a: nat, ghost b: nat, ghost id: P.Peer)
    requires w.Valid() && Stranded(w, a, b, id) && c in w.links
    modifies c`requests, w`left, w.pieces
    ensures w.Valid() && Stranded(w, a, b, id)
  {
    assert Elsewhere(w.cb, c.id, c.requests, a, b, id);
    ghost var s := w.pieces[a].subPieces;
    var code := w.ReadPiece(c, o, n);
    if code == 1 {
      WithoutNone(old(c.requests), o);
    } else {
      ghost var d := SubPieceOf(w.cb, o);
      assert o / w.cb == a ==> d != b by {
        assert IsFor(w.cb, o, o / w.cb, d);
      }
      AskedWithout(w.cb, old(c.requests), o, a, b);
      if o / w.cb == a && old(w.Takes(o, n)) {
        AwaitedArrived(s, d, w.pieces[a].subPieces, w.pieces[a].valid, b, id);
      }
    }
  }

  // A link is late.
  method TimeOut(w: Swarm, c: Link, timeOut: int, now: P.Time, ghost a: nat, ghost b: nat, ghost id: P.Peer)
    requires w.Valid() && Stranded(w, a, b, id) && c in w.links
    modifies w.pieces
    ensures w.Valid() && Stranded(w, a, b, id)
  {
    assert Elsewhere(w.cb, c.id, c.requests, a, b, id);
    OneAsked(w, a, b);
    ghost var s := w.pieces[a].subPieces;
    w.CheckPieces(c, timeOut, now);
    AwaitedExpired(w.cb, c.requests, c.id, id, timeOut, now, s, w.pieces[a].subPieces, a, b);
  }

  // A link goes, and is taken off the list.
  method Leave(w: Swarm, k: nat, ghost a: nat, ghost b: nat, ghost id: P.Peer)
    requires w.Valid() && Stranded(w, a, b, id) && k < |w.links|
    modifies w`links, w`bits, w.links[k], w.pieces
    ensures w.Valid() && Stranded(w, a, b, id) && w.links == old(w.links)[..k] + old(w.links)[k + 1..]
  {
    var c := w.links[k];
    assert Elsewhere(w.cb, c.id, c.requests, a, b, id);
    OneAsked(w, a, b);
    ghost var s, was, requests := w.pieces[a].subPieces, w.pieces[a].valid, c.requests;
    w.Close(k);
    AwaitedReturned(w, requests, c.id, id, was, s, w.pieces[a].valid, w.pieces[a].subPieces, a, b);
    assert w.LinkOk(k);
    w.Remove(k);
  }

  // A link has a piece, or many.
  method Have(w: Swarm, k: nat, v: nat, ghost a: nat, ghost b: nat, ghost id: P.Peer)
    requires w.Valid() && Stranded(w, a, b, id) && k < |w.links| && |w.links[k].pieces| == |w.sizes|
    modifies w`bits, w.links[k], w.pieces
    ensures w.Valid() && Stranded(w, a, b, id)
  {
    assert w.LinkOk(k) && w.Work()[a] == (w.pieces[a].valid, w.pieces[a].unrequested, w.pieces[a].subPieces);
    w.RemoteHas(k, v);
    assert w.Work()[a] == (w.pieces[a].valid, w.pieces[a].unrequested, w.pieces[a].subPieces);
  }

  method HaveField(w: Swarm, k: nat, s: Bytes, ghost a: nat, ghost b: nat, ghost id: P.Peer)
    requires w.Valid() && Stranded(w, a, b, id) && k < |w.links| && |w.links[k].pieces| == |w.sizes|
    modifies w`bits, w.links[k], w.pieces
    ensures w.Valid() && Stranded(w, a, b, id)
  {
    assert w.LinkOk(k) && w.Work()[a] == (w.pieces[a].valid, w.pieces[a].unrequested, w.pieces[a].subPieces);
    w.Bitfield(k, s);
    assert w.Work()[a] == (w.pieces[a].valid, w.pieces[a].unrequested, w.pieces[a].subPieces);
  }

  // A link comes.
  method Join(w: Swarm, c: Link, ghost a: nat, ghost b: nat, ghost id: P.Peer)
    requires w.Valid() && Stranded(w, a, b, id) && c !in w.links && c.requests == [] && c.id != id
    modifies w`links, w`bits, c`pieces, c`left
    ensures w.Valid() && Stranded(w, a, b, id) && w.links == old(w.links) + [c]
  {
    w.Connect(c);
  }

  method TakeStep(w: Swarm, step: Step, others: set<Link>, ghost a: nat, ghost b: nat, id: P.Peer)
    requires w.Valid() && Stranded(w, a, b, id)
    modifies w, w.pieces, w.links, others
    ensures w.Valid() && Stranded(w, a, b, id) && forall c <- w.links :: c in old(w.links) || c in others
  {
    hide Stranded, Swarm.Valid;
    match step
    case Comes(c) =>
      if c in others && c !in w.links && c.requests == [] && c.id != id {
        Join(w, c, a, b, id);
      }
    case Has(k, v) =>
      if k < |w.links| && |w.links[k].pieces| == |w.sizes| {
        Have(w, k, v, a, b, id);
      }
    case HasMany(k, s) =>
      if k < |w.links| && |w.links[k].pieces| == |w.sizes| {
        HaveField(w, k, s, a, b, id);
      }
    case IsAsked(k, i, now) =>
      if k < |w.links| && i < |w.pieces| {
        AskFor(w, w.links[k], i, now, a, b, id);
      }
    case Delivers(k, o, n) =>
      if k < |w.links| {
        Deliver(w, w.links[k], o, n, a, b, id);
      }
    case IsChecked(k, timeOut, now) =>
      if k < |w.links| {
        TimeOut(w, w.links[k], timeOut, now, a, b, id);
      }
    case Goes(k) =>
      if k < |w.links| {
        Leave(w, k, a, b, id);
      }
  }

  // Whatever happens, in any order: the sub-piece does not arrive, is not asked
  // of anybody, and its piece does not become valid.
  method StaysStranded(w: Swarm, steps: seq<Step>, others: set<Link>, ghost a: nat, ghost b: nat, id: P.Peer)
    requires w.Valid() && Stranded(w, a, b, id)
    modifies w, w.pieces, w.links, others
    ensures w.Valid() && Stranded(w, a, b, id)
  {
    for m := 0 to |steps|
      invariant w.Valid() && Stranded(w, a, b, id) && forall c <- w.links :: c in old(w.links) || c in others
    {
      TakeStep(w, steps[m], others, a, b, id);
    }
  }

  // How it comes to that. There is one piece of one byte, a link has it ...
  method OnePiece(id: P.Peer) returns (w: Swarm, c: Link)
    ensures fresh(w) && fresh(c) && fresh(w.pieces) && w.Valid() && w.cb == 16384 && w.sizes == [1] && w.links == [c]
    ensures c.id == id && c.requests == [] && w.Work() == [(false, 1, [])]
  {
    hide Missing, P.Unfinished, P.Unrequested;
    var sizes: seq<nat> := [1];
    var pieces := P.MakePieces(sizes);
    w := new Swarm(16384, sizes, pieces);
    c := new Link(id);
    w.Connect(c);
    assert w.Work() == [(false, 1, [])] by {
      assert w.pieces[0].Count() == 1;
    }
    w.RemoteHas(0, 0);
  }

  // ... and has been asked for it ...
  method AskForLast(id: P.Peer, now: P.Time) returns (w: Swarm, c: Link)
    ensures fresh(w) && fresh(c) && fresh(w.pieces) && w.Valid() && w.cb == 16384 && w.sizes == [1] && w.links == [c]
    ensures c.id == id && c.requests == [0] && w.pieces[0].subPieces == [P.SubPiece(false, map[id := now])]
    ensures !w.pieces[0].valid && w.Named(c)
  {
    hide Count, Missing, P.Unfinished, P.Unrequested;
    w, c := OnePiece(id);
    assert w.Work()[0] == (false, 1, []) && w.PieceOk(0) && w.pieces[0].Count() == 1 && w.Named(c);
    var b := w.Ask(c, 0, now);
  }

  // ... but delivers a chunk of two bytes, and goes. No other link will be asked.
  method LastChunkRefused(id: P.Peer, now: P.Time) returns (w: Swarm)
    ensures fresh(w) && w.Valid() && w.cb == 16384 && w.sizes == [1] && w.links == []
    ensures Stranded(w, 0, 0, id) && !w.Wanted(0)
  {
    hide Count, Missing, P.Unfinished, P.Unrequested;
    var c;
    w, c := AskForLast(id, now);
    assert w.PieceOk(0) && !w.Takes(0, 2);
    var code := w.ReadPiece(c, 0, 2);
    assert !w.StillNamed([], id, 0) && !w.Named(c);
    w.Close(0);
    assert w.LinkOk(0);
    w.Remove(0);
    NothingFree(w, id);
  }

  lemma NothingFree(w: Swarm, id: P.Peer)
    requires w.Valid() && |w.pieces| == 1 && |w.pieces[0].subPieces| == 1 && Awaited(w.pieces[0].subPieces, 0, id)
    ensures !w.Wanted(0)
  {
    assert w.PieceOk(0);
  }
}
