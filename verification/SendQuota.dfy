// Sharing the upload quota of one second among the links that have something
// to send.
module SendQuota {
  import opened Arithmetic
  import opened StreamInt

  function Flatten(s: seq<Bytes>): Bytes {
    if s == [] then [] else s[0] + Flatten(s[1..])
  }

  lemma {:induction false} FlattenConcat(a: seq<Bytes>, b: seq<Bytes>)
    ensures Flatten(a + b) == Flatten(a) + Flatten(b)
    decreases |a|
  {
    if a == [] {
      assert a + b == b;
    } else {
      assert (a + b)[1..] == a[1..] + b;
      FlattenConcat(a[1..], b);
    }
  }

  lemma EmptyFirst(s: seq<Bytes>)
    requires s != []
    ensures Flatten(s) == [] ==> s[0] == []
  {
  }

  // ----- one pass, as arithmetic -----

  // What a pass allots: each link gets its demand or its share of what is left,
  // whichever is less.
  function Allot(quota: nat, demands: seq<nat>): (r: seq<nat>)
    ensures |r| == |demands|
  {
    if demands == [] then []
    else
      var q := Min(demands[0], quota / |demands|);
      Share(quota, |demands|);
      [q] + Allot(quota - q, demands[1..])
  }

  lemma Share(quota: nat, n: nat)
    requires n > 0
    ensures quota / n * n <= quota < (quota / n + 1) * n
    ensures quota / n <= quota
  {
    var q := quota / n;
    assert quota == q * n + quota % n;
    assert (q + 1) * n == q * n + n;
    MulMonotone(q, 1, n);
  }

  predicate Sorted(s: seq<nat>) {
    forall i, j :: 0 <= i <= j < |s| ==> s[i] <= s[j]
  }

  // The water level of an allotment, up to one byte.
  predicate AtLevel(a: seq<nat>, demands: seq<nat>, level: nat) {
    |a| == |demands| &&
    forall i :: 0 <= i < |a| ==> Min(demands[i], level) <= a[i] <= Min(demands[i], level + 1)
  }

  // Shares stay within one byte once every demand exceeds the level.
  lemma {:induction false} Flat(quota: nat, demands: seq<nat>, level: nat)
    requires forall i :: 0 <= i < |demands| ==> demands[i] > level
    requires |demands| * level <= quota <= |demands| * (level + 1)
    ensures AtLevel(Allot(quota, demands), demands, level)
    ensures Sum(Allot(quota, demands)) == quota
    decreases |demands|
  {
    var n := |demands|;
    if n > 0 {
      var q := quota / n;
      Share(quota, n);
      ShareBounds(quota, n, level);
      var rest := demands[1..];
      assert Allot(quota, demands) == [q] + Allot(quota - q, rest);
      Flat(quota - q, rest, level);
    }
  }

  lemma ShareBounds(quota: nat, n: nat, level: nat)
    requires n > 0 && n * level <= quota <= n * (level + 1)
    ensures level <= quota / n <= level + 1
    ensures (n - 1) * level <= quota - quota / n <= (n - 1) * (level + 1)
  {
    var high := level + 1;
    assert level * n == n * level && n * (high + 1) == n * high + n;
    DivAtLeast(quota, n, level);
    DivBelow(n, quota, high + 1);
    ShareLeft(quota, n, level, high);
  }

  lemma ShareLeft(quota: nat, n: nat, low: nat, high: nat)
    requires n > 0 && n * low <= quota <= n * high && low <= quota / n <= high
    ensures (n - 1) * low <= quota - quota / n <= (n - 1) * high
  {
    var m: nat, q, r := n - 1, quota / n, quota % n;
    assert quota == n * q + r && n * q == m * q + q;
    assert n * low == m * low + low && n * high == m * high + high;
    MulMonotone(m, low, q);
    MulMonotone(m, q, high);
    if q == high {
      assert r == 0;
    } else {
      MulMonotone(m, q + 1, high);
    }
  }

  // Serving a link that asks for less than its share raises the share.
  lemma ShareGrows(quota: nat, n: nat, d: nat)
    requires n > 1 && d <= quota / n && d <= quota
    ensures quota / n <= (quota - d) / (n - 1)
  {
    var q := quota / n;
    Share(quota, n);
    assert q * (n - 1) == q * n - q;
    DivAtLeast(quota - d, n - 1, q);
  }

  // A pass over sorted demands is max-min fair: there is a water level, it
  // hands out everything it can, and nothing more than is asked for.
  lemma {:induction false} PassIsFair(quota: nat, demands: seq<nat>) returns (level: nat)
    requires Sorted(demands)
    ensures AtLevel(Allot(quota, demands), demands, level)
    ensures Sum(Allot(quota, demands)) == Min(quota, Sum(demands))
    ensures demands != [] ==> quota / |demands| <= level
    decreases |demands|, 1
  {
    level := 0;
    if demands != [] {
      var n, d, rest := |demands|, demands[0], demands[1..];
      Share(quota, n);
      if d <= quota / n {
        level := ServeFully(quota, demands);
      } else {
        level := quota / n;
        CapAll(quota, demands);
      }
    }
  }

  lemma {:induction false} CapAll(quota: nat, demands: seq<nat>)
    requires Sorted(demands) && demands != [] && demands[0] > quota / |demands|
    ensures AtLevel(Allot(quota, demands), demands, quota / |demands|)
    ensures Sum(Allot(quota, demands)) == quota <= Sum(demands)
  {
    var n, level := |demands|, quota / |demands|;
    Share(quota, n);
    assert n * level == level * n && n * (level + 1) == (level + 1) * n;
    Flat(quota, demands, level);
    SumBound(Allot(quota, demands), demands);
  }

  lemma {:induction false} ServeFully(quota: nat, demands: seq<nat>) returns (level: nat)
    requires Sorted(demands) && demands != [] && demands[0] <= quota / |demands| <= quota
    ensures AtLevel(Allot(quota, demands), demands, level)
    ensures Sum(Allot(quota, demands)) == Min(quota, Sum(demands))
    ensures quota / |demands| <= level
    decreases |demands|, 0
  {
    var d, rest := demands[0], demands[1..];
    var a := Allot(quota - d, rest);
    AllotFirst(quota, demands);
    assert Sorted(rest);
    hide *;
    level := PassIsFair(quota - d, rest);
    if rest == [] {
      level := quota;
      NoLevel(a, rest, level);
    } else {
      ShareGrows(quota, |demands|, d);
    }
    LevelCons(a, demands, level);
  }

  // A link whose demand is within its share is served first, and fully.
  lemma AllotFirst(quota: nat, demands: seq<nat>)
    requires demands != [] && demands[0] <= quota / |demands| <= quota
    ensures var a := Allot(quota - demands[0], demands[1..]);
      Allot(quota, demands) == [demands[0]] + a && Sum(Allot(quota, demands)) == demands[0] + Sum(a)
    ensures Sum(demands) == demands[0] + Sum(demands[1..]) && (demands[1..] == [] ==> Sum(demands[1..]) == 0)
  {
    var a := Allot(quota - demands[0], demands[1..]);
    assert ([demands[0]] + a)[1..] == a;
  }

  lemma NoLevel(a: seq<nat>, demands: seq<nat>, level: nat)
    requires a == demands == []
    ensures AtLevel(a, demands, level)
  {
  }

  lemma LevelCons(a: seq<nat>, demands: seq<nat>, level: nat)
    requires demands != [] && AtLevel(a, demands[1..], level) && demands[0] <= level
    ensures AtLevel([demands[0]] + a, demands, level)
  {
    var b := [demands[0]] + a;
    forall i | 0 <= i < |demands|
      ensures Min(demands[i], level) <= b[i] <= Min(demands[i], level + 1)
    {
      if i > 0 {
        assert demands[1..][i - 1] == demands[i] && a[i - 1] == b[i];
      }
    }
  }

  // No link is short while another has more than one byte above it.
  lemma {:induction false} ShortLinksAreServedBest(quota: nat, demands: seq<nat>, i: nat, j: nat)
    requires Sorted(demands) && i < |demands| && j < |demands|
    requires Allot(quota, demands)[i] < demands[i]
    ensures Allot(quota, demands)[j] <= Allot(quota, demands)[i] + 1
  {
    var level := PassIsFair(quota, demands);
  }

  // ----- the links -----

  // A block that the peer asked for: what is queued for it, when its data can
  // be read.
  datatype Request = Request(size: nat, readable: bool, messages: seq<Bytes>)

  // What the answers take, with a message header each.
  function RequestSizes(s: seq<Request>, header: nat): nat {
    if s == [] then 0 else s[0].size + header + RequestSizes(s[1..], header)
  }

  // A piece that is new here; the peer is not told if it has the piece.
  datatype Have = Have(message: Bytes, known: bool)

  function Announced(haves: seq<Have>): seq<Bytes> {
    if haves == [] then []
    else Announced(haves[..|haves| - 1]) + if haves[|haves| - 1].known then [] else [haves[|haves| - 1].message]
  }

  // The answers to all requests.
  function Answers(s: seq<Request>): Bytes {
    if s == [] then [] else Flatten(s[0].messages) + Answers(s[1..])
  }

  lemma {:induction false} AnswerSizes(s: seq<Request>, header: nat)
    requires forall r <- s :: |Flatten(r.messages)| >= r.size + header
    ensures |Answers(s)| >= RequestSizes(s, header)
    ensures (forall r <- s :: |Flatten(r.messages)| == r.size + header) ==> |Answers(s)| == RequestSizes(s, header)
  {
    if s != [] {
      AnswerSizes(s[1..], header);
    }
  }

  lemma {:induction false} HaveSizes(haves: seq<Have>)
    requires forall h <- haves :: !h.known && |h.message| == 9
    ensures |Flatten(Announced(haves))| == 9 * |haves|
    decreases |haves|
  {
    if haves != [] {
      var n := |haves| - 1;
      HaveSizes(haves[..n]);
      FlattenConcat(Announced(haves[..n]), [haves[n].message]);
      assert Flatten([haves[n].message]) == haves[n].message;
    }
  }

  class PeerLink {
    const merkle: bool
    var open: bool
    var canSend: bool
    var localChoked: bool
    var writeBuffer: seq<Bytes>
    var requests: seq<Request>
    var haves: seq<Have>
    ghost var sent: Bytes  // what the socket has taken

    constructor (merkle: bool)
      ensures this.merkle == merkle
      ensures open && localChoked && writeBuffer == [] && requests == [] && haves == [] && sent == []
    {
      this.merkle := merkle;
      open, canSend, localChoked, writeBuffer, requests, haves, sent := true, false, true, [], [], [], [];
    }

    // Everything that left or will leave, in order.
    ghost function Stream(): Bytes
      reads this
    {
      sent + Flatten(writeBuffer)
    }

    // What the link would send if it could: the queued messages, the blocks
    // asked for, each with the header of a piece message, and pending haves.
    function CbWriteBuffer(): nat
      reads this
    {
      var cb := |Flatten(writeBuffer)| + if localChoked then 0 else RequestSizes(requests, if merkle then 10 else 13);
      if cb > 0 then cb + 9 * |haves| else 0
    }

    // Something is queued, or can be answered.
    predicate HasWork()
      reads this
    {
      Flatten(writeBuffer) != [] || (!localChoked && requests != [])
    }

    lemma WorkIsDemand()
      ensures CbWriteBuffer() > 0 <==> HasWork()
    {
    }

    // All that is owed: what is queued, the answers to all requests unless the
    // peer is choked, and the pending haves.
    ghost function Owed(): Bytes
      reads this
    {
      Stream() + (if localChoked then [] else Answers(requests)) + Flatten(Announced(haves))
    }

    // Every request can be answered, with a header of four bytes of length, one of
    // type and eight of position, and every have is nine bytes.
    predicate Plain()
      reads this
    {
      && !merkle && (forall r <- requests :: r.readable && |Flatten(r.messages)| == r.size + 13)
      && forall h <- haves :: !h.known && |h.message| == 9
    }

    // The demand is what is owed and has not been sent.
    lemma {:induction false} DemandIsOwed()
      requires Plain() && HasWork()
      ensures sent <= Owed() && CbWriteBuffer() == |Owed()| - |sent|
    {
      AnswerSizes(requests, 13);
      HaveSizes(haves);
      assert Owed() == sent + (Flatten(writeBuffer) + ((if localChoked then [] else Answers(requests))
        + Flatten(Announced(haves))));
    }

    // In a Merkle torrent an answer has a header of ten bytes, and hashes behind the
    // block, which are not counted.
    lemma {:induction false} MerkleDemand()
      requires merkle && HasWork() && forall r <- requests :: |Flatten(r.messages)| >= r.size + 10
      requires forall h <- haves :: !h.known && |h.message| == 9
      ensures CbWriteBuffer() <= |Owed()| - |sent|
      ensures (forall r <- requests :: |Flatten(r.messages)| == r.size + 10) ==> CbWriteBuffer() == |Owed()| - |sent|
    {
      AnswerSizes(requests, 10);
      HaveSizes(haves);
    }

    method Close()
      modifies this
      ensures !open && sent == old(sent)
    {
      open := false;
    }

    method Write(s: Bytes)
      modifies this`writeBuffer
      ensures writeBuffer == old(writeBuffer) + [s] && Stream() == old(Stream()) + s
    {
      FlattenConcat(writeBuffer, [s]);
      assert Flatten([s]) == s;
      writeBuffer := writeBuffer + [s];
    }

    method WriteHaves()
      modifies this`writeBuffer, this`haves
      ensures haves == [] && writeBuffer == old(writeBuffer) + Announced(old(haves)) && old(Stream()) <= Stream()
      ensures |Owed()| == old(|Owed()|)
    {
      assert writeBuffer + [] == writeBuffer;
      for i := 0 to |haves|
        invariant haves == old(haves) && writeBuffer == old(writeBuffer) + Announced(haves[..i])
        invariant old(Stream()) <= Stream()
      {
        assert haves[..i + 1][..i] == haves[..i];
        if !haves[i].known {
          Write(haves[i].message);
        }
      }
      assert haves[..|haves|] == haves;
      FlattenConcat(old(writeBuffer), Announced(haves));
      haves := [];
    }

    // Answers the first request of the peer, if its data can be read.
    method AnswerRequest()
      requires requests != []
      modifies this`writeBuffer, this`requests
      ensures requests == old(requests)[1..] && old(Stream()) <= Stream()
      ensures !localChoked && old(requests)[0].readable ==> |Owed()| == old(|Owed()|)
    {
      var r := requests[0];
      if r.readable {
        FlattenConcat(writeBuffer, r.messages);
        writeBuffer := writeBuffer + r.messages;
      }
      requests := requests[1..];
    }

    // The socket has taken the first `r` bytes.
    method Taken(r: nat)
      requires writeBuffer != [] && 0 < r <= |writeBuffer[0]|
      modifies this`sent, this`writeBuffer
      ensures sent == old(sent) + old(writeBuffer)[0][..r] && Stream() == old(Stream()) && Owed() == old(Owed())
    {
      var d := writeBuffer[0];
      TakeFirst(d, r, writeBuffer);
      sent := sent + d[..r];
      writeBuffer := if r == |d| then writeBuffer[1..] else [d[r..]] + writeBuffer[1..];
    }

    // Offers the first buffer to the socket, up to `left` bytes. The socket takes
    // some, closes (0), fails (-1) or blocks (-2).
    method SendFirst(left: nat) returns (r: int)
      requires writeBuffer != []
      modifies this`canSend, this`sent, this`writeBuffer
      ensures -2 <= r <= left && old(sent) <= sent && |sent| == |old(sent)| + Max(0, r)
      ensures Stream() == old(Stream()) && Owed() == old(Owed()) && r <= |old(writeBuffer)[0]|
      ensures canSend == (old(canSend) && r != -2 && (r <= 0 || r == Min(|old(writeBuffer)[0]|, left)))
    {
      var most := Min(|writeBuffer[0]|, left);
      r :| -2 <= r <= most;
      if r == -2 || 0 < r < most {
        canSend := false;
      }
      if r > 0 {
        Taken(r);
      }
    }

    // Queues an answer if nothing is queued, and the haves if anything is.
    method NextBuffer() returns (ready: bool)
      modifies this`writeBuffer, this`requests, this`haves
      ensures old(Stream()) <= Stream() && (old(Plain()) ==> Plain() && |Owed()| == old(|Owed()|))
      ensures ready ==> writeBuffer != [] && (!old(HasWork()) ==> writeBuffer[0] == [])
    {
      hide Flatten, Announced, Answers;
      if writeBuffer == [] {
        if !localChoked && requests != [] {
          AnswerRequest();
        }
        if writeBuffer == [] {
          return false;
        }
      }
      EmptyFirst(writeBuffer);
      WriteHaves();
      ready := true;
    }

    // Sends at most `quota` bytes; what is left of the quota is returned. The
    // socket takes any number of the bytes it is offered, blocks or fails. No
    // byte is lost, repeated or reordered.
    method Send(quota: nat) returns (left: nat, failed: bool)
      modifies this
      ensures left <= quota && |sent| == |old(sent)| + (quota - left)
      ensures open == old(open) && old(sent) <= sent && old(Stream()) <= Stream()
      ensures failed ==> left > 0 && canSend
      ensures localChoked == old(localChoked) && (old(Plain()) ==> Plain() && |Owed()| == old(|Owed()|))
      ensures !old(canSend && HasWork()) ==> left == quota
      ensures canSend ==> old(canSend)
    {
      hide Flatten, Announced, Answers;
      left, failed := quota, false;
      while canSend && left != 0
        invariant left <= quota && |sent| == |old(sent)| + (quota - left)
        invariant open == old(open) && old(sent) <= sent && old(Stream()) <= Stream()
        invariant localChoked == old(localChoked) && (old(Plain()) ==> Plain() && |Owed()| == old(|Owed()|))
        invariant left == quota || old(canSend && HasWork())
        invariant canSend ==> old(canSend)
        invariant left == quota ==> writeBuffer == old(writeBuffer) && requests == old(requests)
        decreases left
      {
        var ready := NextBuffer();
        if !ready {
          return;
        }
        var r := SendFirst(left);
        if r <= 0 {
          return left, r == -1;
        }
        left := left - r;
      }
    }
  }

  lemma TakeFirst(d: Bytes, r: nat, buffer: seq<Bytes>)
    requires buffer != [] && buffer[0] == d && r <= |d|
    ensures Flatten(buffer) == d[..r] + Flatten(if r == |d| then buffer[1..] else [d[r..]] + buffer[1..])
  {
    var rest := [d[r..]] + buffer[1..];
    assert rest[1..] == buffer[1..];
    assert d == d[..r] + d[r..];
  }

  // ----- the scheduler -----

  datatype Link = Link(demand: nat, peer: PeerLink)

  function Demands(links: seq<Link>): (r: seq<nat>)
    ensures |r| == |links| && forall i :: 0 <= i < |r| ==> r[i] == links[i].demand
  {
    seq(|links|, i requires 0 <= i < |links| => links[i].demand)
  }

  predicate Distinct(all: seq<PeerLink>) {
    forall i, j :: 0 <= i < j < |all| ==> all[i] != all[j]
  }

  ghost function SentSizes(all: seq<PeerLink>): seq<nat>
    reads all
  {
    seq(|all|, i requires 0 <= i < |all| reads all => |all[i].sent|)
  }

  // The bytes that the sockets have taken, over all links.
  ghost function SentTotal(all: seq<PeerLink>): nat
    reads all
  {
    Sum(SentSizes(all))
  }

  // The links that used up their allotment.
  function Unfinished(links: seq<Link>, lefts: seq<nat>): (r: seq<Link>)
    requires |links| == |lefts|
    ensures |r| <= |links| && forall l <- r :: l in links
    decreases |links|
  {
    if links == [] then []
    else
      var n := |links| - 1;
      Unfinished(links[..n], lefts[..n]) + if lefts[n] == 0 then [links[n]] else []
  }

  predicate SortedLinks(links: seq<Link>) {
    forall i, j :: 0 <= i <= j < |links| ==> links[i].demand <= links[j].demand
  }

  predicate DistinctPeers(links: seq<Link>) {
    forall i, j :: 0 <= i < j < |links| ==> links[i].peer != links[j].peer
  }

  // Insertion into a multimap: after the links with the same demand.
  function Insert(links: seq<Link>, l: Link): (r: seq<Link>)
    ensures multiset(r) == multiset(links) + multiset{l}
    decreases |links|
  {
    if links == [] || l.demand < links[0].demand then [l] + links
    else
      assert links == [links[0]] + links[1..];
      [links[0]] + Insert(links[1..], l)
  }

  lemma InsertMembers(links: seq<Link>, l: Link)
    ensures forall x :: x in Insert(links, l) <==> x in links || x == l
  {
    forall x
      ensures x in Insert(links, l) <==> x in links || x == l
    {
      assert x in Insert(links, l) <==> x in multiset(Insert(links, l));
      assert x in links <==> x in multiset(links);
    }
  }

  lemma {:induction false} InsertSorted(links: seq<Link>, l: Link)
    requires SortedLinks(links)
    ensures SortedLinks(Insert(links, l))
    decreases |links|
  {
    if links != [] && l.demand >= links[0].demand {
      InsertSorted(links[1..], l);
      var r := Insert(links[1..], l);
      forall i | 0 <= i < |r|
        ensures links[0].demand <= r[i].demand
      {
        assert r[i] in multiset(r);
      }
    }
  }

  lemma {:induction false} InsertDistinct(links: seq<Link>, l: Link)
    requires DistinctPeers(links) && forall k <- links :: k.peer != l.peer
    ensures DistinctPeers(Insert(links, l))
    decreases |links|
  {
    if links != [] && l.demand >= links[0].demand {
      InsertDistinct(links[1..], l);
      var r := Insert(links[1..], l);
      forall i | 0 <= i < |r|
        ensures links[0].peer != r[i].peer
      {
        assert r[i] in multiset(r);
        assert r[i] == l || r[i] in links[1..];
      }
    }
  }

  ghost predicate Competes(l: Link)
    reads l.peer
  {
    l.peer.canSend && l.demand == l.peer.CbWriteBuffer() > 0
  }

  lemma NewPeer(links: seq<Link>, peers: seq<PeerLink>, i: nat)
    requires Distinct(peers) && i < |peers| && forall l <- links :: l.peer in peers[..i]
    ensures forall k <- links :: k.peer != peers[i]
  {
    assert peers[i] !in peers[..i];
  }

  // The links of the first `n` peers that compete.
  ghost predicate Collected(links: seq<Link>, peers: seq<PeerLink>, n: nat)
    requires n <= |peers|
    reads peers
  {
    var now := peers[..n];
    && SortedLinks(links) && (Distinct(peers) ==> DistinctPeers(links))
    && (forall l <- links :: l.peer in now && Competes(l))
    && forall p <- now :: p.canSend && p.CbWriteBuffer() > 0 ==> Link(p.CbWriteBuffer(), p) in links
  }

  // The links that compete for the quota, in the order of their demands: exactly
  // those that can send and have something to send.
  method Collect(peers: seq<PeerLink>) returns (links: seq<Link>)
    ensures SortedLinks(links) && (Distinct(peers) ==> DistinctPeers(links))
    ensures forall l :: l in links <==> l.peer in peers && Competes(l)
    ensures forall p <- peers :: p.canSend && p.HasWork() <==> exists l <- links :: l.peer == p
    ensures forall l <- links :: l.peer.Plain() ==> l.demand == |l.peer.Owed()| - |l.peer.sent|
  {
    links := [];
    assert Collected(links, peers, 0);
    hide Collected;
    for i := 0 to |peers|
      invariant Collected(links, peers, i)
    {
      links := CollectPeer(links, peers[i], peers, i);
    }
    CollectedAll(links, peers);
    forall p <- peers
      ensures p.canSend && p.HasWork() <==> exists l <- links :: l.peer == p
    {
      WorkCompetes(links, peers, p);
    }
    forall l <- links
      ensures l.peer.Plain() ==> l.demand == |l.peer.Owed()| - |l.peer.sent|
    {
      l.peer.WorkIsDemand();
      if l.peer.Plain() {
        l.peer.DemandIsOwed();
      }
    }
  }

  lemma WorkCompetes(links: seq<Link>, peers: seq<PeerLink>, p: PeerLink)
    requires p in peers && forall l :: l in links <==> l.peer in peers && Competes(l)
    ensures p.canSend && p.HasWork() <==> exists l <- links :: l.peer == p
  {
    p.WorkIsDemand();
    if p.canSend && p.HasWork() {
      assert Link(p.CbWriteBuffer(), p) in links;
    }
  }

  lemma CollectedAll(links: seq<Link>, peers: seq<PeerLink>)
    requires Collected(links, peers, |peers|)
    ensures SortedLinks(links) && (Distinct(peers) ==> DistinctPeers(links))
    ensures forall l :: l in links <==> l.peer in peers && Competes(l)
  {
    assert peers[..|peers|] == peers;
    forall l: Link | l.peer in peers && Competes(l)
      ensures l in links
    {
      assert l == Link(l.peer.CbWriteBuffer(), l.peer);
    }
  }

  method CollectPeer(links0: seq<Link>, p: PeerLink, ghost peers: seq<PeerLink>, ghost i: nat)
    returns (links: seq<Link>)
    requires i < |peers| && p == peers[i] && Collected(links0, peers, i)
    ensures Collected(links, peers, i + 1)
  {
    hide SortedLinks, DistinctPeers, Insert;
    links := links0;
    ghost var now := peers[..i + 1];
    assert now == peers[..i] + [p];
    assert forall q :: q in now <==> q in peers[..i] || q == p;
    if p.canSend {
      var cb := p.CbWriteBuffer();
      if cb > 0 {
        InsertSorted(links, Link(cb, p));
        if Distinct(peers) {
          NewPeer(links, peers, i);
          InsertDistinct(links, Link(cb, p));
        }
        InsertMembers(links, Link(cb, p));
        links := Insert(links, Link(cb, p));
      }
    }
    assert SortedLinks(links) && (Distinct(peers) ==> DistinctPeers(links));
    assert forall l <- links :: l.peer in now && Competes(l);
    assert forall p <- now :: p.canSend && p.CbWriteBuffer() > 0 ==> Link(p.CbWriteBuffer(), p) in links;
  }

  lemma {:induction false} UnfinishedSorted(links: seq<Link>, lefts: seq<nat>)
    requires |links| == |lefts| && SortedLinks(links)
    ensures SortedLinks(Unfinished(links, lefts))
    decreases |links|
  {
    if links != [] {
      var n := |links| - 1;
      UnfinishedSorted(links[..n], lefts[..n]);
      forall l | l in Unfinished(links[..n], lefts[..n])
        ensures l.demand <= links[n].demand
      {
        assert l in links[..n];
      }
    }
  }

  lemma {:induction false} UnfinishedDistinct(links: seq<Link>, lefts: seq<nat>)
    requires |links| == |lefts| && DistinctPeers(links)
    ensures DistinctPeers(Unfinished(links, lefts))
    decreases |links|
  {
    if links != [] {
      var n := |links| - 1;
      UnfinishedDistinct(links[..n], lefts[..n]);
      forall l | l in Unfinished(links[..n], lefts[..n])
        ensures l.peer != links[n].peer
      {
        assert l in links[..n];
      }
    }
  }

  lemma {:induction false} AllUnfinished(links: seq<Link>, lefts: seq<nat>)
    requires |links| == |lefts| == |Unfinished(links, lefts)|
    ensures Sum(lefts) == 0
    decreases |links|
  {
    if links != [] {
      var n := |links| - 1;
      AllUnfinished(links[..n], lefts[..n]);
      assert lefts == lefts[..n] + [lefts[n]];
      SumSnoc(lefts[..n], lefts[n]);
    }
  }

  // `quotas[i]` is what is left of the quota when link `i` is reached.
  ghost predicate Plan(demands: seq<nat>, a: seq<nat>, quotas: seq<nat>) {
    |a| == |demands| && |quotas| == |demands| + 1 &&
    forall i :: 0 <= i < |demands| ==> Grant(demands[i], quotas[i], |demands| - i, a[i], quotas[i + 1])
  }

  ghost predicate Grant(demand: nat, quota: nat, links: nat, q: nat, next: nat)
    requires links > 0
  {
    q == Min(demand, quota / links) && next == quota - q
  }

  lemma GrantOf(demands: seq<nat>, a: seq<nat>, quotas: seq<nat>, i: nat)
    requires Plan(demands, a, quotas) && i < |demands|
    ensures Grant(demands[i], quotas[i], |demands| - i, a[i], quotas[i + 1])
  {
  }

  lemma {:induction false} AllotIsPlanned(quota: nat, demands: seq<nat>) returns (quotas: seq<nat>)
    ensures Plan(demands, Allot(quota, demands), quotas)
    ensures quotas[0] == quota && quotas[|demands|] + Sum(Allot(quota, demands)) == quota
    decreases |demands|
  {
    quotas := [quota];
    var a := Allot(quota, demands);
    if demands != [] {
      Share(quota, |demands|);
      var rest := AllotIsPlanned(quota - a[0], demands[1..]);
      assert a[1..] == Allot(quota - a[0], demands[1..]);
      quotas := quotas + rest;
      forall i | 0 <= i < |demands|
        ensures Grant(demands[i], quotas[i], |demands| - i, a[i], quotas[i + 1])
      {
        if i > 0 {
          assert Grant(demands[1..][i - 1], rest[i - 1], |demands[1..]| - (i - 1), a[1..][i - 1], rest[i]);
        }
      }
    }
  }

  predicate AtMost(s: seq<nat>, t: seq<nat>) {
    |s| <= |t| && forall i :: 0 <= i < |s| ==> s[i] <= t[i]
  }

  lemma {:induction false} LeftsStep(links: seq<Link>, lefts: seq<nat>, a: seq<nat>, i: nat, l: nat)
    returns (next: seq<nat>)
    requires i < |links| == |a| && |lefts| == i && AtMost(lefts, a) && l <= a[i]
    ensures next == lefts + [l] && AtMost(next, a) && Sum(next) == Sum(lefts) + l
    ensures Unfinished(links[..i + 1], next) == Unfinished(links[..i], lefts) + if l == 0 then [links[i]] else []
  {
    next := lefts + [l];
    SumSnoc(lefts, l);
    assert links[..i + 1][..i] == links[..i] && next[..i] == lefts;
  }

  // The socket of a link has taken `n` bytes more than the `was` it had taken.
  ghost predicate Served(l: Link, was: nat, n: int)
    reads l.peer
  {
    |l.peer.sent| == was + n
  }

  // What link `i` took of its allotment, once it was offered it.
  function Took(a: seq<nat>, lefts: seq<nat>, i: nat): int
    requires i < |a|
  {
    if i < |lefts| then (a[i] as int) - lefts[i] else 0
  }

  ghost function SentOf(links: seq<Link>): (r: seq<nat>)
    reads set l | l in links :: l.peer
    ensures |r| == |links| && forall i :: 0 <= i < |r| ==> r[i] == |links[i].peer.sent|
  {
    seq(|links|, i requires 0 <= i < |links| reads set l | l in links :: l.peer => |links[i].peer.sent|)
  }

  // The first `|lefts|` links have been offered their allotments.
  ghost predicate ServedAll(links: seq<Link>, was: seq<nat>, a: seq<nat>, lefts: seq<nat>)
    requires |lefts| <= |links| == |was| == |a|
    reads set l | l in links :: l.peer
  {
    forall i :: 0 <= i < |links| ==> Served(links[i], was[i], Took(a, lefts, i))
  }

  lemma NotServedYet(links: seq<Link>, was: seq<nat>, a: seq<nat>)
    requires |links| == |was| == |a| && forall i :: 0 <= i < |links| ==> was[i] == |links[i].peer.sent|
    ensures ServedAll(links, was, a, [])
  {
  }

  lemma ServedLinks(links: seq<Link>, was: seq<nat>, a: seq<nat>, lefts: seq<nat>)
    requires |links| == |was| == |a| == |lefts| && (DistinctPeers(links) ==> ServedAll(links, was, a, lefts))
    ensures DistinctPeers(links) ==> forall i :: 0 <= i < |links| ==> Served(links[i], was[i], Took(a, lefts, i))
  {
  }

  class Server {
    var sendQuota: nat

    // One turn of the outer loop. Every link is offered exactly its allotment;
    // what the links do not use goes back to the quota, and such links leave.
    method Pass(links: seq<Link>, ghost all: seq<PeerLink>) returns (rest: seq<Link>, ghost lefts: seq<nat>)
      requires forall l <- links :: l.peer in all
      requires Distinct(all)
      modifies this, all
      ensures |lefts| == |links| && rest == Unfinished(links, lefts)
      ensures var a := Allot(old(sendQuota), Demands(links));
        && AtMost(lefts, a)
        && sendQuota + Sum(a) == old(sendQuota) + Sum(lefts)
      ensures DistinctPeers(links) ==> forall i :: 0 <= i < |links| ==>
        Served(links[i], old(|links[i].peer.sent|), Took(Allot(old(sendQuota), Demands(links)), lefts, i))
      ensures sendQuota + SentTotal(all) == old(sendQuota + SentTotal(all))
    {
      hide Allot, Plan, Grant, Unfinished, SentTotal, DistinctPeers, ServedAll;
      rest, lefts := [], [];
      var left, j, i := 0, |links|, 0;
      ghost var demands := Demands(links);
      ghost var a := Allot(sendQuota, demands);
      ghost var quotas := AllotIsPlanned(sendQuota, demands);
      ghost var was := SentOf(links);
      NotServedYet(links, was, a);
      while i < |links|
        invariant 0 <= i <= |links| == i + j && |lefts| == i
        invariant rest == Unfinished(links[..i], lefts) && left == Sum(lefts)
        invariant sendQuota == quotas[i] && AtMost(lefts, a)
        invariant DistinctPeers(links) ==> ServedAll(links, was, a, lefts)
        invariant sendQuota + left + SentTotal(all) == old(sendQuota + SentTotal(all))
      {
        GrantOf(demands, a, quotas, i);
        var l := Turn(links, i, j, was, a, lefts, quotas[i + 1], all);
        lefts := LeftsStep(links, lefts, a, i, l);
        left := left + l;
        if l == 0 {
          rest := rest + [links[i]];
        }
        i, j := i + 1, j - 1;
      }
      assert links[..i] == links;
      sendQuota := sendQuota + left;
      ServedLinks(links, was, a, lefts);
    }

    // One turn of the inner loop.
    method Turn(links: seq<Link>, i: nat, j: nat, ghost was: seq<nat>, ghost a: seq<nat>, ghost lefts: seq<nat>,
      ghost next: nat, ghost all: seq<PeerLink>) returns (l: nat)
      requires Distinct(all) && i < |links| && links[i].peer in all
      requires |links| == |was| == |a| && |lefts| == i && (DistinctPeers(links) ==> ServedAll(links, was, a, lefts))
      requires j > 0 && Grant(links[i].demand, sendQuota, j, a[i], next)
      modifies this, links[i].peer
      ensures sendQuota == next == old(sendQuota) - a[i] && l <= a[i]
      ensures SentTotal(all) == old(SentTotal(all)) + a[i] - l
      ensures DistinctPeers(links) ==> ServedAll(links, was, a, lefts + [l])
    {
      hide SentTotal, Grant;
      assert DistinctPeers(links) ==> Served(links[i], was[i], 0);
      l := Offer(links[i], j, a[i], next, all);
      if DistinctPeers(links) {
        forall k | 0 <= k < |links|
          ensures Served(links[k], was[k], Took(a, lefts + [l], k))
        {
          assert old(Served(links[k], was[k], Took(a, lefts, k)));
          assert k == i || links[k].peer != links[i].peer;
        }
      }
    }

    // Offers a link its share, `q`, of what is left for `j` links.
    method Offer(link: Link, j: nat, ghost q0: nat, ghost next: nat, ghost all: seq<PeerLink>) returns (left: nat)
      requires link.peer in all && Distinct(all)
      requires j > 0 && Grant(link.demand, sendQuota, j, q0, next)
      modifies this`sendQuota, link.peer
      ensures sendQuota == next == old(sendQuota) - q0 && left <= q0
      ensures SentTotal(all) == old(SentTotal(all)) + q0 - left
      ensures Served(link, old(|link.peer.sent|), q0 - left)
    {
      var q := Min(link.demand, sendQuota / j);
      sendQuota := sendQuota - q;
      left := SendTo(link.peer, q, all);
    }

    method SendTo(peer: PeerLink, q: nat, ghost all: seq<PeerLink>) returns (left: nat)
      requires peer in all && Distinct(all)
      modifies peer
      ensures sendQuota == old(sendQuota)
      ensures left <= q && SentTotal(all) == old(SentTotal(all)) + q - left
      ensures |peer.sent| == |old(peer.sent)| + q - left
      ensures left == 0 ==> peer.open == old(peer.open)
    {
      ghost var sizes := SentSizes(all);
      var failed;
      left, failed := peer.Send(q);
      if failed {
        peer.Close();
      }
      ghost var p :| 0 <= p < |all| && all[p] == peer;
      assert SentSizes(all) == sizes[p := |peer.sent|];
      SumUpdate(sizes, p, |peer.sent|);
    }

    // The whole loop: it stops, with the quota used up or with every link
    // unable to use its share, and no byte is sent without being paid for.
    method SendAll(links0: seq<Link>, ghost all: seq<PeerLink>) returns (links: seq<Link>)
      requires SortedLinks(links0) && forall l <- links0 :: l.peer in all && l.demand > 0
      requires Distinct(all)
      modifies this, all
      ensures sendQuota == 0 || links == []
      ensures (forall l <- links :: l in links0) && (DistinctPeers(links0) ==> DistinctPeers(links))
      ensures sendQuota + SentTotal(all) == old(sendQuota + SentTotal(all))
    {
      links := links0;
      while sendQuota != 0 && links != []
        invariant SortedLinks(links) && forall l <- links :: l in links0
        invariant DistinctPeers(links0) ==> DistinctPeers(links)
        invariant sendQuota + SentTotal(all) == old(sendQuota + SentTotal(all))
        decreases sendQuota + |links|
      {
        ghost var before, quota, lefts := links, sendQuota, [];
        links, lefts := Pass(links, all);
        UnfinishedSorted(before, lefts);
        if DistinctPeers(before) {
          UnfinishedDistinct(before, lefts);
        }
        PassProgresses(quota, before, lefts);
      }
    }
  }

  // Either a link leaves, or the whole of min(quota, demand) was sent.
  lemma {:induction false} PassProgresses(quota: nat, links: seq<Link>, lefts: seq<nat>)
    requires quota > 0 && links != [] && SortedLinks(links) && forall l <- links :: l.demand > 0
    requires |lefts| == |links| && AtMost(lefts, Allot(quota, Demands(links)))
    ensures var a := Allot(quota, Demands(links));
      quota - Sum(a) + Sum(lefts) + |Unfinished(links, lefts)| < quota + |links|
  {
    var demands := Demands(links);
    var a := Allot(quota, demands);
    hide Allot, Unfinished, Sum;
    var level := PassIsFair(quota, demands);
    SumBound(lefts, a);
    if |Unfinished(links, lefts)| == |links| {
      AllUnfinished(links, lefts);
      SumPositive(demands, 0);
    }
  }
}
