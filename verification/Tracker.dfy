// The peer tables of the tracker, and the seeders and leechers it has counted
// for every torrent and every user.
module Tracker {

  type InfoHash = string
  type Uid = x: int | -0x8000_0000 <= x <= 0x7fff_ffff

  datatype Key = Key(host: int, uid: Uid)

  datatype Peer = Peer(downloaded: int, uploaded: int, mtime: int, uid: Uid, port: int, left: bool,
    peerId: string)

  datatype File = File(peers: map<Key, Peer>, ctime: int, completed: int, leechers: int, seeders: int)

  datatype User = User(canLeech: bool, marked: bool, completes: int, incompletes: int, peersLimit: int,
    torrentsLimit: int, waitTime: int) {
    // The part of a user that does not count peers.
    function Terms(): (bool, int, int, int) {
      (canLeech, peersLimit, torrentsLimit, waitTime)
    }

    function Add(left: bool, n: int): User {
      if left then this.(incompletes := incompletes + n) else this.(completes := completes + n)
    }
  }

  datatype Event = None | Completed | Started | Stopped

  datatype Announce = Announce(event: Event, infoHash: InfoHash, host: int, port: int, peerId: string,
    downloaded: int, uploaded: int, left: int)

  datatype Reply = Accepted | Offline | UnregisteredPass | UnregisteredTorrent | CanNotLeech | WaitTime
    | TorrentsLimit | PeersLimit

  // ----- counting -----

  function PeersWith(peers: map<Key, Peer>, left: bool): set<Key> {
    set k | k in peers && peers[k].left == left
  }

  function PeersOfUser(files: map<InfoHash, File>, u: Uid, left: bool): set<(InfoHash, Key)> {
    set h, k | h in files && k in files[h].peers && files[h].peers[k].uid == u && files[h].peers[k].left == left ::
      (h, k)
  }

  function One(b: bool): nat {
    if b then 1 else 0
  }

  function Has(peers: map<Key, Peer>, k: Key, left: bool): bool {
    k in peers && peers[k].left == left
  }

  function HasOfUser(peers: map<Key, Peer>, k: Key, u: Uid, left: bool): bool {
    k in peers && peers[k].uid == u && peers[k].left == left
  }

  // Peer tables that differ at `k` only.
  ghost predicate SameBut(a: map<Key, Peer>, b: map<Key, Peer>, k: Key) {
    forall x :: x != k ==> (x in a <==> x in b) && (x in a ==> a[x] == b[x])
  }

  lemma Without<T>(s: set<T>, x: T)
    ensures |s| == |s - {x}| + One(x in s)
  {
    if x in s {
      assert s == (s - {x}) + {x};
    } else {
      assert s == s - {x};
    }
  }

  lemma OneApart<T>(s: set<T>, t: set<T>, x: T)
    requires forall y :: y != x ==> (y in s <==> y in t)
    ensures |t| == |s| - One(x in s) + One(x in t)
  {
    assert s - {x} == t - {x};
    Without(s, x);
    Without(t, x);
  }

  lemma {:induction false} CountsMove(a: map<Key, Peer>, b: map<Key, Peer>, k: Key, left: bool)
    requires SameBut(a, b, k)
    ensures |PeersWith(b, left)| == |PeersWith(a, left)| - One(Has(a, k, left)) + One(Has(b, k, left))
  {
    OneApart(PeersWith(a, left), PeersWith(b, left), k);
  }

  function PeersAt(files: map<InfoHash, File>, h: InfoHash): map<Key, Peer> {
    if h in files then files[h].peers else map[]
  }

  ghost predicate SameButAt(a: map<InfoHash, File>, b: map<InfoHash, File>, h: InfoHash, k: Key) {
    (forall x :: x != h ==> PeersAt(a, x) == PeersAt(b, x)) && SameBut(PeersAt(a, h), PeersAt(b, h), k)
  }

  lemma {:induction false} UserCountsMove(a: map<InfoHash, File>, b: map<InfoHash, File>, h: InfoHash, k: Key, u: Uid,
                                          left: bool)
    requires SameButAt(a, b, h, k)
    ensures |PeersOfUser(b, u, left)| == |PeersOfUser(a, u, left)|
      - One(HasOfUser(PeersAt(a, h), k, u, left)) + One(HasOfUser(PeersAt(b, h), k, u, left))
  {
    hide PeersOfUser;
    var s, t := PeersOfUser(a, u, left), PeersOfUser(b, u, left);
    forall x: (InfoHash, Key) | x != (h, k)
      ensures x in s <==> x in t
    {
      assert x == (x.0, x.1);
      assert x.0 != h ==> PeersAt(a, x.0) == PeersAt(b, x.0);
      InPeersOfUser(a, u, left, x.0, x.1);
      InPeersOfUser(b, u, left, x.0, x.1);
    }
    InPeersOfUser(a, u, left, h, k);
    InPeersOfUser(b, u, left, h, k);
    OneApart(s, t, (h, k));
  }

  lemma InPeersOfUser(files: map<InfoHash, File>, u: Uid, left: bool, h: InfoHash, k: Key)
    ensures (h, k) in PeersOfUser(files, u, left) <==> HasOfUser(PeersAt(files, h), k, u, left)
  {
  }

  // ----- the tables -----

  ghost predicate FileCounted(f: File) {
    f.leechers == |PeersWith(f.peers, true)| && f.seeders == |PeersWith(f.peers, false)|
  }

  ghost predicate UserCounted(files: map<InfoHash, File>, users: map<Uid, User>, u: Uid)
    requires u in users
  {
    users[u].incompletes == |PeersOfUser(files, u, true)| && users[u].completes == |PeersOfUser(files, u, false)|
  }

  ghost predicate UsersCounted(files: map<InfoHash, File>, users: map<Uid, User>) {
    0 !in users && forall u :: u in users ==> UserCounted(files, users, u)
  }

  // The counters of a user move as his peers do, and his terms stay.
  ghost predicate UserFollows(a: map<InfoHash, File>, us: map<Uid, User>, b: map<InfoHash, File>, vs: map<Uid, User>,
    u: Uid)
    requires u in us && u in vs
  {
    && vs[u].Terms() == us[u].Terms()
    && vs[u].incompletes - us[u].incompletes == |PeersOfUser(b, u, true)| - |PeersOfUser(a, u, true)|
    && vs[u].completes - us[u].completes == |PeersOfUser(b, u, false)| - |PeersOfUser(a, u, false)|
  }

  ghost predicate Follow(a: map<InfoHash, File>, us: map<Uid, User>, b: map<InfoHash, File>, vs: map<Uid, User>) {
    us.Keys == vs.Keys && forall u :: u in us ==> UserFollows(a, us, b, vs, u)
  }

  lemma {:induction false} FollowKeepsCounted(a: map<InfoHash, File>, us: map<Uid, User>, b: map<InfoHash, File>,
    vs: map<Uid, User>)
    requires Follow(a, us, b, vs)
    ensures UsersCounted(a, us) ==> UsersCounted(b, vs)
  {
    forall u | u in vs && UsersCounted(a, us)
      ensures UserCounted(b, vs, u)
    {
      assert UserCounted(a, us, u) && UserFollows(a, us, b, vs, u);
    }
  }

  lemma {:induction false} FollowTwice(a: map<InfoHash, File>, us: map<Uid, User>, b: map<InfoHash, File>,
    vs: map<Uid, User>, c: map<InfoHash, File>, ws: map<Uid, User>)
    requires Follow(a, us, b, vs) && Follow(b, vs, c, ws)
    ensures Follow(a, us, c, ws)
  {
    forall u | u in us
      ensures UserFollows(a, us, c, ws, u)
    {
      assert UserFollows(a, us, b, vs, u) && UserFollows(b, vs, c, ws, u);
    }
  }

  function Uncount(f: File, p: Peer): File {
    if p.left then f.(leechers := f.leechers - 1) else f.(seeders := f.seeders - 1)
  }

  function UncountUser(users: map<Uid, User>, p: Peer): map<Uid, User> {
    if p.uid in users then users[p.uid := users[p.uid].Add(p.left, -1)] else users
  }

  // One peer less in file `h`, with the counters that go with it.
  lemma {:induction false} PeerLeaves(a: map<InfoHash, File>, b: map<InfoHash, File>, users: map<Uid, User>,
    h: InfoHash, k: Key)
    requires h in a && k in a[h].peers && SameButAt(a, b, h, k) && k !in PeersAt(b, h)
    ensures Follow(a, users, b, UncountUser(users, a[h].peers[k]))
  {
    var now := UncountUser(users, a[h].peers[k]);
    forall u | u in users
      ensures UserFollows(a, users, b, now, u)
    {
      UserCountsMove(a, b, h, k, u, true);
      UserCountsMove(a, b, h, k, u, false);
    }
  }

  lemma PeerForgotten(a: map<InfoHash, File>, us: map<Uid, User>, b: map<InfoHash, File>, vs: map<Uid, User>,
    h: InfoHash, k: Key) returns (c: map<InfoHash, File>)
    requires Follow(a, us, b, vs) && h in b && k in b[h].peers
    ensures c == b[h := b[h].(peers := b[h].peers - {k})] && Follow(a, us, c, UncountUser(vs, b[h].peers[k]))
  {
    c := b[h := b[h].(peers := b[h].peers - {k})];
    PeerLeaves(b, c, vs, h, k);
    FollowTwice(a, us, b, vs, c, UncountUser(vs, b[h].peers[k]));
  }

  function CountUser(users: map<Uid, User>, p: Peer): map<Uid, User> {
    if p.uid in users then users[p.uid := users[p.uid].Add(p.left, 1)] else users
  }

  lemma {:induction false} PeerArrives(a: map<InfoHash, File>, b: map<InfoHash, File>, users: map<Uid, User>,
    h: InfoHash, k: Key)
    requires SameButAt(a, b, h, k) && k !in PeersAt(a, h) && h in b && k in b[h].peers
    ensures Follow(a, users, b, CountUser(users, b[h].peers[k]))
  {
    var now := CountUser(users, b[h].peers[k]);
    forall u | u in users
      ensures UserFollows(a, users, b, now, u)
    {
      UserCountsMove(a, b, h, k, u, true);
      UserCountsMove(a, b, h, k, u, false);
    }
  }

  // Torrents without peers do not matter.
  lemma {:induction false} SamePeersCount(a: map<InfoHash, File>, b: map<InfoHash, File>, users: map<Uid, User>)
    requires forall h :: PeersAt(a, h) == PeersAt(b, h)
    ensures Follow(a, users, b, users)
  {
    forall u, left
      ensures PeersOfUser(a, u, left) == PeersOfUser(b, u, left)
    {
      forall h, k
        ensures (h, k) in PeersOfUser(a, u, left) <==> (h, k) in PeersOfUser(b, u, left)
      {
        InPeersOfUser(a, u, left, h, k);
        InPeersOfUser(b, u, left, h, k);
        assert PeersAt(a, h) == PeersAt(b, h);
      }
    }
    forall u | u in users
      ensures UserFollows(a, users, b, users, u)
    {
      assert PeersOfUser(a, u, true) == PeersOfUser(b, u, true) && PeersOfUser(a, u, false) == PeersOfUser(b, u, false);
    }
  }

  lemma FollowKeepsTerms(a: map<InfoHash, File>, us: map<Uid, User>, b: map<InfoHash, File>, vs: map<Uid, User>)
    requires Follow(a, us, b, vs)
    ensures us.Keys == vs.Keys && forall u :: u in us ==> vs[u].Terms() == us[u].Terms()
  {
    forall u | u in us
      ensures vs[u].Terms() == us[u].Terms()
    {
      assert UserFollows(a, us, b, vs, u);
    }
  }

  lemma FollowNothing(files: map<InfoHash, File>, users: map<Uid, User>)
    ensures Follow(files, users, files, users)
  {
  }

  // ----- reading the users again -----

  datatype Row = Row(uid: Uid, canLeech: bool, peersLimit: int, torrentsLimit: int, waitTime: int)

  // Which columns the table of users has.
  datatype Columns = Columns(canLeech: bool, peersLimit: bool, torrentsLimit: bool, waitTime: bool)

  const NEW_USER := User(true, false, 0, 0, 0, 0, 0)

  function Uids(rows: seq<Row>): set<Uid> {
    set i | 0 <= i < |rows| :: rows[i].uid
  }

  function ReadRow(users: map<Uid, User>, row: Row, c: Columns): map<Uid, User> {
    var u := if row.uid in users then users[row.uid] else NEW_USER;
    users[row.uid := u.(
      marked := false,
      canLeech := if c.canLeech then row.canLeech else u.canLeech,
      peersLimit := if c.peersLimit then row.peersLimit else u.peersLimit,
      torrentsLimit := if c.torrentsLimit then row.torrentsLimit else u.torrentsLimit,
      waitTime := if c.waitTime then row.waitTime else u.waitTime)]
  }

  function ReadRows(users: map<Uid, User>, rows: seq<Row>, c: Columns): map<Uid, User> {
    if rows == [] then users else ReadRow(ReadRows(users, rows[..|rows| - 1], c), rows[|rows| - 1], c)
  }

  function MarkAll(users: map<Uid, User>): map<Uid, User> {
    map u | u in users :: users[u].(marked := true)
  }

  function Unmarked(users: map<Uid, User>): map<Uid, User> {
    map u | u in users && !users[u].marked :: users[u]
  }

  // The users after the table has been read again.
  function Reread(users: map<Uid, User>, rows: seq<Row>, c: Columns): map<Uid, User> {
    Unmarked(ReadRows(MarkAll(users), rows, c))
  }

  lemma UidsSnoc(rows: seq<Row>)
    requires rows != []
    ensures Uids(rows) == Uids(rows[..|rows| - 1]) + {rows[|rows| - 1].uid}
  {
    forall u | u in Uids(rows)
      ensures u in Uids(rows[..|rows| - 1]) + {rows[|rows| - 1].uid}
    {
      var i :| 0 <= i < |rows| && rows[i].uid == u;
      assert i < |rows| - 1 ==> rows[..|rows| - 1][i].uid == u;
    }
    forall u | u in Uids(rows[..|rows| - 1])
      ensures u in Uids(rows)
    {
      var i :| 0 <= i < |rows| - 1 && rows[..|rows| - 1][i].uid == u;
      assert rows[i].uid == u;
    }
  }

  // Rows keep the counters of the users there are, and start new ones at zero.
  lemma {:induction false} ReadRowsKeep(users: map<Uid, User>, rows: seq<Row>, c: Columns)
    ensures var r := ReadRows(MarkAll(users), rows, c);
      && r.Keys == users.Keys + Uids(rows)
      && forall u :: u in r ==>
        && (r[u].marked <==> u !in Uids(rows))
        && r[u].incompletes == (if u in users then users[u].incompletes else 0)
        && r[u].completes == (if u in users then users[u].completes else 0)
    decreases |rows|
  {
    if rows != [] {
      ReadRowsKeep(users, rows[..|rows| - 1], c);
      UidsSnoc(rows);
    }
  }

  // The terms of a user are those of his last row, where the table has a column
  // for them; without, they stay, and a new user may leech without limits.
  ghost predicate TermsOf(r: map<Uid, User>, users: map<Uid, User>, row: Row, c: Columns) {
    var u, known := row.uid, row.uid in users;
    && u in r
    && r[u].canLeech == (if c.canLeech then row.canLeech else if known then users[u].canLeech else true)
    && r[u].peersLimit == (if c.peersLimit then row.peersLimit else if known then users[u].peersLimit else 0)
    && r[u].torrentsLimit ==
         (if c.torrentsLimit then row.torrentsLimit else if known then users[u].torrentsLimit else 0)
    && r[u].waitTime == (if c.waitTime then row.waitTime else if known then users[u].waitTime else 0)
  }

  predicate IsLast(rows: seq<Row>, i: nat)
    requires i < |rows|
  {
    forall j :: i < j < |rows| ==> rows[j].uid != rows[i].uid
  }

  lemma RereadTerms(users: map<Uid, User>, rows: seq<Row>, c: Columns, i: nat)
    requires i < |rows| && IsLast(rows, i)
    ensures TermsOf(Reread(users, rows, c), users, rows[i], c)
  {
    hide ReadRows, MarkAll;
    ReadRowsTerms(users, rows, c, i);
    ReadRowsKeep(users, rows, c);
    assert rows[i].uid in Uids(rows);
  }

  lemma {:induction false} ReadRowsTerms(users: map<Uid, User>, rows: seq<Row>, c: Columns, i: nat)
    requires i < |rows| && IsLast(rows, i)
    ensures TermsOf(ReadRows(MarkAll(users), rows, c), users, rows[i], c)
    decreases |rows|
  {
    var n := |rows| - 1;
    if i < n {
      ReadRowsTerms(users, rows[..n], c, i);
    } else {
      UnlistedTerms(users, rows[..n], c, rows[n].uid);
    }
  }

  // What no column says stays.
  lemma {:induction false} UnlistedTerms(users: map<Uid, User>, rows: seq<Row>, c: Columns, u: Uid)
    ensures var r := ReadRows(MarkAll(users), rows, c);
      var was := if u in users then users[u] else NEW_USER; var now := if u in r then r[u] else NEW_USER;
      && (!c.canLeech ==> now.canLeech == was.canLeech) && (!c.peersLimit ==> now.peersLimit == was.peersLimit)
      && (!c.torrentsLimit ==> now.torrentsLimit == was.torrentsLimit)
      && (!c.waitTime ==> now.waitTime == was.waitTime)
    decreases |rows|
  {
    if rows != [] {
      UnlistedTerms(users, rows[..|rows| - 1], c, u);
    }
  }

  ghost predicate HasPeers(files: map<InfoHash, File>, u: Uid) {
    exists h, k :: h in files && k in files[h].peers && files[h].peers[k].uid == u
  }

  lemma NoPeersIff(files: map<InfoHash, File>, u: Uid)
    ensures !HasPeers(files, u) <==> |PeersOfUser(files, u, true)| == 0 && |PeersOfUser(files, u, false)| == 0
  {
    if h, k :| h in files && k in files[h].peers && files[h].peers[k].uid == u {
      InPeersOfUser(files, u, files[h].peers[k].left, h, k);
    } else {
      assert PeersOfUser(files, u, true) == {} && PeersOfUser(files, u, false) == {};
    }
  }

  // Reading the users again is safe exactly if none of the users that are new
  // has a peer that is still there.
  lemma {:induction false} RereadCountedIff(files: map<InfoHash, File>, users: map<Uid, User>, rows: seq<Row>,
                                            c: Columns)
    requires UsersCounted(files, users)
    ensures var now := Reread(users, rows, c);
      (forall u :: u in now ==> UserCounted(files, now, u)) <==>
        forall u :: u in Uids(rows) && u !in users ==> !HasPeers(files, u)
  {
    var now := Reread(users, rows, c);
    ReadRowsKeep(users, rows, c);
    forall u | u in now
      ensures UserCounted(files, now, u) <==> u in users || !HasPeers(files, u)
    {
      NoPeersIff(files, u);
      assert u in users ==> UserCounted(files, users, u);
    }
    assert forall u :: u in now <==> u in Uids(rows);
  }

  // Nobody may have number 0. A peer without a user has that number: it comes
  // without being counted, and is counted off when it goes.
  lemma {:induction false} UserZeroFails(files: map<InfoHash, File>, users: map<Uid, User>, h: InfoHash, k: Key,
                                         p: Peer)
    requires 0 in users && UserCounted(files, users, 0) && h in files && k !in files[h].peers && p.uid == 0
    ensures !UserCounted(files[h := files[h].(peers := files[h].peers[k := p])], users, 0)
    ensures !UserCounted(files, UncountUser(users, p), 0)
  {
    var now := files[h := files[h].(peers := files[h].peers[k := p])];
    UserCountsMove(files, now, h, k, 0, p.left);
  }

  function Leeching(peers: map<Key, Peer>, u: Uid): set<Key> {
    set k | k in peers && peers[k].left && peers[k].uid == u
  }

  class Tracker {
    const peersKey: bool
    const offline: bool
    const anonymousAnnounce: bool
    const autoRegister: bool
    var files: map<InfoHash, File>
    var users: map<Uid, User>

    // The counters of the torrents are right, and nobody is number 0.
    ghost predicate Tables()
      reads this
    {
      (forall h :: h in files ==> FileCounted(files[h])) && 0 !in users
    }

    // The counters of the users are right too.
    ghost predicate Valid()
      reads this
    {
      Tables() && UsersCounted(files, users)
    }

    // A tracker with users that have no peers yet.
    constructor (peersKey: bool, offline: bool, anonymousAnnounce: bool, autoRegister: bool, users: map<Uid, User>)
      requires 0 !in users && forall u :: u in users ==> users[u].completes == 0 == users[u].incompletes
      ensures Valid() && files == map[] && this.users == users && this.peersKey == peersKey
      ensures this.offline == offline && this.anonymousAnnounce == anonymousAnnounce
      ensures this.autoRegister == autoRegister
    {
      this.peersKey, this.offline := peersKey, offline;
      this.anonymousAnnounce, this.autoRegister := anonymousAnnounce, autoRegister;
      files, this.users := map[], users;
    }

    // Peers are told apart by their host; by their user too if so compiled.
    function KeyOf(host: int, uid: Uid): Key {
      Key(host, if peersKey then uid else 0)
    }

    function PeerOf(v: Announce, uid: Uid, now: int): Peer {
      Peer(v.downloaded, v.uploaded, now, uid, v.port, v.left != 0, v.peerId)
    }

    // Whether user `uid` may have one more leeching peer among these.
    function Limited(peers: map<Key, Peer>, uid: Uid): Reply
      requires uid in users
      reads this
    {
      if users[uid].torrentsLimit != 0 && users[uid].incompletes >= users[uid].torrentsLimit then TorrentsLimit
      else if users[uid].peersLimit != 0 && |Leeching(peers, uid)| >= users[uid].peersLimit then PeersLimit
      else Accepted
    }

    // The reply to an announce for a torrent created at `ctime`.
    function ReplyTo(v: Announce, uid: Uid, now: int, ctime: int): Reply
      requires uid == 0 || uid in users
      reads this
    {
      var leecher := v.left != 0 && uid != 0;
      if offline then Offline
      else if uid == 0 && !anonymousAnnounce then UnregisteredPass
      else if v.infoHash !in files && !autoRegister then UnregisteredTorrent
      else if leecher && !users[uid].canLeech then CanNotLeech
      else if leecher && users[uid].waitTime != 0 && ctime + users[uid].waitTime > now then WaitTime
      else if leecher && KeyOf(v.host, uid) !in PeersAt(files, v.infoHash) then Limited(PeersAt(files, v.infoHash), uid)
      else Accepted
    }

    // When a leecher is refused: never for his waiting time once he has waited, and
    // never by a limit that he is below, or that is 0.
    ghost predicate Fair(v: Announce, uid: Uid, now: int, ctime: int, r: Reply)
      requires uid == 0 || uid in users
      reads this
    {
      var leecher := v.left != 0 && uid != 0;
      var joins := leecher && Key(v.host, if peersKey then uid else 0) !in PeersAt(files, v.infoHash);
      && (r == Offline <==> offline)
      && (r == UnregisteredPass ==> uid == 0 && !anonymousAnnounce)
      && (r == UnregisteredTorrent ==> v.infoHash !in files && !autoRegister)
      && (r == CanNotLeech ==> leecher && !users[uid].canLeech)
      && (r == WaitTime ==> leecher && users[uid].waitTime != 0 && ctime + users[uid].waitTime > now)
      && (r == TorrentsLimit ==> joins && 0 != users[uid].torrentsLimit <= users[uid].incompletes)
      && (r == PeersLimit ==> joins && 0 != users[uid].peersLimit <= |Leeching(PeersAt(files, v.infoHash), uid)|)
      && (r == Accepted ==>
            && (uid == 0 ==> anonymousAnnounce) && (v.infoHash in files || autoRegister)
            && (leecher ==> users[uid].canLeech)
            && (leecher && users[uid].waitTime != 0 ==> ctime + users[uid].waitTime <= now)
            && (joins && users[uid].torrentsLimit != 0 ==> users[uid].incompletes < users[uid].torrentsLimit)
            && (joins && users[uid].peersLimit != 0 ==>
                  |Leeching(PeersAt(files, v.infoHash), uid)| < users[uid].peersLimit))
    }

    lemma ReplyIsFair(v: Announce, uid: Uid, now: int, ctime: int)
      requires uid == 0 || uid in users
      ensures Fair(v, uid, now, ctime, ReplyTo(v, uid, now, ctime))
    {
    }

    // The peer that an announce makes.
    lemma PeerOfAnnounce(v: Announce, uid: Uid, now: int)
      ensures KeyOf(v.host, uid).host == v.host && KeyOf(v.host, uid).uid == (if peersKey then uid else 0)
      ensures var p := PeerOf(v, uid, now);
        && (p.left <==> v.left != 0) && p.uid == uid && p.mtime == now && p.port == v.port && p.peerId == v.peerId
        && p.downloaded == v.downloaded && p.uploaded == v.uploaded
    {
    }

    // An announce by user `uid`, or by nobody if it is 0.
    method InsertPeer(v: Announce, uid: Uid, now: int) returns (r: Reply, ghost ctime: int)
      requires Tables() && (uid == 0 || uid in users)
      modifies this
      ensures Tables() && Follow(old(files), old(users), files, users) && (old(Valid()) ==> Valid())
      ensures files - {v.infoHash} == old(files) - {v.infoHash}
      ensures PeersAt(files, v.infoHash) ==
        (var p := PeersAt(old(files), v.infoHash); var k := KeyOf(v.host, uid);
         if r != Accepted then p
         else if v.event == Stopped then p - {k}
         else p[k := PeerOf(v, uid, now)])
      ensures v.infoHash in files ==>
        (var c := if v.infoHash in old(files) then old(files)[v.infoHash].completed else 0;
         files[v.infoHash].completed == c + One(r == Accepted && v.event == Completed))
      ensures r == old(ReplyTo(v, uid, now, ctime)) && old(Fair(v, uid, now, ctime, r))
      ensures r == Accepted && v.event != Stopped ==> var k := Key(v.host, if peersKey then uid else 0);
        && v.infoHash in files && k in files[v.infoHash].peers && files[v.infoHash].peers[k].uid == uid
        && files[v.infoHash].peers[k].mtime == now && files[v.infoHash].peers[k].port == v.port
        && (files[v.infoHash].peers[k].left <==> v.left != 0)
      ensures v.infoHash in old(files) ==>
        ctime == (if old(files)[v.infoHash].ctime == 0 then now else old(files)[v.infoHash].ctime)
      ensures r == Accepted && v.left != 0 && uid != 0 && KeyOf(v.host, uid) !in PeersAt(old(files), v.infoHash) ==>
        && (users[uid].torrentsLimit > 0 ==> users[uid].incompletes <= users[uid].torrentsLimit)
        && (users[uid].peersLimit > 0 ==> |Leeching(PeersAt(files, v.infoHash), uid)| <= users[uid].peersLimit)
    {
      hide FileCounted, UsersCounted, Leeching, Follow, Fair;
      FollowNothing(files, users);
      forall t
        ensures Fair(v, uid, now, t, ReplyTo(v, uid, now, t))
      {
        ReplyIsFair(v, uid, now, t);
      }
      PeerOfAnnounce(v, uid, now);
      ctime := if v.infoHash !in files then 0 else files[v.infoHash].ctime;
      if v.infoHash in files && ctime == 0 {
        ctime := now;
      }
      if offline {
        return Offline, ctime;
      }
      if !anonymousAnnounce && uid == 0 {
        return UnregisteredPass, ctime;
      }
      if !autoRegister && v.infoHash !in files {
        return UnregisteredTorrent, ctime;
      }
      if v.left != 0 && uid != 0 && !users[uid].canLeech {
        return CanNotLeech, ctime;
      }
      OpenFile(v.infoHash, now);
      ghost var fs, us := files, users;
      FollowKeepsCounted(old(files), old(users), files, users);
      ctime := files[v.infoHash].ctime;
      if v.left != 0 && uid != 0 && users[uid].waitTime != 0 && files[v.infoHash].ctime + users[uid].waitTime > now {
        return WaitTime, ctime;
      }
      r := Admit(v, KeyOf(v.host, uid), uid, now);
      FollowTwice(old(files), old(users), fs, us, files, users);
      FollowKeepsCounted(old(files), old(users), files, users);
    }

    // The rest of an announce for a torrent that is known.
    method Admit(v: Announce, k: Key, uid: Uid, now: int) returns (r: Reply)
      requires Tables() && (uid == 0 || uid in users) && v.infoHash in files
      modifies this
      ensures Tables() && Follow(old(files), old(users), files, users)
      ensures v.infoHash in files && files == old(files)[v.infoHash := files[v.infoHash]]
      ensures files[v.infoHash].completed ==
        old(files)[v.infoHash].completed + One(r == Accepted && v.event == Completed)
      ensures files[v.infoHash].peers ==
        (var p := old(files)[v.infoHash].peers;
         if r != Accepted then p else if v.event == Stopped then p - {k} else p[k := PeerOf(v, uid, now)])
      ensures r == (if v.left != 0 && uid != 0 && k !in old(files)[v.infoHash].peers
        then old(Limited(files[v.infoHash].peers, uid)) else Accepted)
      ensures r == Accepted && v.left != 0 && uid != 0 && k !in old(files)[v.infoHash].peers ==>
        && (users[uid].torrentsLimit > 0 ==> users[uid].incompletes <= users[uid].torrentsLimit)
        && (users[uid].peersLimit > 0 ==> |Leeching(files[v.infoHash].peers, uid)| <= users[uid].peersLimit)
    {
      hide FileCounted, UsersCounted, Leeching, Follow;
      FollowNothing(files, users);
      if k !in files[v.infoHash].peers && v.left != 0 && uid != 0 {
        r := CheckLimits(files[v.infoHash].peers, uid);
        if r != Accepted {
          return;
        }
      }
      ghost var before := files[v.infoHash];
      Register(v, k, uid, now);
      ghost var fs, us := files, users;
      if v.event == Completed {
        Complete(v.infoHash);
        FollowTwice(old(files), old(users), fs, us, files, users);
      }
      FollowKeepsTerms(old(files), old(users), files, users);
      LeechingGrows(before.peers, files[v.infoHash].peers, k, uid);
      r := Accepted;
    }

    // Whether a user may have one more leeching peer.
    method CheckLimits(peers: map<Key, Peer>, uid: Uid) returns (r: Reply)
      requires uid in users
      ensures r == Limited(peers, uid)
    {
      if users[uid].torrentsLimit != 0 && users[uid].incompletes >= users[uid].torrentsLimit {
        return TorrentsLimit;
      } else if users[uid].peersLimit != 0 {
        var c := CountLeeching(peers, uid);
        if c >= users[uid].peersLimit {
          return PeersLimit;
        }
      }
      r := Accepted;
    }

    // A torrent that is not known gets an entry; its time of creation is not
    // initialised.
    method OpenFile(h: InfoHash, now: int)
      requires Tables()
      modifies this`files
      ensures Tables() && Follow(old(files), old(users), files, users) && h in files
      ensures forall x :: PeersAt(files, x) == PeersAt(old(files), x)
      ensures files[h].completed == if h in old(files) then old(files)[h].completed else 0
      ensures files - {h} == old(files) - {h}
      ensures h in old(files) ==> files[h].ctime == if old(files)[h].ctime == 0 then now else old(files)[h].ctime
    {
      if h !in files {
        var ctime: int := *;
        files := files[h := File(map[], ctime, 0, 0, 0)];
      }
      if files[h].ctime == 0 {
        files := files[h := files[h].(ctime := now)];
      }
      SamePeersCount(old(files), files, users);
    }

    method Complete(h: InfoHash)
      requires Tables() && h in files
      modifies this`files
      ensures Tables() && Follow(old(files), old(users), files, users) && h in files
      ensures files == old(files)[h := files[h]]
      ensures files[h] == old(files)[h].(completed := old(files)[h].completed + 1)
    {
      files := files[h := files[h].(completed := files[h].completed + 1)];
      SamePeersCount(old(files), files, users);
    }

    method CountLeeching(peers: map<Key, Peer>, u: Uid) returns (c: int)
      ensures c == |Leeching(peers, u)|
    {
      hide Leeching;
      c := 0;
      var todo := peers.Keys;
      ghost var s := Leeching(peers, u);
      ghost var rest := s * todo;
      LeechingWithin(peers, u);
      while todo != {}
        invariant todo <= peers.Keys && rest == s * todo && c == |s| - |rest|
        decreases |todo|
      {
        var k :| k in todo;
        LeechingAt(peers, u, k);
        assert rest - {k} == s * (todo - {k});
        Without(rest, k);
        rest := rest - {k};
        c := c + One(peers[k].left && peers[k].uid == u);
        todo := todo - {k};
      }
    }

    // Takes the peer under `k` out of the counters.
    method Withdraw(h: InfoHash, k: Key) returns (f: File)
      requires Tables() && h in files
      modifies this`users
      ensures f == files[h].(leechers := f.leechers, seeders := f.seeders) && FileCounted(f.(peers := f.peers - {k}))
      ensures Follow(files, old(users), files[h := f.(peers := f.peers - {k})], users)
      ensures users == if k in f.peers then UncountUser(old(users), f.peers[k]) else old(users)
    {
      f := files[h];
      assert FileCounted(f);
      CountsMove(f.peers, f.peers - {k}, k, true);
      CountsMove(f.peers, f.peers - {k}, k, false);
      if k in f.peers {
        var i := f.peers[k];
        f := Uncount(f, i);
        users := UncountUser(users, i);
        PeerLeaves(files, files[h := f.(peers := f.peers - {k})], old(users), h, k);
      } else {
        assert f.peers - {k} == f.peers;
        SamePeersCount(files, files[h := f.(peers := f.peers - {k})], users);
      }
    }

    // Takes a peer out of the counters, and erases it or puts it in anew.
    method Register(v: Announce, k: Key, uid: Uid, now: int)
      requires Tables() && (uid == 0 || uid in users) && v.infoHash in files
      modifies this
      ensures Tables() && Follow(old(files), old(users), files, users)
      ensures v.infoHash in files && files == old(files)[v.infoHash := files[v.infoHash]]
      ensures files[v.infoHash].completed == old(files)[v.infoHash].completed
      ensures files[v.infoHash].peers == (if v.event == Stopped then old(files)[v.infoHash].peers - {k}
        else old(files)[v.infoHash].peers[k := PeerOf(v, uid, now)])
      ensures k !in old(files)[v.infoHash].peers && uid in users ==>
        users[uid].incompletes <= old(users)[uid].incompletes + 1
    {
      hide FileCounted, PeersWith, PeersOfUser, Follow;
      var h := v.infoHash;
      var f := Withdraw(h, k);
      ghost var us := users;
      ghost var gone := files[h := f.(peers := f.peers - {k})];
      if v.event == Stopped {
        files := files[h := f.(peers := f.peers - {k})];
      } else {
        var p := PeerOf(v, uid, now);
        f := f.(peers := f.peers[k := p]);
        f := if p.left then f.(leechers := f.leechers + 1) else f.(seeders := f.seeders + 1);
        FileArrives(gone[h], f, k);
        files := files[h := f];
        PeerArrives(gone, files, users, h, k);
        FollowTwice(old(files), old(users), gone, us, files, CountUser(us, p));
        if uid in users {
          users := users[uid := users[uid].Add(p.left, 1)];
        }
      }
    }

    // Forgets the peers of a torrent that have not announced since `t`.
    method CleanUpFile(h: InfoHash, t: int)
      requires Tables() && h in files
      modifies this
      ensures Tables() && Follow(old(files), old(users), files, users) && files.Keys == old(files).Keys
      ensures forall x :: x != h ==> PeersAt(files, x) == PeersAt(old(files), x)
      ensures files[h].peers == map k | k in old(files)[h].peers && old(files)[h].peers[k].mtime >= t ::
        old(files)[h].peers[k]
    {
      hide FileCounted, UsersCounted, Follow;
      FollowNothing(files, users);
      var todo := files[h].peers.Keys;
      while todo != {}
        invariant Tables() && Follow(old(files), old(users), files, users) && files.Keys == old(files).Keys
        invariant forall x :: x != h ==> PeersAt(files, x) == PeersAt(old(files), x)
        invariant todo <= old(files)[h].peers.Keys
        invariant forall k :: k in files[h].peers ==>
          k in old(files)[h].peers && files[h].peers[k] == old(files)[h].peers[k]
        invariant forall k :: k in old(files)[h].peers ==>
          (k in files[h].peers <==> k in todo || old(files)[h].peers[k].mtime >= t)
        decreases |todo|
      {
        var k :| k in todo;
        ghost var fs, us := files, users;
        if files[h].peers[k].mtime < t {
          Erase(h, k);
          FollowTwice(old(files), old(users), fs, us, files, users);
        }
        todo := todo - {k};
      }
    }

    method Erase(h: InfoHash, k: Key)
      requires Tables() && h in files && k in files[h].peers
      modifies this
      ensures Tables() && Follow(old(files), old(users), files, users) && files.Keys == old(files).Keys
      ensures files == old(files)[h := files[h]] && files[h].peers == old(files)[h].peers - {k}
    {
      hide FileCounted, PeersWith, PeersOfUser, Follow;
      var f := Withdraw(h, k);
      files := files[h := f.(peers := f.peers - {k})];
    }

    method CleanUp(t: int)
      requires Tables()
      modifies this
      ensures Tables() && Follow(old(files), old(users), files, users) && (old(Valid()) ==> Valid())
      ensures files.Keys == old(files).Keys
      ensures forall h :: h in files ==>
        files[h].peers == map k | k in old(files)[h].peers && old(files)[h].peers[k].mtime >= t ::
          old(files)[h].peers[k]
    {
      hide FileCounted, UsersCounted, Follow;
      FollowNothing(files, users);
      var todo := files.Keys;
      while todo != {}
        invariant Tables() && Follow(old(files), old(users), files, users)
        invariant files.Keys == old(files).Keys && todo <= files.Keys
        invariant forall h :: h in todo ==> files[h].peers == old(files)[h].peers
        invariant forall h :: h in files && h !in todo ==>
          files[h].peers == map k | k in old(files)[h].peers && old(files)[h].peers[k].mtime >= t ::
            old(files)[h].peers[k]
        decreases |todo|
      {
        var h :| h in todo;
        ghost var before, us := files, users;
        CleanUpFile(h, t);
        FollowTwice(old(files), old(users), before, us, files, users);
        forall x | x in files && x != h
          ensures files[x].peers == before[x].peers
        {
          assert PeersAt(files, x) == PeersAt(before, x);
        }
        todo := todo - {h};
      }
      FollowKeepsCounted(old(files), old(users), files, users);
    }

    // A torrent is deleted: its peers leave the counters of their users.
    method DeleteFile(h: InfoHash)
      requires Tables() && h in files
      modifies this
      ensures Tables() && Follow(old(files), old(users), files, users) && (old(Valid()) ==> Valid())
      ensures files == old(files) - {h}
    {
      hide FileCounted, PeersWith, PeersOfUser, Follow;
      FollowNothing(files, users);
      var peers := files[h].peers;
      var todo := peers.Keys;
      ghost var rest := files;
      while todo != {}
        invariant Follow(old(files), old(users), rest, users) && files == old(files) && 0 !in users
        invariant todo <= peers.Keys && h in rest && rest == files[h := rest[h]]
        invariant rest[h].peers == map k | k in todo :: peers[k]
        decreases |todo|
      {
        var k :| k in todo;
        rest := PeerForgotten(old(files), old(users), rest, users, h, k);
        users := UncountUser(users, peers[k]);
        todo := todo - {k};
      }
      files := files - {h};
      forall x
        ensures PeersAt(rest, x) == PeersAt(files, x)
      {
      }
      SamePeersCount(rest, files, users);
      FollowTwice(old(files), old(users), rest, users, files, users);
      FollowKeepsCounted(old(files), old(users), files, users);
    }

    // The users are read from the database again.
    method ReadUsers(rows: seq<Row>, c: Columns)
      requires Tables()
      modifies this`users
      ensures users == Reread(old(users), rows, c)
      ensures forall i :: 0 <= i < |rows| && IsLast(rows, i) ==> TermsOf(users, old(users), rows[i], c)
      ensures Tables() <==> 0 !in Uids(rows)
      ensures old(Valid()) ==>
        (Valid() <==> 0 !in Uids(rows) && forall u :: u in Uids(rows) && u !in old(users) ==> !HasPeers(files, u))
    {
      hide FileCounted, UsersCounted, ReadRow;
      MarkUsers();
      for i := 0 to |rows|
        invariant users == ReadRows(MarkAll(old(users)), rows[..i], c)
      {
        assert rows[..i + 1][..i] == rows[..i];
        users := ReadRow(users, rows[i], c);
      }
      assert rows[..|rows|] == rows;
      Sweep();
      ReadRowsKeep(old(users), rows, c);
      RereadTables(files, old(users), rows, c);
      forall i: nat | i < |rows| && IsLast(rows, i)
        ensures TermsOf(users, old(users), rows[i], c)
      {
        RereadTerms(old(users), rows, c, i);
      }
    }

    method MarkUsers()
      modifies this`users
      ensures users == MarkAll(old(users))
    {
      var todo := users.Keys;
      while todo != {}
        invariant todo <= users.Keys == old(users).Keys
        invariant forall u :: u in users ==>
          users[u] == if u in todo then old(users)[u] else old(users)[u].(marked := true)
        decreases |todo|
      {
        var u :| u in todo;
        users := users[u := users[u].(marked := true)];
        todo := todo - {u};
      }
    }

    // Users that are still marked go.
    method Sweep()
      modifies this`users
      ensures users == Unmarked(old(users))
    {
      var todo := users.Keys;
      while todo != {}
        invariant todo <= old(users).Keys
        invariant forall u :: u in users <==> u in old(users) && (u in todo || !old(users)[u].marked)
        invariant forall u :: u in users ==> users[u] == old(users)[u]
        decreases |todo|
      {
        var u :| u in todo;
        if users[u].marked {
          users := users - {u};
        }
        todo := todo - {u};
      }
    }
  }

  lemma OnePeer(files: map<InfoHash, File>, h: InfoHash, k: Key, u: Uid)
    requires files - {h} == map[] && PeersAt(files, h) - {k} == map[] && HasOfUser(PeersAt(files, h), k, u, true)
    ensures |PeersOfUser(files, u, true)| == 1
  {
    forall x, y | (x, y) in PeersOfUser(files, u, true)
      ensures x == h && y == k
    {
      assert x in files && y in files[x].peers;
      assert x != h ==> x in files - {h};
      assert y != k ==> y in PeersAt(files, h) - {k};
    }
    InPeersOfUser(files, u, true, h, k);
    assert PeersOfUser(files, u, true) == {(h, k)};
  }

  lemma RereadTables(files: map<InfoHash, File>, users: map<Uid, User>, rows: seq<Row>, c: Columns)
    ensures 0 in Reread(users, rows, c) <==> 0 in Uids(rows)
    ensures UsersCounted(files, users) ==> (UsersCounted(files, Reread(users, rows, c))
      <==> 0 !in Uids(rows) && forall u :: u in Uids(rows) && u !in users ==> !HasPeers(files, u))
  {
    hide UserCounted;
    ReadRowsKeep(users, rows, c);
    if UsersCounted(files, users) {
      RereadCountedIff(files, users, rows, c);
    }
  }

  // A user announces, is missing from the table once, and comes back: when his
  // peer expires, he leeches at minus one place.
  method RereadGoesNegative(h: InfoHash, host: int, peerId: string) returns (n: int)
    ensures n == -1
  {
    hide FileCounted, UsersCounted, Follow, PeersOfUser;
    var t := OnePeerLeft(h, host, peerId);
    ghost var before, us := t.files, t.users;
    t.CleanUp(2000);
    forall x | x in t.files
      ensures t.files[x].peers == map[]
    {
      OnlyPeer(before, h, Key(host, 1), x);
    }
    LastPeerGone(before, us, t.files, t.users, h, Key(host, 1), 1);
    n := t.users[1].incompletes;
  }

  lemma OnlyPeer(a: map<InfoHash, File>, h: InfoHash, k: Key, x: InfoHash)
    requires a - {h} == map[] && PeersAt(a, h) - {k} == map[] && x in a
    ensures forall y :: y in a[x].peers ==> x == h && y == k
  {
    assert x != h ==> x in a - {h};
    assert forall y :: y in a[x].peers && y != k ==> y in a[x].peers - {k};
  }

  lemma LastPeerGone(a: map<InfoHash, File>, us: map<Uid, User>, b: map<InfoHash, File>, vs: map<Uid, User>,
    h: InfoHash, k: Key, u: Uid)
    requires Follow(a, us, b, vs) && u in us && forall x :: x in b ==> b[x].peers == map[]
    requires a - {h} == map[] && PeersAt(a, h) - {k} == map[] && HasOfUser(PeersAt(a, h), k, u, true)
    ensures u in vs && vs[u].incompletes == us[u].incompletes - 1
  {
    OnePeer(a, h, k, u);
    assert UserFollows(a, us, b, vs, u);
    assert PeersOfUser(b, u, true) == {};
  }

  // One peer, of user 1 and at time 1000.
  ghost predicate OnlyLeecher(files: map<InfoHash, File>, h: InfoHash, host: int) {
    && files - {h} == map[] && PeersAt(files, h) - {Key(host, 1)} == map[]
    && HasOfUser(PeersAt(files, h), Key(host, 1), 1, true) && PeersAt(files, h)[Key(host, 1)].mtime == 1000
  }

  method OnePeerLeft(h: InfoHash, host: int, peerId: string) returns (t: Tracker)
    ensures fresh(t) && t.Tables() && 1 in t.users && t.users[1].incompletes == 0 && OnlyLeecher(t.files, h, host)
  {
    hide UsersCounted, FileCounted, OnlyLeecher;
    t := OneAnnounce(h, host, peerId);
    var c := Columns(true, true, true, true);
    ghost var us := t.users;
    t.ReadUsers([], c);
    ReadRowsKeep(us, [], c);
    assert Uids([]) == {};
    us := t.users;
    var row := Row(1, true, 0, 0, 0);
    assert [row][0].uid in Uids([row]);
    t.ReadUsers([row], c);
    ReadRowsKeep(us, [row], c);
  }

  method OneAnnounce(h: InfoHash, host: int, peerId: string) returns (t: Tracker)
    ensures fresh(t) && t.Tables() && OnlyLeecher(t.files, h, host)
  {
    hide UsersCounted, FileCounted, Follow;
    t := new Tracker(true, false, false, true, map[1 := NEW_USER]);
    var v := Announce(Started, h, host, 6881, peerId, 0, 0, 1);
    assert t.KeyOf(host, 1) == Key(host, 1) && PeersAt(t.files, h) == map[] && t.Limited(map[], 1) == Accepted;
    assert t.ReplyTo(v, 1, 1000, 0) == Accepted;
    var r, ctime := t.InsertPeer(v, 1, 1000);
    assert r == Accepted;
  }

  lemma FileArrives(a: File, b: File, k: Key)
    requires FileCounted(a) && k !in a.peers && k in b.peers && SameBut(a.peers, b.peers, k)
    requires b.leechers == a.leechers + One(b.peers[k].left) && b.seeders == a.seeders + One(!b.peers[k].left)
    ensures FileCounted(b)
  {
    CountsMove(a.peers, b.peers, k, true);
    CountsMove(a.peers, b.peers, k, false);
  }

  lemma LeechingAt(peers: map<Key, Peer>, u: Uid, k: Key)
    requires k in peers
    ensures k in Leeching(peers, u) <==> peers[k].left && peers[k].uid == u
  {
  }

  lemma LeechingWithin(peers: map<Key, Peer>, u: Uid)
    ensures Leeching(peers, u) * peers.Keys == Leeching(peers, u)
  {
  }

  lemma LeechingGrows(a: map<Key, Peer>, b: map<Key, Peer>, k: Key, u: Uid)
    requires SameBut(a, b, k)
    ensures |Leeching(b, u)| <= |Leeching(a, u)| + 1
  {
    OneApart(Leeching(a, u), Leeching(b, u), k);
  }
}
