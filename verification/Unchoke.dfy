// Handing out upload slots: three passes over the candidates, first up to the
// minimum of each torrent, then up to its maximum, then without limit.
module Unchoke {
  import opened Arithmetic

  // ----- the passes as functions -----

  datatype Limit = Limit(min: int, max: int)

  // A candidate of torrent `file`; `charged` if unchoking it takes a slot.
  datatype Candidate = Candidate(file: nat, charged: bool)

  // Which candidates are unchoked, the slots used per torrent, the slots left.
  datatype State = State(unchoked: seq<bool>, used: seq<nat>, slots: nat)

  predicate Shape(cs: seq<Candidate>, limits: seq<Limit>, st: State) {
    && |st.unchoked| == |cs| && |st.used| == |limits|
    && FilesKnown(cs, limits)
  }

  predicate FilesKnown(cs: seq<Candidate>, limits: seq<Limit>) {
    forall i :: 0 <= i < |cs| ==> cs[i].file < |limits|
  }

  predicate Exhausted(pass: nat, limits: seq<Limit>, st: State, file: nat)
    requires |limits| == |st.used| && file < |limits|
  {
    || (pass == 0 && limits[file].min - st.used[file] < 1)
    || (pass == 1 && limits[file].max - st.used[file] < 1)
  }

  function Step(pass: nat, cs: seq<Candidate>, limits: seq<Limit>, st: State, i: nat): (r: State)
    requires Shape(cs, limits, st) && i < |cs|
    ensures Shape(cs, limits, r)
  {
    var f := cs[i].file;
    if st.slots == 0 || st.unchoked[i] || Exhausted(pass, limits, st, f) then st
    else if cs[i].charged then
      State(st.unchoked[i := true], st.used[f := st.used[f] + 1], st.slots - 1)
    else
      st.(unchoked := st.unchoked[i := true])
  }

  function Pass(pass: nat, cs: seq<Candidate>, limits: seq<Limit>, st: State, n: nat): (r: State)
    requires Shape(cs, limits, st) && n <= |cs|
    ensures Shape(cs, limits, r)
  {
    if n == 0 then st else Step(pass, cs, limits, Pass(pass, cs, limits, st, n - 1), n - 1)
  }

  function Start(cs: seq<Candidate>, limits: seq<Limit>, slots: nat): (r: State)
    ensures |r.unchoked| == |cs| && |r.used| == |limits|
  {
    State(seq(|cs|, _ => false), seq(|limits|, _ => 0), slots)
  }

  function Passes(cs: seq<Candidate>, limits: seq<Limit>, slots: nat, n: nat): (r: State)
    requires FilesKnown(cs, limits)
    ensures Shape(cs, limits, r)
  {
    if n == 0 then Start(cs, limits, slots)
    else Pass(n - 1, cs, limits, Passes(cs, limits, slots, n - 1), |cs|)
  }

  // ----- what one pass does -----

  // The slots charged to a torrent, counted on the candidates.
  function Charged(cs: seq<Candidate>, unchoked: seq<bool>, f: nat): nat
    requires |cs| == |unchoked|
  {
    if cs == [] then 0
    else
      var n := |cs| - 1;
      Charged(cs[..n], unchoked[..n], f) + if cs[n].file == f && cs[n].charged && unchoked[n] then 1 else 0
  }

  lemma {:induction false} ChargedUpdate(cs: seq<Candidate>, unchoked: seq<bool>, f: nat, i: nat)
    requires |cs| == |unchoked| && i < |cs| && !unchoked[i]
    ensures Charged(cs, unchoked[i := true], f) ==
      Charged(cs, unchoked, f) + if cs[i].file == f && cs[i].charged then 1 else 0
    decreases |cs|
  {
    var n := |cs| - 1;
    if i == n {
      assert unchoked[i := true][..n] == unchoked[..n];
    } else {
      assert unchoked[i := true][..n] == unchoked[..n][i := true];
      ChargedUpdate(cs[..n], unchoked[..n], f, i);
    }
  }

  // Slots are conserved, and charged once per unchoked candidate.
  ghost predicate Accounted(cs: seq<Candidate>, limits: seq<Limit>, st: State, slots: nat) {
    && Shape(cs, limits, st)
    && Sum(st.used) + st.slots == slots
    && forall f: nat :: f < |limits| ==> st.used[f] == Charged(cs, st.unchoked, f)
  }

  lemma {:induction false} StepAccounted(pass: nat, cs: seq<Candidate>, limits: seq<Limit>, st: State, i: nat,
                                         slots: nat)
    requires Accounted(cs, limits, st, slots) && i < |cs|
    ensures Accounted(cs, limits, Step(pass, cs, limits, st, i), slots)
  {
    var r, f := Step(pass, cs, limits, st, i), cs[i].file;
    if r != st {
      if cs[i].charged {
        SumUpdate(st.used, f, st.used[f] + 1);
      }
      forall g: nat | g < |limits|
        ensures r.used[g] == Charged(cs, r.unchoked, g)
      {
        ChargedUpdate(cs, st.unchoked, g, i);
      }
    }
  }

  // From one state to a later one nothing is taken back.
  predicate Later(st: State, r: State) {
    && |st.unchoked| == |r.unchoked| && |st.used| == |r.used|
    && (forall i :: 0 <= i < |st.unchoked| ==> (st.unchoked[i] ==> r.unchoked[i]))
    && (forall f :: 0 <= f < |st.used| ==> st.used[f] <= r.used[f])
    && (st.slots == 0 ==> r == st)
  }

  lemma StepOnlyAdds(pass: nat, cs: seq<Candidate>, limits: seq<Limit>, st: State, i: nat)
    requires Shape(cs, limits, st) && i < |cs|
    ensures Later(st, Step(pass, cs, limits, st, i))
  {
  }

  lemma LaterIsTransitive(a: State, b: State, c: State)
    requires Later(a, b) && Later(b, c)
    ensures Later(a, c)
  {
  }

  lemma {:induction false} PassOnlyAdds(pass: nat, cs: seq<Candidate>, limits: seq<Limit>, st: State, n: nat)
    requires Shape(cs, limits, st) && n <= |cs|
    ensures Later(st, Pass(pass, cs, limits, st, n))
  {
    if n > 0 {
      var before := Pass(pass, cs, limits, st, n - 1);
      PassOnlyAdds(pass, cs, limits, st, n - 1);
      StepOnlyAdds(pass, cs, limits, before, n - 1);
      LaterIsTransitive(st, before, Step(pass, cs, limits, before, n - 1));
    }
  }

  lemma {:induction false} PassAccounted(pass: nat, cs: seq<Candidate>, limits: seq<Limit>, st: State, n: nat,
                                         slots: nat)
    requires Accounted(cs, limits, st, slots) && n <= |cs|
    ensures Accounted(cs, limits, Pass(pass, cs, limits, st, n), slots)
  {
    if n > 0 {
      PassAccounted(pass, cs, limits, st, n - 1, slots);
      StepAccounted(pass, cs, limits, Pass(pass, cs, limits, st, n - 1), n - 1, slots);
    }
  }

  // After a pass that leaves slots over, a candidate is choked only if its
  // torrent has reached the limit of the pass.
  lemma {:induction false} PassIsThorough(pass: nat, cs: seq<Candidate>, limits: seq<Limit>, st: State, n: nat, i: nat)
    requires Shape(cs, limits, st) && i < n <= |cs|
    ensures var r := Pass(pass, cs, limits, st, n);
      r.slots == 0 || r.unchoked[i] || Exhausted(pass, limits, r, cs[i].file)
  {
    if i < n - 1 {
      PassIsThorough(pass, cs, limits, st, n - 1, i);
    }
  }

  // A pass charges a torrent up to its limit and no further.
  lemma {:induction false} PassIsLimited(pass: nat, cs: seq<Candidate>, limits: seq<Limit>, st: State, n: nat, f: nat)
    requires Shape(cs, limits, st) && n <= |cs| && f < |limits|
    ensures var r := Pass(pass, cs, limits, st, n);
      && (pass == 0 ==> r.used[f] <= Max(st.used[f], limits[f].min))
      && (pass == 1 ==> r.used[f] <= Max(st.used[f], limits[f].max))
  {
    if n > 0 {
      PassIsLimited(pass, cs, limits, st, n - 1, f);
    }
  }

  lemma {:induction false} ChargedNothing(cs: seq<Candidate>, unchoked: seq<bool>, f: nat)
    requires |cs| == |unchoked| && forall i :: 0 <= i < |cs| ==> !unchoked[i]
    ensures Charged(cs, unchoked, f) == 0
    decreases |cs|
  {
    if cs != [] {
      ChargedNothing(cs[..|cs| - 1], unchoked[..|cs| - 1], f);
    }
  }

  lemma {:induction false} SumOfZeros(s: seq<nat>)
    requires forall i :: 0 <= i < |s| ==> s[i] == 0
    ensures Sum(s) == 0
    decreases |s|
  {
    if s != [] {
      SumOfZeros(s[1..]);
    }
  }

  lemma {:induction false} PassesAccounted(cs: seq<Candidate>, limits: seq<Limit>, slots: nat, n: nat)
    requires FilesKnown(cs, limits)
    ensures Accounted(cs, limits, Passes(cs, limits, slots, n), slots)
  {
    if n == 0 {
      var st := Start(cs, limits, slots);
      SumOfZeros(st.used);
      forall f: nat | f < |limits|
        ensures Charged(cs, st.unchoked, f) == 0
      {
        ChargedNothing(cs, st.unchoked, f);
      }
    } else {
      PassesAccounted(cs, limits, slots, n - 1);
      PassAccounted(n - 1, cs, limits, Passes(cs, limits, slots, n - 1), |cs|, slots);
    }
  }

  // ----- the results -----

  // The slots used are those of the charged candidates that are unchoked, each
  // counted once, and they are never more than there are. Slots are left over
  // only if every candidate is unchoked.
  lemma {:induction false} SlotsAreRespected(cs: seq<Candidate>, limits: seq<Limit>, slots: nat)
    requires FilesKnown(cs, limits)
    ensures var r := Passes(cs, limits, slots, 3);
      && Sum(r.used) == slots - r.slots
      && (forall f: nat :: f < |limits| ==> r.used[f] == Charged(cs, r.unchoked, f))
      && (r.slots > 0 ==> forall i :: 0 <= i < |cs| ==> r.unchoked[i])
  {
    PassesAccounted(cs, limits, slots, 3);
    var r, before := Passes(cs, limits, slots, 3), Passes(cs, limits, slots, 2);
    assert r == Pass(2, cs, limits, before, |cs|);
    forall i | 0 <= i < |cs| && r.slots > 0
      ensures r.unchoked[i]
    {
      PassIsThorough(2, cs, limits, before, |cs|, i);
    }
  }

  function Minimums(limits: seq<Limit>): (r: seq<nat>)
    ensures |r| == |limits| && forall f :: 0 <= f < |r| ==> r[f] == Max(0, limits[f].min)
  {
    seq(|limits|, f requires 0 <= f < |limits| => Max(0, limits[f].min))
  }

  lemma {:induction false} LaterPasses(cs: seq<Candidate>, limits: seq<Limit>, slots: nat, n: nat)
    requires FilesKnown(cs, limits)
    requires n < 3
    ensures Later(Passes(cs, limits, slots, n), Passes(cs, limits, slots, 3))
    decreases 3 - n
  {
    var st := Passes(cs, limits, slots, n);
    PassOnlyAdds(n, cs, limits, st, |cs|);
    if n < 2 {
      LaterPasses(cs, limits, slots, n + 1);
      LaterIsTransitive(st, Passes(cs, limits, slots, n + 1), Passes(cs, limits, slots, 3));
    }
  }

  // When the slots cover all minimums, every torrent gets its minimum or has
  // no choked candidate.
  lemma {:induction false} MinimumsAreReached(cs: seq<Candidate>, limits: seq<Limit>, slots: nat, f: nat, i: nat)
    requires FilesKnown(cs, limits)
    requires Sum(Minimums(limits)) <= slots
    requires i < |cs| && cs[i].file == f
    ensures var r := Passes(cs, limits, slots, 3);
      r.used[f] >= limits[f].min || r.unchoked[i]
  {
    var st, a := Start(cs, limits, slots), Passes(cs, limits, slots, 1);
    assert st == Passes(cs, limits, slots, 0) && a == Pass(0, cs, limits, st, |cs|);
    PassIsThorough(0, cs, limits, st, |cs|, i);
    if a.slots == 0 {
      PassesAccounted(cs, limits, slots, 1);
      forall g | 0 <= g < |limits|
        ensures a.used[g] <= Minimums(limits)[g]
      {
        PassIsLimited(0, cs, limits, st, |cs|, g);
      }
      SumBound(a.used, Minimums(limits));
    }
    LaterPasses(cs, limits, slots, 1);
  }

  // A torrent gets more than its maximum only when no torrent below its own
  // maximum has a choked candidate.
  lemma {:induction false} MaximumsAreKept(cs: seq<Candidate>, limits: seq<Limit>, slots: nat, f: nat, i: nat)
    requires FilesKnown(cs, limits)
    requires f < |limits| && limits[f].min <= limits[f].max
    requires i < |cs|
    ensures var r := Passes(cs, limits, slots, 3);
      r.used[f] > Max(0, limits[f].max) && r.used[cs[i].file] < limits[cs[i].file].max ==> r.unchoked[i]
  {
    var s0, s1, s2 := Passes(cs, limits, slots, 0), Passes(cs, limits, slots, 1), Passes(cs, limits, slots, 2);
    PassIsLimited(0, cs, limits, s0, |cs|, f);
    PassIsLimited(1, cs, limits, s1, |cs|, f);
    assert s1 == Pass(0, cs, limits, s0, |cs|) && s2 == Pass(1, cs, limits, s1, |cs|);
    PassIsThorough(1, cs, limits, s1, |cs|, i);
    LaterPasses(cs, limits, slots, 2);
  }

  // Of the candidates of one torrent the earlier are unchoked first.
  predicate InOrder(cs: seq<Candidate>, st: State)
    requires |st.unchoked| == |cs|
  {
    forall i, k :: 0 <= i < k < |cs| && cs[i].file == cs[k].file && st.unchoked[k] ==> st.unchoked[i]
  }

  lemma {:induction false} PassKeepsOrder(pass: nat, cs: seq<Candidate>, limits: seq<Limit>, st: State, n: nat)
    requires Shape(cs, limits, st) && n <= |cs| && InOrder(cs, st)
    ensures InOrder(cs, Pass(pass, cs, limits, st, n))
  {
    if n > 0 {
      var before := Pass(pass, cs, limits, st, n - 1);
      PassKeepsOrder(pass, cs, limits, st, n - 1);
      forall i | 0 <= i < n - 1
        ensures before.slots == 0 || before.unchoked[i] || Exhausted(pass, limits, before, cs[i].file)
      {
        PassIsThorough(pass, cs, limits, st, n - 1, i);
      }
    }
  }

  lemma {:induction false} PassesKeepOrder(cs: seq<Candidate>, limits: seq<Limit>, slots: nat, n: nat)
    requires FilesKnown(cs, limits)
    ensures InOrder(cs, Passes(cs, limits, slots, n))
  {
    if n > 0 {
      PassesKeepOrder(cs, limits, slots, n - 1);
      PassKeepsOrder(n - 1, cs, limits, Passes(cs, limits, slots, n - 1), |cs|);
    }
  }

  // The slots charged in all.
  function AllCharged(cs: seq<Candidate>, unchoked: seq<bool>): nat
    requires |cs| == |unchoked|
  {
    if cs == [] then 0
    else
      var n := |cs| - 1;
      AllCharged(cs[..n], unchoked[..n]) + if cs[n].charged && unchoked[n] then 1 else 0
  }

  lemma {:induction false} ChargedSum(cs: seq<Candidate>, unchoked: seq<bool>, used: seq<nat>)
    requires |cs| == |unchoked| && forall i :: 0 <= i < |cs| ==> cs[i].file < |used|
    requires forall f :: 0 <= f < |used| ==> used[f] == Charged(cs, unchoked, f)
    ensures Sum(used) == AllCharged(cs, unchoked)
    decreases |cs|
  {
    if cs == [] {
      SumOfZeros(used);
    } else {
      var n := |cs| - 1;
      var f := cs[n].file;
      assert used[f] == Charged(cs, unchoked, f);
      var u := if cs[n].charged && unchoked[n] then 1 else 0;
      var before := used[f := used[f] - u];
      forall g | 0 <= g < |before|
        ensures before[g] == Charged(cs[..n], unchoked[..n], g)
      {
        assert used[g] == Charged(cs, unchoked, g);
      }
      ChargedSum(cs[..n], unchoked[..n], before);
      SumUpdate(used, f, used[f] - u);
    }
  }

  // ----- Cserver::update_chokes -----

  const INT_MAX := 0x7fff_ffff

  datatype FileSettings = FileSettings(running: bool, slotsMin: int, slotsMax: int)

  function Limits(files: seq<FileSettings>): (r: seq<Limit>)
    ensures |r| == |files|
  {
    seq(|files|, f requires 0 <= f < |files| =>
      Limit(files[f].slotsMin, if files[f].slotsMax != 0 then files[f].slotsMax else INT_MAX))
  }

  class PeerLink {
    const file: nat
    const established: bool
    const left: int
    const rate: int
    const remoteInterested: bool
    const localInterested: bool
    var chokedGoal: bool

    constructor (file: nat, established: bool, left: int, rate: int, remoteInterested: bool, localInterested: bool)
      ensures chokedGoal && this.file == file && this.established == established && this.left == left
      ensures this.rate == rate && this.remoteInterested == remoteInterested && this.localInterested == localInterested
    {
      this.file, this.established, this.left, this.rate := file, established, left, rate;
      this.remoteInterested, this.localInterested, chokedGoal := remoteInterested, localInterested, true;
    }

    predicate Wants(files: seq<FileSettings>) {
      established && file < |files| && files[file].running && left != 0
    }

    // Which list a candidate is put on.
    function Rank(): int {
      if rate > 256 then 0 else if localInterested then 1 else 2
    }

    predicate Listed(files: seq<FileSettings>) {
      Wants(files) && (rate > 256 || remoteInterested)
    }

    predicate Competes(files: seq<FileSettings>, uploadSlots: int) {
      uploadSlots != 0 && Listed(files)
    }
  }

  function Candidates(order: seq<PeerLink>): (r: seq<Candidate>)
    ensures |r| == |order|
    ensures forall i :: 0 <= i < |r| ==> r[i] == Candidate(order[i].file, order[i].remoteInterested)
  {
    seq(|order|, i requires 0 <= i < |order| => Candidate(order[i].file, order[i].remoteInterested))
  }

  ghost predicate Matches(order: seq<PeerLink>, cs: seq<Candidate>, limits: seq<Limit>, rest: seq<Limit>, slots: nat,
                          st: State)
    reads order
  {
    && cs == Candidates(order) && Shape(cs, limits, st)
    && |rest| == |limits| && slots == st.slots
    && (forall f :: 0 <= f < |rest| ==> rest[f] == Limit(limits[f].min - st.used[f], limits[f].max - st.used[f]))
    && (forall i :: 0 <= i < |order| ==> order[i].chokedGoal == !st.unchoked[i])
  }

  predicate Distinct(s: seq<PeerLink>) {
    forall i, j :: 0 <= i < j < |s| ==> s[i] != s[j]
  }

  // The body of the three loops of a pass.
  method Consider(pass: nat, p: PeerLink, rest0: seq<Limit>, slots0: nat, ghost order: seq<PeerLink>,
                  ghost cs: seq<Candidate>, ghost i: nat, ghost limits: seq<Limit>, ghost st: State)
    returns (rest: seq<Limit>, slots: nat)
    requires i < |order| && p == order[i] && Distinct(order) && slots0 > 0
    requires Matches(order, cs, limits, rest0, slots0, st)
    modifies p
    ensures Matches(order, cs, limits, rest, slots, Step(pass, cs, limits, st, i))
  {
    rest, slots := rest0, slots0;
    assert cs[i] == Candidate(p.file, p.remoteInterested);
    var l := rest[p.file];
    if p.chokedGoal && !(pass == 0 && l.min < 1) && !(pass == 1 && l.max < 1) {
      if p.remoteInterested {
        rest := rest[p.file := Limit(l.min - 1, l.max - 1)];
        slots := slots - 1;
      }
      p.chokedGoal := false;
    }
  }

  // The states before each candidate of a pass, and after the last.
  ghost predicate IsTrace(pass: nat, cs: seq<Candidate>, limits: seq<Limit>, trace: seq<State>) {
    |trace| == |cs| + 1 && FilesKnown(cs, limits)
    && forall i :: 0 <= i < |cs| ==> StepIs(pass, cs, limits, trace[i], i, trace[i + 1])
  }

  ghost predicate StepIs(pass: nat, cs: seq<Candidate>, limits: seq<Limit>, st: State, i: nat, r: State)
    requires i < |cs|
  {
    Shape(cs, limits, st) && r == Step(pass, cs, limits, st, i)
  }

  lemma {:induction false} TraceOf(pass: nat, cs: seq<Candidate>, limits: seq<Limit>, st: State)
    returns (trace: seq<State>)
    requires Shape(cs, limits, st)
    ensures IsTrace(pass, cs, limits, trace) && trace[0] == st && trace[|cs|] == Pass(pass, cs, limits, st, |cs|)
  {
    trace := seq(|cs| + 1, i requires 0 <= i < |cs| + 1 => Pass(pass, cs, limits, st, i));
  }

  lemma {:induction false} TraceIsStuck(pass: nat, cs: seq<Candidate>, limits: seq<Limit>, trace: seq<State>, m: nat,
                                        n: nat)
    requires IsTrace(pass, cs, limits, trace) && m <= n <= |cs| && trace[m].slots == 0
    ensures trace[n] == trace[m]
    decreases n
  {
    if m < n {
      TraceIsStuck(pass, cs, limits, trace, m, n - 1);
      assert StepIs(pass, cs, limits, trace[n - 1], n - 1, trace[n]);
    }
  }

  // One of the three loops of a pass; `list` is order[off..end].
  method RunList(pass: nat, list: seq<PeerLink>, rest0: seq<Limit>, slots0: nat, ghost order: seq<PeerLink>,
                 ghost cs: seq<Candidate>, ghost off: nat, ghost end: nat, ghost limits: seq<Limit>,
                 ghost trace: seq<State>)
    returns (rest: seq<Limit>, slots: nat)
    requires off + |list| == end <= |order| == |cs| && Distinct(order) && IsTrace(pass, cs, limits, trace)
    requires forall i :: 0 <= i < |list| ==> list[i] == order[off + i]
    requires Matches(order, cs, limits, rest0, slots0, trace[off])
    modifies order
    ensures Matches(order, cs, limits, rest, slots, trace[end])
  {
    rest, slots := rest0, slots0;
    var i := 0;
    while slots != 0 && i < |list|
      invariant 0 <= i <= |list|
      invariant Matches(order, cs, limits, rest, slots, trace[off + i])
    {
      assert StepIs(pass, cs, limits, trace[off + i], off + i, trace[off + i + 1]);
      rest, slots := Consider(pass, list[i], rest, slots, order, cs, off + i, limits, trace[off + i]);
      i := i + 1;
    }
    if i < |list| {
      TraceIsStuck(pass, cs, limits, trace, off + i, end);
    }
  }

  // Links in the order of their rates, the earlier first among equals.
  predicate SortedByRate(s: seq<PeerLink>) {
    forall i, j :: 0 <= i < j < |s| ==> s[i].rate <= s[j].rate
  }

  function Insert(s: seq<PeerLink>, p: PeerLink): (r: seq<PeerLink>)
    ensures multiset(r) == multiset(s) + multiset{p}
    decreases |s|
  {
    if s == [] || p.rate < s[0].rate then [p] + s
    else
      assert s == [s[0]] + s[1..];
      [s[0]] + Insert(s[1..], p)
  }

  lemma {:induction false} InsertSorted(s: seq<PeerLink>, p: PeerLink)
    requires SortedByRate(s)
    ensures SortedByRate(Insert(s, p))
    decreases |s|
  {
    if s != [] && p.rate >= s[0].rate {
      InsertSorted(s[1..], p);
      var r := Insert(s[1..], p);
      forall i | 0 <= i < |r|
        ensures s[0].rate <= r[i].rate
      {
        assert r[i] in multiset(r);
      }
    }
  }

  method Shuffle(s: seq<PeerLink>) returns (r: seq<PeerLink>)
    ensures multiset(r) == multiset(s)
  {
    r := s;
    var n := |s|;
    while n > 1
      invariant n <= |s| == |r| && multiset(r) == multiset(s)
    {
      var i: int :| 0 <= i < n;
      n := n - 1;
      r := r[i := r[n]][n := r[i]];
    }
  }

  // All of a list has one rank, and is listed.
  predicate IsList(s: seq<PeerLink>, files: seq<FileSettings>, rank: int) {
    forall i :: 0 <= i < |s| ==> s[i].Listed(files) && s[i].Rank() == rank
  }

  lemma {:induction false} SameList(s: seq<PeerLink>, r: seq<PeerLink>, files: seq<FileSettings>, rank: int)
    requires IsList(s, files, rank) && multiset(r) == multiset(s)
    ensures IsList(r, files, rank)
  {
    forall i | 0 <= i < |r|
      ensures r[i].Listed(files) && r[i].Rank() == rank
    {
      assert r[i] in multiset(r);
    }
  }

  method PutByRate(s: seq<PeerLink>, p: PeerLink, ghost files: seq<FileSettings>) returns (r: seq<PeerLink>)
    requires SortedByRate(s) && IsList(s, files, 0) && p.Listed(files) && p.Rank() == 0
    ensures SortedByRate(r) && IsList(r, files, 0) && multiset(r) == multiset(s) + multiset{p}
  {
    r := Insert(s, p);
    InsertSorted(s, p);
    assert multiset(s + [p]) == multiset(s) + multiset{p};
    SameList(s + [p], r, files, 0);
  }

  // The listed candidates among `peers`.
  function ListedOf(files: seq<FileSettings>, uploadSlots: int, peers: seq<PeerLink>): (r: seq<PeerLink>)
    decreases |peers|
  {
    if peers == [] then []
    else
      var n := |peers| - 1;
      ListedOf(files, uploadSlots, peers[..n]) + if peers[n].Competes(files, uploadSlots) then [peers[n]] else []
  }

  lemma {:induction false} ListedFacts(files: seq<FileSettings>, uploadSlots: int, peers: seq<PeerLink>)
    ensures var r := ListedOf(files, uploadSlots, peers);
      && (forall p <- r :: p in peers && p.Competes(files, uploadSlots))
      && (forall p <- peers :: p.Competes(files, uploadSlots) ==> p in r)
      && (Distinct(peers) ==> Distinct(r))
    decreases |peers|
  {
    if peers != [] {
      ListedFacts(files, uploadSlots, peers[..|peers| - 1]);
    }
  }

  // The listed candidates among the first links.
  ghost predicate AreListed(files: seq<FileSettings>, uploadSlots: int, peers: seq<PeerLink>,
                            listed: seq<multiset<PeerLink>>) {
    && |listed| == |peers| + 1 && listed[0] == multiset{}
    && listed[|peers|] == multiset(ListedOf(files, uploadSlots, peers))
    && forall i :: 0 <= i < |peers| ==> listed[i + 1] == listed[i] + ListedOne(files, uploadSlots, peers[i])
  }

  ghost function ListedOne(files: seq<FileSettings>, uploadSlots: int, p: PeerLink): multiset<PeerLink> {
    if p.Competes(files, uploadSlots) then multiset{p} else multiset{}
  }

  lemma ListedSnoc(files: seq<FileSettings>, uploadSlots: int, peers: seq<PeerLink>)
    requires peers != []
    ensures multiset(ListedOf(files, uploadSlots, peers)) ==
      multiset(ListedOf(files, uploadSlots, peers[..|peers| - 1])) + ListedOne(files, uploadSlots, peers[|peers| - 1])
  {
    var n := |peers| - 1;
    var l := ListedOf(files, uploadSlots, peers[..n]);
    assert multiset(l + [peers[n]]) == multiset(l) + multiset{peers[n]};
    assert l + [] == l;
  }

  lemma {:induction false} CountListed(files: seq<FileSettings>, uploadSlots: int, peers: seq<PeerLink>)
    returns (listed: seq<multiset<PeerLink>>)
    ensures AreListed(files, uploadSlots, peers, listed)
    decreases |peers|
  {
    if peers == [] {
      listed := [multiset{}];
    } else {
      var n := |peers| - 1;
      var l := CountListed(files, uploadSlots, peers[..n]);
      listed := ListedMore(files, uploadSlots, peers, l);
    }
  }

  lemma ListedMore(files: seq<FileSettings>, uploadSlots: int, peers: seq<PeerLink>, l: seq<multiset<PeerLink>>)
    returns (listed: seq<multiset<PeerLink>>)
    requires peers != [] && AreListed(files, uploadSlots, peers[..|peers| - 1], l)
    ensures AreListed(files, uploadSlots, peers, listed)
  {
    hide ListedOf, ListedOne;
    var n := |peers| - 1;
    ListedSnoc(files, uploadSlots, peers);
    listed := l + [l[n] + ListedOne(files, uploadSlots, peers[n])];
    forall i | 0 <= i < |peers|
      ensures listed[i + 1] == listed[i] + ListedOne(files, uploadSlots, peers[i])
    {
      if i < n {
        assert peers[..n][i] == peers[i];
        assert l[i + 1] == l[i] + ListedOne(files, uploadSlots, peers[..n][i]);
        assert listed[i + 1] == l[i + 1] && listed[i] == l[i];
      }
    }
  }

  // The choke goal of a link before slots are handed out.
  ghost predicate GoalSet(p: PeerLink, files: seq<FileSettings>, uploadSlots: int)
    reads p
  {
    p.established ==> (p.chokedGoal <==> !(uploadSlots == 0 && p.Wants(files)))
  }

  // Sets the goal of one link; -1 if it does not compete for slots.
  method Classify(files: seq<FileSettings>, p: PeerLink, uploadSlots: int) returns (rank: int)
    requires p.file < |files|
    modifies p
    ensures GoalSet(p, files, uploadSlots) && (!p.established ==> p.chokedGoal == old(p.chokedGoal))
    ensures rank == if p.Competes(files, uploadSlots) then p.Rank() else -1
  {
    if !p.established {
      return -1;
    }
    p.chokedGoal := true;
    if !files[p.file].running || p.left == 0 {
      return -1;
    } else if uploadSlots == 0 {
      p.chokedGoal := false;
      return -1;
    } else if p.rate > 256 {
      return 0;
    } else if p.remoteInterested {
      return if p.localInterested then 1 else 2;
    }
    rank := -1;
  }

  method Put(rank: int, p: PeerLink, l0: seq<PeerLink>, l1: seq<PeerLink>, l2: seq<PeerLink>,
             ghost files: seq<FileSettings>)
    returns (links0: seq<PeerLink>, links1: seq<PeerLink>, links2: seq<PeerLink>)
    requires rank == -1 || (p.Listed(files) && rank == p.Rank())
    requires IsList(l0, files, 0) && IsList(l1, files, 1) && IsList(l2, files, 2) && SortedByRate(l0)
    ensures IsList(links0, files, 0) && IsList(links1, files, 1) && IsList(links2, files, 2) && SortedByRate(links0)
    ensures multiset(links0) + multiset(links1) + multiset(links2) ==
      multiset(l0) + multiset(l1) + multiset(l2) + if rank == -1 then multiset{} else multiset{p}
  {
    links0, links1, links2 := l0, l1, l2;
    if rank == 0 {
      links0 := PutByRate(links0, p, files);
    } else if rank == 1 {
      links1 := links1 + [p];
    } else if rank == 2 {
      links2 := links2 + [p];
    }
  }

  // Sets the goal of one link, and puts it on its list if it is a candidate.
  method SortOne(files: seq<FileSettings>, p: PeerLink, uploadSlots: int, l0: seq<PeerLink>, l1: seq<PeerLink>,
                 l2: seq<PeerLink>)
    returns (links0: seq<PeerLink>, links1: seq<PeerLink>, links2: seq<PeerLink>)
    requires p.file < |files|
    requires IsList(l0, files, 0) && IsList(l1, files, 1) && IsList(l2, files, 2) && SortedByRate(l0)
    modifies p
    ensures GoalSet(p, files, uploadSlots) && (!p.established ==> p.chokedGoal == old(p.chokedGoal))
    ensures IsList(links0, files, 0) && IsList(links1, files, 1) && IsList(links2, files, 2) && SortedByRate(links0)
    ensures multiset(links0) + multiset(links1) + multiset(links2) ==
      multiset(l0) + multiset(l1) + multiset(l2) + ListedOne(files, uploadSlots, p)
  {
    var rank := Classify(files, p, uploadSlots);
    hide IsList, SortedByRate, GoalSet;
    links0, links1, links2 := Put(rank, p, l0, l1, l2, files);
  }

  // Sets the goals and puts the candidates on the three lists.
  method Sort(files: seq<FileSettings>, peers: seq<PeerLink>, uploadSlots: int)
    returns (links0: seq<PeerLink>, links1: seq<PeerLink>, links2: seq<PeerLink>)
    requires Distinct(peers) && forall i :: 0 <= i < |peers| ==> peers[i].file < |files|
    modifies peers
    ensures forall i :: 0 <= i < |peers| ==>
      && GoalSet(peers[i], files, uploadSlots)
      && (!peers[i].established ==> peers[i].chokedGoal == old(peers[i].chokedGoal))
    ensures IsList(links0, files, 0) && IsList(links1, files, 1) && IsList(links2, files, 2) && SortedByRate(links0)
    ensures multiset(links0) + multiset(links1) + multiset(links2) ==
      multiset(ListedOf(files, uploadSlots, peers))
  {
    links0, links1, links2 := [], [], [];
    assert SortedByRate(links0);
    hide SortedByRate, ListedOf;
    ghost var listed := CountListed(files, uploadSlots, peers);
    for i := 0 to |peers|
      invariant forall j :: 0 <= j < i ==> GoalSet(peers[j], files, uploadSlots)
      invariant forall j :: 0 <= j < |peers| && !peers[j].established ==>
        peers[j].chokedGoal == old(peers[j].chokedGoal)
      invariant IsList(links0, files, 0) && IsList(links1, files, 1) && IsList(links2, files, 2) && SortedByRate(links0)
      invariant multiset(links0) + multiset(links1) + multiset(links2) == listed[i]
    {
      links0, links1, links2 := SortOne(files, peers[i], uploadSlots, links0, links1, links2);
    }
  }

  lemma {:induction false} DistinctByCount(s: seq<PeerLink>, t: seq<PeerLink>)
    requires Distinct(t) && multiset(s) == multiset(t)
    ensures Distinct(s)
  {
    forall i, j | 0 <= i < j < |s|
      ensures s[i] != s[j]
    {
      AtMostOnce(t, s[i]);
      assert s == s[..i] + [s[i]] + s[i + 1..j] + [s[j]] + s[j + 1..];
    }
  }

  lemma {:induction false} AtMostOnce(t: seq<PeerLink>, p: PeerLink)
    requires Distinct(t)
    ensures multiset(t)[p] <= 1
    decreases |t|
  {
    if t != [] {
      var n := |t| - 1;
      AtMostOnce(t[..n], p);
      assert t == t[..n] + [t[n]];
      if t[n] == p {
        assert p !in t[..n];
      }
    }
  }

  ghost predicate PassIs(pass: nat, cs: seq<Candidate>, limits: seq<Limit>, st: State, r: State) {
    Shape(cs, limits, st) && r == Pass(pass, cs, limits, st, |cs|)
  }

  lemma {:induction false} PassesAre(cs: seq<Candidate>, limits: seq<Limit>, slots: nat) returns (states: seq<State>)
    requires FilesKnown(cs, limits)
    ensures |states| == 4 && states[0] == Start(cs, limits, slots) && states[3] == Passes(cs, limits, slots, 3)
    ensures forall pass :: 0 <= pass < 3 ==> PassIs(pass, cs, limits, states[pass], states[pass + 1])
  {
    var s0, s1 := Passes(cs, limits, slots, 0), Passes(cs, limits, slots, 1);
    var s2, s3 := Passes(cs, limits, slots, 2), Passes(cs, limits, slots, 3);
    states := [s0, s1, s2, s3];
  }

  method RunPass(pass: nat, links0: seq<PeerLink>, links1: seq<PeerLink>, links2: seq<PeerLink>,
                 rest0: seq<Limit>, slots0: nat, ghost order: seq<PeerLink>, ghost cs: seq<Candidate>,
                 ghost limits: seq<Limit>, ghost st: State, ghost next: State)
    returns (rest: seq<Limit>, slots: nat)
    requires order == links0 + links1 + links2 && Distinct(order)
    requires Matches(order, cs, limits, rest0, slots0, st) && PassIs(pass, cs, limits, st, next)
    modifies order
    ensures Matches(order, cs, limits, rest, slots, next)
  {
    ghost var trace := TraceOf(pass, cs, limits, st);
    ghost var a, b, c := |links0|, |links0| + |links1|, |cs|;
    rest, slots := RunList(pass, links0, rest0, slots0, order, cs, 0, a, limits, trace);
    rest, slots := RunList(pass, links1, rest, slots, order, cs, a, b, limits, trace);
    rest, slots := RunList(pass, links2, rest, slots, order, cs, b, c, limits, trace);
  }

  // The three passes over the three lists.
  method RunPasses(files: seq<FileSettings>, links0: seq<PeerLink>, links1: seq<PeerLink>, links2: seq<PeerLink>,
                   slots0: nat, ghost order: seq<PeerLink>, ghost cs: seq<Candidate>)
    requires order == links0 + links1 + links2 && Distinct(order) && cs == Candidates(order)
    requires forall i :: 0 <= i < |order| ==> order[i].file < |files| && order[i].chokedGoal
    modifies order
    ensures FilesKnown(cs, Limits(files))
    ensures forall i :: 0 <= i < |order| ==> order[i].chokedGoal == !Passes(cs, Limits(files), slots0, 3).unchoked[i]
  {
    var rest, slots := Limits(files), slots0;
    ghost var limits := rest;
    ghost var states := PassesAre(cs, limits, slots0);
    for pass := 0 to 3
      invariant Matches(order, cs, limits, rest, slots, states[pass])
    {
      rest, slots :=
        RunPass(pass, links0, links1, links2, rest, slots, order, cs, limits, states[pass], states[pass + 1]);
    }
  }

  // ----- what it means for the links -----

  // The interested candidates of torrent `f` that are to be unchoked, and those of
  // all torrents.
  ghost function Unchoked(order: seq<PeerLink>, f: nat): nat
    reads order
  {
    if order == [] then 0
    else
      var p := order[|order| - 1];
      Unchoked(order[..|order| - 1], f) + if p.file == f && p.remoteInterested && !p.chokedGoal then 1 else 0
  }

  ghost function AllUnchoked(order: seq<PeerLink>): nat
    reads order
  {
    if order == [] then 0
    else
      var p := order[|order| - 1];
      AllUnchoked(order[..|order| - 1]) + if p.remoteInterested && !p.chokedGoal then 1 else 0
  }

  // A torrent has more than its maximum, which 0 means it has not, only if no
  // candidate is choked whose torrent has none, or less than its own.
  ghost predicate MaximumsHold(files: seq<FileSettings>, order: seq<PeerLink>)
    requires forall p <- order :: p.file < |files|
    reads order
  {
    forall f, p | 0 <= f < |files| && files[f].slotsMin <= files[f].slotsMax && p in order && p.chokedGoal ::
      0 < files[f].slotsMax < Unchoked(order, f) ==>
        files[p.file].slotsMax != 0 && Unchoked(order, p.file) >= files[p.file].slotsMax
  }

  // The slots that would give every torrent its minimum.
  function MinimumSlots(files: seq<FileSettings>): nat {
    if files == [] then 0
    else MinimumSlots(files[..|files| - 1]) + Max(0, files[|files| - 1].slotsMin)
  }

  // With that many a torrent has its minimum, or no choked candidate.
  ghost predicate MinimumsHold(files: seq<FileSettings>, order: seq<PeerLink>, slots: int)
    requires forall p <- order :: p.file < |files|
    reads order
  {
    MinimumSlots(files) <= slots ==>
      forall p <- order :: p.chokedGoal ==> Unchoked(order, p.file) >= files[p.file].slotsMin
  }

  // No more slots are used than there are, and all if a candidate is choked.
  ghost predicate SlotsHold(order: seq<PeerLink>, slots: int)
    reads order
  {
    AllUnchoked(order) <= slots && forall p <- order :: p.chokedGoal ==> AllUnchoked(order) == slots
  }

  ghost predicate OrderHolds(order: seq<PeerLink>)
    reads order
  {
    forall i, k :: 0 <= i < k < |order| && order[i].file == order[k].file && order[i].chokedGoal ==> order[k].chokedGoal
  }

  // The goals are those of a state.
  ghost predicate GoalsAre(order: seq<PeerLink>, unchoked: seq<bool>)
    reads order
  {
    |unchoked| == |order| && forall i :: 0 <= i < |order| ==> order[i].chokedGoal == !unchoked[i]
  }

  lemma {:induction false} UnchokedIsCharged(order: seq<PeerLink>, unchoked: seq<bool>, f: nat)
    requires GoalsAre(order, unchoked)
    ensures Unchoked(order, f) == Charged(Candidates(order), unchoked, f)
    ensures AllUnchoked(order) == AllCharged(Candidates(order), unchoked)
    decreases |order|
  {
    if order != [] {
      var n := |order| - 1;
      assert Candidates(order)[..n] == Candidates(order[..n]);
      UnchokedIsCharged(order[..n], unchoked[..n], f);
    }
  }

  lemma {:induction false} MinimumSlotsSum(files: seq<FileSettings>)
    ensures Sum(Minimums(Limits(files))) == MinimumSlots(files)
    decreases |files|
  {
    if files != [] {
      var n := |files| - 1;
      MinimumSlotsSum(files[..n]);
      assert Minimums(Limits(files)) == Minimums(Limits(files[..n])) + [Max(0, files[n].slotsMin)];
      SumSnoc(Minimums(Limits(files[..n])), Max(0, files[n].slotsMin));
    }
  }

  // ... is what the passes bring about.
  lemma {:induction false} GoalsHold(files: seq<FileSettings>, order: seq<PeerLink>, slots: nat)
    requires FilesKnown(Candidates(order), Limits(files)) && forall p <- order :: p.file < |files|
    requires GoalsAre(order, Passes(Candidates(order), Limits(files), slots, 3).unchoked)
    ensures MinimumsHold(files, order, slots) && SlotsHold(order, slots) && OrderHolds(order)
    ensures slots <= 0x7fff_ffff ==> MaximumsHold(files, order)
  {
    var cs, limits := Candidates(order), Limits(files);
    var r := Passes(cs, limits, slots, 3);
    hide Passes;
    SlotsAreRespected(cs, limits, slots);
    ChargedSum(cs, r.unchoked, r.used);
    PassesKeepOrder(cs, limits, slots, 3);
    UnchokedIsCharged(order, r.unchoked, 0);
    forall f: nat | f < |files|
      ensures Unchoked(order, f) == r.used[f]
    {
      UnchokedIsCharged(order, r.unchoked, f);
    }
    MinimumSlotsSum(files);
    MinimumGoals(files, order, slots);
    if slots <= 0x7fff_ffff {
      MaximumGoals(files, order, slots);
    }
  }

  lemma MinimumGoals(files: seq<FileSettings>, order: seq<PeerLink>, slots: nat)
    requires FilesKnown(Candidates(order), Limits(files)) && forall p <- order :: p.file < |files|
    requires var r := Passes(Candidates(order), Limits(files), slots, 3);
      GoalsAre(order, r.unchoked) && forall f: nat :: f < |files| ==> Unchoked(order, f) == r.used[f]
    requires Sum(Minimums(Limits(files))) == MinimumSlots(files)
    ensures MinimumsHold(files, order, slots)
  {
    var cs, limits := Candidates(order), Limits(files);
    hide Passes, Unchoked, Minimums, MinimumSlots;
    if MinimumSlots(files) <= slots {
      forall i | 0 <= i < |order| && order[i].chokedGoal
        ensures Unchoked(order, order[i].file) >= files[order[i].file].slotsMin
      {
        MinimumsAreReached(cs, limits, slots, cs[i].file, i);
      }
    }
  }

  lemma MaximumGoals(files: seq<FileSettings>, order: seq<PeerLink>, slots: nat)
    requires FilesKnown(Candidates(order), Limits(files)) && forall p <- order :: p.file < |files|
    requires var r := Passes(Candidates(order), Limits(files), slots, 3);
      && GoalsAre(order, r.unchoked) && (forall f: nat :: f < |files| ==> Unchoked(order, f) == r.used[f])
      && Sum(r.used) <= slots <= 0x7fff_ffff
    ensures MaximumsHold(files, order)
  {
    var cs, limits := Candidates(order), Limits(files);
    var used := Passes(cs, limits, slots, 3).used;
    hide Passes, Unchoked;
    forall f: nat, i | f < |files| && files[f].slotsMin <= files[f].slotsMax && 0 <= i < |order| && order[i].chokedGoal
      ensures 0 < files[f].slotsMax < Unchoked(order, f) ==> var g := order[i].file;
        files[g].slotsMax != 0 && Unchoked(order, g) >= files[g].slotsMax
    {
      if 0 < files[f].slotsMax < Unchoked(order, f) {
        MaximumsAreKept(cs, limits, slots, f, i);
        if order[i].file != f {
          TwoOfSum(used, f, order[i].file);
        }
      }
    }
  }

  lemma {:induction false} TwoOfSum(s: seq<nat>, f: nat, g: nat)
    requires f < |s| && g < |s| && f != g
    ensures s[f] + s[g] <= Sum(s)
  {
    SumUpdate(s, f, 0);
    SumUpdate(s[f := 0], g, 0);
  }

  // Puts the choke goal of every link. `order` is the order in which the
  // listed candidates are considered.
  method UpdateChokes(files: seq<FileSettings>, peers: seq<PeerLink>, uploadSlots: int)
    returns (ghost order: seq<PeerLink>, ghost cs: seq<Candidate>)
    requires Distinct(peers) && forall i :: 0 <= i < |peers| ==> peers[i].file < |files|
    modifies peers
    ensures Distinct(order) && cs == Candidates(order) && FilesKnown(cs, Limits(files))
    ensures forall i, j :: 0 <= i < j < |order| ==> order[i].Rank() <= order[j].Rank()
    ensures forall i, j :: 0 <= i < j < |order| && order[j].Rank() == 0 ==> order[i].rate <= order[j].rate
    ensures multiset(order) == multiset(ListedOf(files, uploadSlots, peers))
    ensures forall i :: 0 <= i < |peers| && peers[i] !in order ==>
      && GoalSet(peers[i], files, uploadSlots)
      && (!peers[i].established ==> peers[i].chokedGoal == old(peers[i].chokedGoal))
    ensures var r := Passes(cs, Limits(files), Max(4, uploadSlots), 3);
      forall i :: 0 <= i < |order| ==> order[i].chokedGoal == !r.unchoked[i]
    ensures var slots := if uploadSlots < 4 then 4 else uploadSlots;
      && MinimumsHold(files, order, slots) && SlotsHold(order, slots) && OrderHolds(order)
      && (uploadSlots <= 0x7fff_ffff ==> MaximumsHold(files, order))
  {
    var links0, links1, links2 := Sort(files, peers, uploadSlots);
    var shuffled1 := Shuffle(links1);
    var shuffled2 := Shuffle(links2);
    SameList(links1, shuffled1, files, 1);
    SameList(links2, shuffled2, files, 2);
    order := links0 + shuffled1 + shuffled2;
    cs := Candidates(order);
    FromPeers(files, peers, uploadSlots, order);
    ByRank(files, links0, shuffled1, shuffled2, order);
    RunPasses(files, links0, shuffled1, shuffled2, Max(4, uploadSlots), order, cs);
    GoalsHold(files, order, Max(4, uploadSlots));
  }

  lemma {:induction false} FromPeers(files: seq<FileSettings>, peers: seq<PeerLink>, uploadSlots: int,
                                     order: seq<PeerLink>)
    requires Distinct(peers)
    requires multiset(order) == multiset(ListedOf(files, uploadSlots, peers))
    ensures Distinct(order)
    ensures forall i :: 0 <= i < |order| ==> order[i] in peers && order[i].Competes(files, uploadSlots)
  {
    ListedFacts(files, uploadSlots, peers);
    DistinctByCount(order, ListedOf(files, uploadSlots, peers));
    forall i | 0 <= i < |order|
      ensures order[i] in peers && order[i].Competes(files, uploadSlots)
    {
      assert order[i] in multiset(order);
    }
  }

  lemma ByRank(files: seq<FileSettings>, links0: seq<PeerLink>, links1: seq<PeerLink>, links2: seq<PeerLink>,
               order: seq<PeerLink>)
    requires IsList(links0, files, 0) && IsList(links1, files, 1) && IsList(links2, files, 2) && SortedByRate(links0)
    requires order == links0 + links1 + links2
    ensures forall i, j :: 0 <= i < j < |order| ==> order[i].Rank() <= order[j].Rank()
    ensures forall i, j :: 0 <= i < j < |order| && order[j].Rank() == 0 ==> order[i].rate <= order[j].rate
  {
  }
}
