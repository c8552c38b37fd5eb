/** The video room at the granularity of its lock: a join or a publish first changes the room,
    and the peers are handed the tracks afterwards, one call at a time and in any order. */
module SfuRace {
  import opened Sorting
  import opened SfuRoom

  /** A session still to be handed a track. */
  datatype Call = Call(session: nat, track: Track)

  /** Approved publishes have passed the duplicate check but not yet entered the room. */
  datatype Net = Net(
    peers: map<string, nat>,
    tracks: seq<Track>,
    held: map<nat, set<string>>,
    pending: multiset<Call>,
    approved: multiset<(string, string)>
  )

  const EMPTY_NET := Net(map[], [], map[], multiset{}, multiset{})

  datatype Step =
    | Register(id: string, session: nat)
    | Check(publisherID: string, kind: string)
    | Append(track: Track)
    | Deliver(call: Call)

  function Backfills(session: nat, tracks: seq<Track>): set<Call> {
    set t | t in tracks :: Call(session, t)
  }

  function Announcements(peers: map<string, nat>, t: Track): set<Call> {
    set q | q in peers && q != t.publisherID :: Call(peers[q], t)
  }

  predicate HasKind(tracks: seq<Track>, id: string, kind: string) {
    exists t :: t in tracks && t.publisherID == id && t.kind == kind
  }

  /** Ids join once, on fresh sessions; joined peers publish; track ids are fresh. */
  predicate Allowed(n: Net, e: Step) {
    match e
    case Register(id, session) => id !in n.peers && session !in n.held
    case Check(id, _) => id in n.peers
    case Append(t) => (t.publisherID, t.kind) in n.approved && t.publisherID in n.peers && t.trackID !in TrackIds(n.tracks)
    case Deliver(c) => c in n.pending && c.session in n.held
  }

  function Next(n: Net, e: Step): Net
    requires Allowed(n, e)
  {
    match e
    case Register(id, session) =>
      n.(peers := n.peers[id := session], held := n.held[session := {}],
         pending := n.pending + multiset(Backfills(session, n.tracks)))
    case Check(id, kind) =>
      if HasKind(n.tracks, id, kind) then n else n.(approved := n.approved + multiset{(id, kind)})
    case Append(t) =>
      n.(tracks := n.tracks + [t], approved := n.approved - multiset{(t.publisherID, t.kind)},
         pending := n.pending + multiset(Announcements(n.peers, t)))
    case Deliver(c) =>
      n.(held := n.held[c.session := n.held[c.session] + {c.track.trackID}], pending := n.pending - multiset{c})
  }

  // --- subscribed or pending, exactly once ---

  /** How often a session has been or will be handed a track. */
  function Progress(pending: multiset<Call>, held: map<nat, set<string>>, session: nat, t: Track): nat {
    pending[Call(session, t)] + if session in held && t.trackID in held[session] then 1 else 0
  }

  predicate Once(n: Net, q: string, t: Track)
    requires q in n.peers
  {
    Progress(n.pending, n.held, n.peers[q], t) == if t.publisherID == q then 0 else 1
  }

  ghost predicate ExactlyOnce(n: Net) {
    forall q, t :: q in n.peers && t in n.tracks ==> Once(n, q, t)
  }

  ghost predicate DistinctIds(tracks: seq<Track>) {
    forall s, t :: s in tracks && t in tracks && s.trackID == t.trackID ==> s == t
  }

  ghost predicate DistinctSessions(peers: map<string, nat>) {
    forall p, q :: p in peers && q in peers && peers[p] == peers[q] ==> p == q
  }

  predicate IsTrackId(tracks: seq<Track>, x: string) {
    exists t :: t in tracks && t.trackID == x
  }

  ghost predicate PendingKnown(pending: multiset<Call>, held: map<nat, set<string>>, tracks: seq<Track>) {
    forall c :: c in pending ==> c.session in held && c.track in tracks
  }

  ghost predicate HeldKnown(held: map<nat, set<string>>, tracks: seq<Track>) {
    forall s, x :: s in held && x in held[s] ==> IsTrackId(tracks, x)
  }

  ghost predicate Known(n: Net) {
    && PendingKnown(n.pending, n.held, n.tracks)
    && HeldKnown(n.held, n.tracks)
    && (forall q :: q in n.peers ==> n.peers[q] in n.held)
    && (forall t :: t in n.tracks ==> t.publisherID in n.peers)
  }

  ghost predicate Good(n: Net) {
    DistinctSessions(n.peers) && DistinctIds(n.tracks) && Known(n) && ExactlyOnce(n)
  }

  lemma BackfillProgress(pending: multiset<Call>, held: map<nat, set<string>>, tracks: seq<Track>, session: nat, s: nat, t: Track)
    requires session !in held && t in tracks && PendingKnown(pending, held, tracks)
    ensures Progress(pending + multiset(Backfills(session, tracks)), held[session := {}], s, t) ==
            if s == session then 1 else Progress(pending, held, s, t)
  {
    assert Call(s, t) in Backfills(session, tracks) <==> s == session;
    if s == session {
      assert Call(s, t) !in pending;
    }
  }

  lemma JoinKeeps(n: Net, id: string, session: nat)
    requires Good(n) && Allowed(n, Register(id, session))
    ensures Good(Next(n, Register(id, session)))
  {
    var n' := Next(n, Register(id, session));
    forall q, t | q in n'.peers && t in n'.tracks
      ensures Once(n', q, t)
    {
      BackfillProgress(n.pending, n.held, n.tracks, session, n'.peers[q], t);
      if q != id {
        assert Once(n, q, t);
      }
    }
    forall c | c in n'.pending
      ensures c.session in n'.held && c.track in n'.tracks
    {
      assert c in n.pending || c in Backfills(session, n.tracks);
    }
  }

  lemma AnnouncementProgress(n: Net, t: Track, q: string, u: Track)
    requires DistinctSessions(n.peers) && PendingKnown(n.pending, n.held, n.tracks) && HeldKnown(n.held, n.tracks)
    requires q in n.peers && t.trackID !in TrackIds(n.tracks) && (u in n.tracks || u == t)
    ensures Progress(n.pending + multiset(Announcements(n.peers, t)), n.held, n.peers[q], u) ==
            if u == t then (if q == t.publisherID then 0 else 1) else Progress(n.pending, n.held, n.peers[q], u)
  {
    var c := Call(n.peers[q], u);
    if u == t {
      assert c !in n.pending;
      assert !IsTrackId(n.tracks, t.trackID);
      assert c in Announcements(n.peers, t) <==> q != t.publisherID;
    } else {
      assert c !in Announcements(n.peers, t);
    }
  }

  lemma AppendKnown(n: Net, t: Track)
    requires Known(n) && t.publisherID in n.peers
    ensures PendingKnown(n.pending + multiset(Announcements(n.peers, t)), n.held, n.tracks + [t])
    ensures HeldKnown(n.held, n.tracks + [t])
  {
    var tracks := n.tracks + [t];
    assert t in tracks;
    assert forall u :: u in n.tracks ==> u in tracks;
    forall s, x | s in n.held && x in n.held[s]
      ensures IsTrackId(tracks, x)
    {
      assert IsTrackId(n.tracks, x);
      var u :| u in n.tracks && u.trackID == x;
      assert u in tracks;
    }
    forall c | c in n.pending + multiset(Announcements(n.peers, t))
      ensures c.session in n.held && c.track in tracks
    {
      assert c in n.pending || c in Announcements(n.peers, t);
    }
  }

  lemma AppendKeeps(n: Net, t: Track)
    requires Good(n) && Allowed(n, Append(t))
    ensures Good(Next(n, Append(t)))
  {
    var n' := Next(n, Append(t));
    AppendKnown(n, t);
    forall q, u | q in n'.peers && u in n'.tracks
      ensures Once(n', q, u)
    {
      AnnouncementProgress(n, t, q, u);
      if u != t {
        assert Once(n, q, u);
      }
    }
  }

  lemma DeliverKeeps(n: Net, c: Call)
    requires Good(n) && Allowed(n, Deliver(c))
    ensures Good(Next(n, Deliver(c)))
  {
    var n' := Next(n, Deliver(c));
    forall q, t | q in n'.peers && t in n'.tracks
      ensures Once(n', q, t)
    {
      assert Once(n, q, t);
    }
    assert IsTrackId(n.tracks, c.track.trackID);
  }

  lemma StepKeepsGood(n: Net, e: Step)
    requires Good(n) && Allowed(n, e)
    ensures Good(Next(n, e))
  {
    match e
    case Register(id, session) => JoinKeeps(n, id, session);
    case Check(_, _) =>
    case Append(t) => AppendKeeps(n, t);
    case Deliver(c) => DeliverKeeps(n, c);
  }

  ghost predicate AllowedRun(n: Net, run: seq<Step>)
    decreases run
  {
    run == [] || (Allowed(n, run[0]) && AllowedRun(Next(n, run[0]), run[1..]))
  }

  ghost function After(n: Net, run: seq<Step>): Net
    requires AllowedRun(n, run)
    decreases run
  {
    if run == [] then n else After(Next(n, run[0]), run[1..])
  }

  /** However joins, publishes and the calls they leave behind interleave, each track of another
      peer has at all times either reached a registered peer or is about to, once. */
  lemma {:induction false} SubscribedOrPendingOnce(n: Net, run: seq<Step>)
    requires Good(n) && AllowedRun(n, run)
    ensures Good(After(n, run))
    decreases run
  {
    if run != [] {
      StepKeepsGood(n, run[0]);
      SubscribedOrPendingOnce(Next(n, run[0]), run[1..]);
    }
  }

  /** In the room are the tracks appended, and registered those who joined, under the session they
      joined with. */
  lemma {:induction false} RoomHoldsRun(n: Net, run: seq<Step>)
    requires AllowedRun(n, run)
    ensures forall t :: t in After(n, run).tracks <==> t in n.tracks || Append(t) in run
    ensures forall q :: q in After(n, run).peers <==> q in n.peers || exists s :: Register(q, s) in run
    ensures forall q, s :: Register(q, s) in run ==> q in After(n, run).peers && After(n, run).peers[q] == s
    ensures forall q :: q in n.peers ==> After(n, run).peers[q] == n.peers[q]
    decreases run
  {
    if run != [] {
      RoomHoldsRun(Next(n, run[0]), run[1..]);
      assert forall e :: e in run <==> e == run[0] || e in run[1..];
      assert forall t :: t in Next(n, run[0]).tracks <==> t in n.tracks || run[0] == Append(t);
    }
  }

  // --- drained runs ---

  ghost predicate Complete(n: Net) {
    forall q :: q in n.peers ==> n.peers[q] in n.held && n.held[n.peers[q]] == OfOthers(n.tracks, q)
  }

  function CallIds(pending: multiset<Call>, session: nat): set<string> {
    set c | c in pending && c.session == session :: c.track.trackID
  }

  /** The room once every pending call has been made. */
  function Drained(n: Net): Net {
    n.(held := map s | s in n.held :: n.held[s] + CallIds(n.pending, s), pending := multiset{})
  }

  predicate Deliveries(run: seq<Step>) {
    forall i :: 0 <= i < |run| ==> run[i].Deliver?
  }

  lemma NothingToDrain(n: Net)
    requires n.pending == multiset{}
    ensures Drained(n) == n
  {
    forall s | s in n.held
      ensures n.held[s] + CallIds(n.pending, s) == n.held[s]
    {
      assert CallIds(n.pending, s) == {};
    }
    assert Drained(n).held == n.held;
  }

  lemma CallIdsStep(pending: multiset<Call>, c: Call, session: nat)
    requires c in pending
    ensures CallIds(pending, session) ==
            CallIds(pending - multiset{c}, session) + if c.session == session then {c.track.trackID} else {}
  {
    assert forall d :: d in pending <==> d in pending - multiset{c} || d == c;
  }

  lemma DeliverThenDrain(n: Net, c: Call)
    requires c in n.pending && c.session in n.held
    ensures Drained(Next(n, Deliver(c))) == Drained(n)
  {
    var n' := Next(n, Deliver(c));
    forall s | s in n.held
      ensures Drained(n').held[s] == Drained(n).held[s]
    {
      CallIdsStep(n.pending, c, s);
    }
    assert Drained(n').held == Drained(n).held;
  }

  /** The order of the calls does not matter. */
  lemma {:induction false} DeliveryOrderIrrelevant(n: Net, run: seq<Step>)
    requires AllowedRun(n, run) && Deliveries(run) && After(n, run).pending == multiset{}
    ensures After(n, run) == Drained(n)
    decreases run
  {
    if run == [] {
      NothingToDrain(n);
    } else {
      assert run[0].Deliver?;
      DeliverThenDrain(n, run[0].call);
      DeliveryOrderIrrelevant(Next(n, run[0]), run[1..]);
    }
  }

  /** And every reachable room can be drained. */
  lemma {:induction false} CanDrain(n: Net) returns (run: seq<Step>)
    requires PendingKnown(n.pending, n.held, n.tracks)
    ensures AllowedRun(n, run) && Deliveries(run) && |run| == |n.pending| && After(n, run) == Drained(n)
    decreases |n.pending|
  {
    if c :| c in n.pending {
      var rest := CanDrain(Next(n, Deliver(c)));
      run := [Deliver(c)] + rest;
      assert run[0] == Deliver(c) && run[1..] == rest;
      DeliverThenDrain(n, c);
    } else {
      run := [];
      assert n.pending == multiset{};
      NothingToDrain(n);
    }
  }

  /** What the calls add up to, for every registered peer. */
  lemma DrainedHolds(n: Net, q: string)
    requires Good(n) && q in n.peers
    ensures Drained(n).held[n.peers[q]] == OfOthers(n.tracks, q)
  {
    var s := n.peers[q];
    var final := Drained(n).held[s];
    forall x | x in final
      ensures x in OfOthers(n.tracks, q)
    {
      var t := HolderOf(n, q, x);
    }
    forall t | t in n.tracks && t.publisherID != q
      ensures t.trackID in final
    {
      assert Once(n, q, t);
      if Call(s, t) in n.pending {
        assert t.trackID in CallIds(n.pending, s);
      }
    }
  }

  /** A track held or about to be held by a peer is one of the others'. */
  lemma HolderOf(n: Net, q: string, x: string) returns (t: Track)
    requires Good(n) && q in n.peers
    requires x in n.held[n.peers[q]] || x in CallIds(n.pending, n.peers[q])
    ensures t in n.tracks && t.trackID == x && t.publisherID != q
    ensures Call(n.peers[q], t) in n.pending || x in n.held[n.peers[q]]
  {
    var s := n.peers[q];
    if c :| c in n.pending && c.session == s && c.track.trackID == x {
      t := c.track;
      assert c == Call(s, t);
    } else {
      assert IsTrackId(n.tracks, x);
      t :| t in n.tracks && t.trackID == x;
    }
    assert Once(n, q, t);
  }

  /** With no call left, every peer holds exactly the tracks of the others. */
  lemma DrainedIsComplete(run: seq<Step>)
    requires AllowedRun(EMPTY_NET, run)
    ensures Complete(Drained(After(EMPTY_NET, run)))
    ensures After(EMPTY_NET, run).pending == multiset{} ==> Complete(After(EMPTY_NET, run))
  {
    SubscribedOrPendingOnce(EMPTY_NET, run);
    var n := After(EMPTY_NET, run);
    forall q | q in n.peers
      ensures Drained(n).held[n.peers[q]] == OfOthers(n.tracks, q)
    {
      DrainedHolds(n, q);
    }
    if n.pending == multiset{} {
      NothingToDrain(n);
    }
  }

  // --- the races that remain ---

  /** Tracks of the publisher and kind, in the room or approved for it. */
  function KindCount(tracks: seq<Track>, id: string, kind: string): nat {
    if tracks == [] then 0 else
      var t := tracks[|tracks| - 1];
      KindCount(tracks[..|tracks| - 1], id, kind) + if t.publisherID == id && t.kind == kind then 1 else 0
  }

  function Weight(n: Net, id: string, kind: string): nat {
    KindCount(n.tracks, id, kind) + n.approved[(id, kind)]
  }

  /** No publisher has, or is about to have, two tracks of a kind. */
  ghost predicate KindsSafe(n: Net) {
    forall id, kind :: Weight(n, id, kind) <= 1
  }

  lemma {:induction false} KindCounted(tracks: seq<Track>, id: string, kind: string)
    ensures KindCount(tracks, id, kind) > 0 <==> HasKind(tracks, id, kind)
  {
    if tracks != [] {
      var init, t := tracks[..|tracks| - 1], tracks[|tracks| - 1];
      KindCounted(init, id, kind);
      assert forall u :: u in tracks <==> u in init || u == t;
    }
  }

  /** An append turns an approval into a track, and a check that passes adds an approval; so a
      weight never falls. */
  lemma StepWeight(n: Net, e: Step, id: string, kind: string)
    requires Allowed(n, e)
    ensures Weight(Next(n, e), id, kind) ==
      Weight(n, id, kind) + if e == Check(id, kind) && !HasKind(n.tracks, id, kind) then 1 else 0
  {
    if e.Append? {
      assert (n.tracks + [e.track])[..|n.tracks|] == n.tracks;
    }
  }

  /** A check made while an approval of the same publisher and kind is outstanding. */
  predicate Overlaps(n: Net, e: Step) {
    e.Check? && (e.publisherID, e.kind) in n.approved
  }

  /** Registering, appending and delivering are always safe; a check is exactly when no approval
      of the same publisher and kind is outstanding. */
  lemma StepKindsSafe(n: Net, e: Step)
    requires KindsSafe(n) && Allowed(n, e)
    ensures KindsSafe(Next(n, e)) <==> !Overlaps(n, e)
  {
    var n' := Next(n, e);
    if Overlaps(n, e) {
      var (id, kind) := (e.publisherID, e.kind);
      assert Weight(n, id, kind) <= 1;
      KindCounted(n.tracks, id, kind);
      StepWeight(n, e, id, kind);
      assert Weight(n', id, kind) == 2;
    } else {
      forall id, kind
        ensures Weight(n', id, kind) <= 1
      {
        assert Weight(n, id, kind) <= 1;
        StepWeight(n, e, id, kind);
        KindCounted(n.tracks, id, kind);
      }
    }
  }

  /** Every check of the run finds no approval of its publisher and kind outstanding. */
  ghost predicate ChecksAlone(n: Net, run: seq<Step>)
    requires AllowedRun(n, run)
    decreases run
  {
    run == [] || (!Overlaps(n, run[0]) && ChecksAlone(Next(n, run[0]), run[1..]))
  }

  lemma {:induction false} WeightNeverFalls(n: Net, run: seq<Step>, id: string, kind: string)
    requires AllowedRun(n, run)
    ensures Weight(After(n, run), id, kind) >= Weight(n, id, kind)
    decreases run
  {
    if run != [] {
      StepWeight(n, run[0], id, kind);
      WeightNeverFalls(Next(n, run[0]), run[1..], id, kind);
    }
  }

  /** Over runs: one track per kind is kept exactly when no two checks of one publisher and kind
      overlap, and once lost it does not come back. */
  lemma {:induction false} KindsSafeIffChecksAlone(n: Net, run: seq<Step>)
    requires KindsSafe(n) && AllowedRun(n, run)
    ensures KindsSafe(After(n, run)) <==> ChecksAlone(n, run)
    decreases run
  {
    if run != [] {
      var n' := Next(n, run[0]);
      StepKindsSafe(n, run[0]);
      if KindsSafe(n') {
        KindsSafeIffChecksAlone(n', run[1..]);
      } else {
        var id, kind :| Weight(n', id, kind) > 1;
        WeightNeverFalls(n', run[1..], id, kind);
        assert Weight(After(n, run), id, kind) > 1;
      }
    }
  }

  lemma TwiceFrom(init: seq<Track>, t: Track, id: string, kind: string)
    requires Twice(init, id, kind) || (OfKind(t, id, kind) && HasKind(init, id, kind))
    ensures Twice(init + [t], id, kind)
  {
    var tracks := init + [t];
    if Twice(init, id, kind) {
      var i, j :| 0 <= i < j < |init| && OfKind(init[i], id, kind) && OfKind(init[j], id, kind);
      assert OfKind(tracks[i], id, kind) && OfKind(tracks[j], id, kind);
    } else {
      var u :| u in init && u.publisherID == id && u.kind == kind;
      var i :| 0 <= i < |init| && init[i] == u;
      assert OfKind(tracks[i], id, kind) && OfKind(tracks[|init|], id, kind);
    }
  }

  lemma TwiceTo(init: seq<Track>, t: Track, id: string, kind: string)
    requires Twice(init + [t], id, kind)
    ensures Twice(init, id, kind) || (OfKind(t, id, kind) && HasKind(init, id, kind))
  {
    var tracks := init + [t];
    var i, j :| 0 <= i < j < |tracks| && OfKind(tracks[i], id, kind) && OfKind(tracks[j], id, kind);
    assert init[i] == tracks[i] && init[i] in init;
    if j < |init| {
      assert OfKind(init[i], id, kind) && OfKind(init[j], id, kind);
    }
  }

  lemma {:induction false} TwoAreCounted(tracks: seq<Track>, id: string, kind: string)
    ensures KindCount(tracks, id, kind) > 1 <==> Twice(tracks, id, kind)
  {
    if tracks != [] {
      var init, t := tracks[..|tracks| - 1], tracks[|tracks| - 1];
      assert tracks == init + [t];
      TwoAreCounted(init, id, kind);
      KindCounted(init, id, kind);
      if Twice(tracks, id, kind) {
        TwiceTo(init, t, id, kind);
      } else if Twice(init, id, kind) || (OfKind(t, id, kind) && HasKind(init, id, kind)) {
        TwiceFrom(init, t, id, kind);
      }
    }
  }

  predicate OfKind(t: Track, id: string, kind: string) {
    t.publisherID == id && t.kind == kind
  }

  /** Two places in the room hold tracks of the publisher and kind. */
  ghost predicate Twice(tracks: seq<Track>, id: string, kind: string) {
    exists i, j :: 0 <= i < j < |tracks| && OfKind(tracks[i], id, kind) && OfKind(tracks[j], id, kind)
  }

  lemma NeverTwiceIsOnePerKind(tracks: seq<Track>)
    requires DistinctIds(tracks) && forall id, kind :: !Twice(tracks, id, kind)
    ensures OnePerKind(tracks)
  {
    forall s, t | s in tracks && t in tracks && s.publisherID == t.publisherID && s.kind == t.kind
      ensures s == t
    {
      var i :| 0 <= i < |tracks| && tracks[i] == s;
      var j :| 0 <= j < |tracks| && tracks[j] == t;
      assert OfKind(tracks[i], s.publisherID, s.kind) && OfKind(tracks[j], s.publisherID, s.kind);
      assert !Twice(tracks, s.publisherID, s.kind);
    }
  }

  /** With no approval outstanding, being safe is holding one track per kind. */
  lemma SafeIsOnePerKind(n: Net)
    requires n.approved == multiset{} && NoDup(n.tracks) && DistinctIds(n.tracks)
    ensures KindsSafe(n) <==> OnePerKind(n.tracks)
  {
    forall id, kind
      ensures Weight(n, id, kind) <= 1 <==> !Twice(n.tracks, id, kind)
    {
      TwoAreCounted(n.tracks, id, kind);
    }
    if KindsSafe(n) {
      forall id, kind
        ensures !Twice(n.tracks, id, kind)
      {
        assert Weight(n, id, kind) <= 1;
      }
      NeverTwiceIsOnePerKind(n.tracks);
    } else {
      var id, kind :| Weight(n, id, kind) > 1;
    }
  }

  /** A room that started empty and has no approval outstanding holds two tracks of one kind
      exactly when two checks overlapped on the way. */
  lemma DuplicatesIffOverlap(run: seq<Step>)
    requires AllowedRun(EMPTY_NET, run) && After(EMPTY_NET, run).approved == multiset{}
    ensures OnePerKind(After(EMPTY_NET, run).tracks) <==> ChecksAlone(EMPTY_NET, run)
  {
    SubscribedOrPendingOnce(EMPTY_NET, run);
    KindsSafeIffChecksAlone(EMPTY_NET, run);
    DistinctPlaces(EMPTY_NET, run);
    SafeIsOnePerKind(After(EMPTY_NET, run));
  }

  /** A track enters the room once, because its id is new. */
  lemma {:induction false} DistinctPlaces(n: Net, run: seq<Step>)
    requires AllowedRun(n, run) && NoDup(n.tracks)
    ensures NoDup(After(n, run).tracks)
    decreases run
  {
    if run != [] {
      assert run[0].Append? ==> run[0].track !in n.tracks;
      DistinctPlaces(Next(n, run[0]), run[1..]);
    }
  }

  /** And it happens: from any room where a peer has no track of the kind, two
      publishes can both pass the check. */
  lemma TwoPublishesPassTheCheck(n: Net, s: Track, t: Track)
    requires s.publisherID in n.peers && !HasKind(n.tracks, s.publisherID, s.kind)
    requires t.publisherID == s.publisherID && t.kind == s.kind && t.trackID != s.trackID
    requires s.trackID !in TrackIds(n.tracks) && t.trackID !in TrackIds(n.tracks)
    ensures var run := [Check(s.publisherID, s.kind), Check(s.publisherID, s.kind), Append(s), Append(t)];
            AllowedRun(n, run) && !ChecksAlone(n, run) && !OnePerKind(After(n, run).tracks)
  {
    var check := Check(s.publisherID, s.kind);
    var n1 := Next(n, check);
    var n2 := Next(n1, check);
    var n3 := Next(n2, Append(s));
    TrackIdsGrow(n.tracks, s);
    var n4 := Next(n3, Append(t));
    assert s in n4.tracks && t in n4.tracks;
    var run := [check, check, Append(s), Append(t)];
    assert run[1..] == [check, Append(s), Append(t)];
    assert run[1..][1..] == [Append(s), Append(t)];
    assert run[1..][1..][1..] == [Append(t)];
    assert run[1..][1..][1..][1..] == [];
    assert AllowedRun(n4, []);
    assert AllowedRun(n3, [Append(t)]) && After(n3, [Append(t)]) == n4;
    assert AllowedRun(n2, [Append(s), Append(t)]) && After(n2, [Append(s), Append(t)]) == n4;
    assert AllowedRun(n1, [check, Append(s), Append(t)]) && After(n1, [check, Append(s), Append(t)]) == n4;
    assert Overlaps(n1, check) && !ChecksAlone(n1, run[1..]);
  }

  /** A leave done in one go: the id and its tracks go, and those who hold the tracks drop them.
      Calls already under way are not recalled. */
  function Leave(n: Net, id: string): Net {
    n.(peers := n.peers - {id}, tracks := Others(n.tracks, id),
       held := map s | s in n.held :: if id in n.peers && s == n.peers[id] then n.held[s] else n.held[s] - IdsBy(n.tracks, id))
  }

  ghost predicate UnderWay(n: Net, id: string) {
    exists q, t :: q in n.peers && q != id && t in n.tracks && t.publisherID == id && Call(n.peers[q], t) in n.pending
  }

  /** Leaving while a call for one of the leaver's tracks is under way is what leaves a peer with
      a dead track; otherwise the drained room is complete. */
  lemma LeaveCompleteUnlessUnderWay(n: Net, id: string)
    requires Good(n) && id in n.peers
    ensures Complete(Drained(Leave(n, id))) <==> !UnderWay(n, id)
  {
    if UnderWay(n, id) {
      DeadTrack(n, id);
    } else {
      var d := Drained(Leave(n, id));
      forall q | q in d.peers
        ensures d.held[d.peers[q]] == OfOthers(d.tracks, q)
      {
        LeaverGone(n, id, q);
      }
    }
  }

  lemma DeadTrack(n: Net, id: string)
    requires DistinctIds(n.tracks) && UnderWay(n, id) && id in n.peers
    requires forall q :: q in n.peers ==> n.peers[q] in n.held
    ensures !Complete(Drained(Leave(n, id)))
  {
    var q, t :| q in n.peers && q != id && t in n.tracks && t.publisherID == id && Call(n.peers[q], t) in n.pending;
    var d := Drained(Leave(n, id));
    assert t.trackID in CallIds(n.pending, n.peers[q]);
    assert q in d.peers && t.trackID in d.held[d.peers[q]];
    assert t.trackID !in OfOthers(d.tracks, q);
  }

  lemma LeaverGone(n: Net, id: string, q: string)
    requires Good(n) && id in n.peers && q in n.peers && q != id && !UnderWay(n, id)
    ensures Drained(Leave(n, id)).held[n.peers[q]] == OfOthers(Others(n.tracks, id), q)
  {
    var s := n.peers[q];
    var final := Drained(Leave(n, id)).held[s];
    assert final == (n.held[s] - IdsBy(n.tracks, id)) + CallIds(n.pending, s);
    forall x | x in final
      ensures x in OfOthers(Others(n.tracks, id), q)
    {
      var t := HolderOf(n, q, x);
      assert t.publisherID != id;
      assert t in Others(n.tracks, id);
    }
    forall t | t in Others(n.tracks, id) && t.publisherID != q
      ensures t.trackID in final
    {
      assert Once(n, q, t);
      if Call(s, t) in n.pending {
        assert t.trackID in CallIds(n.pending, s);
      } else {
        assert t.trackID !in IdsBy(n.tracks, id);
      }
    }
  }
}
