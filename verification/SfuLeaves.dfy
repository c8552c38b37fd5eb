/** The video room at the granularity of its lock, with leaves and reconnects. A leave or a reconnect
    takes the publisher's tracks out of the room at once, and the sessions still there drop them
    afterwards, one by one; a call handing over such a track may come before or after. */
module SfuLeaves {
  import opened SfuRoom
  import opened SfuRace

  /** A session still to drop a track. */
  datatype Removal = Removal(session: nat, trackID: string)

  /** Issued are all tracks ever published. */
  datatype Floor = Floor(
    peers: map<string, nat>,
    tracks: seq<Track>,
    held: map<nat, set<string>>,
    pending: multiset<Call>,
    removals: multiset<Removal>,
    issued: set<Track>
  )

  const EMPTY_FLOOR := Floor(map[], [], map[], multiset{}, multiset{}, {})

  datatype Turn =
    | Enter(id: string, session: nat)
    | Announce(track: Track)
    | Depart(id: string)
    | Hand(call: Call)
    | Withdraw(removal: Removal)

  function Withdrawals(peers: map<string, nat>, tracks: seq<Track>, id: string): set<Removal> {
    set q, t | q in peers && q != id && t in tracks && t.publisherID == id :: Removal(peers[q], t.trackID)
  }

  /** A session that takes over a registered id has the tracks of the id withdrawn first. */
  function Left(n: Floor, id: string): seq<Track> {
    if id in n.peers then Others(n.tracks, id) else n.tracks
  }

  function Gone(n: Floor, id: string): set<Removal> {
    if id in n.peers then Withdrawals(n.peers, n.tracks, id) else {}
  }

  predicate IdIssued(issued: set<Track>, x: string) {
    exists t :: t in issued && t.trackID == x
  }

  /** Sessions are new, track ids too, and registered peers publish. */
  predicate CanTurn(n: Floor, e: Turn) {
    match e
    case Enter(_, session) => session !in n.held
    case Announce(t) => t.publisherID in n.peers && !IdIssued(n.issued, t.trackID)
    case Depart(_) => true
    case Hand(c) => c in n.pending && c.session in n.held
    case Withdraw(x) => x in n.removals && x.session in n.held
  }

  function Turned(n: Floor, e: Turn): Floor
    requires CanTurn(n, e)
  {
    match e
    case Enter(id, session) =>
      var left := Left(n, id);
      n.(peers := n.peers[id := session], tracks := left, held := n.held[session := {}],
         pending := n.pending + multiset(Backfills(session, left)), removals := n.removals + multiset(Gone(n, id)))
    case Announce(t) =>
      n.(tracks := n.tracks + [t], pending := n.pending + multiset(Announcements(n.peers, t)), issued := n.issued + {t})
    case Depart(id) =>
      n.(peers := n.peers - {id}, tracks := Others(n.tracks, id),
         removals := n.removals + multiset(Withdrawals(n.peers, n.tracks, id)))
    case Hand(c) =>
      n.(held := n.held[c.session := n.held[c.session] + {c.track.trackID}], pending := n.pending - multiset{c})
    case Withdraw(x) =>
      n.(held := n.held[x.session := n.held[x.session] - {x.trackID}], removals := n.removals - multiset{x})
  }

  // --- what every turn keeps ---

  function Due(removals: multiset<Removal>, s: nat, t: Track): nat {
    removals[Removal(s, t.trackID)]
  }

  function Reached(n: Floor, s: nat, t: Track): nat {
    Progress(n.pending, n.held, s, t)
  }

  /** A live track of another has reached the session or is about to, once, and is not to be dropped;
      a dead one has at most, and certainly while it is still to be dropped. */
  predicate Tallied(n: Floor, q: string, s: nat, t: Track) {
    if t in n.tracks then Due(n.removals, s, t) == 0 && Reached(n, s, t) == if t.publisherID == q then 0 else 1
    else Due(n.removals, s, t) <= Reached(n, s, t) <= 1
  }

  ghost predicate AllTallied(n: Floor) {
    forall q, t :: q in n.peers && t in n.issued ==> Tallied(n, q, n.peers[q], t)
  }

  ghost predicate UniqueIds(issued: set<Track>) {
    forall t, u :: t in issued && u in issued && t.trackID == u.trackID ==> t == u
  }

  // Calls and removals concern sessions and tracks there have been.

  ghost predicate CallsRecorded(pending: multiset<Call>, held: map<nat, set<string>>, issued: set<Track>) {
    forall c :: c in pending ==> c.session in held && c.track in issued
  }

  ghost predicate RemovalsRecorded(removals: multiset<Removal>, held: map<nat, set<string>>, issued: set<Track>) {
    forall x :: x in removals ==> x.session in held && IdIssued(issued, x.trackID)
  }

  ghost predicate HeldRecorded(held: map<nat, set<string>>, issued: set<Track>) {
    forall s, x :: s in held && x in held[s] ==> IdIssued(issued, x)
  }

  ghost predicate Recorded(n: Floor) {
    && CallsRecorded(n.pending, n.held, n.issued) && RemovalsRecorded(n.removals, n.held, n.issued)
    && HeldRecorded(n.held, n.issued) && forall q :: q in n.peers ==> n.peers[q] in n.held
  }

  ghost predicate Sound(n: Floor) {
    && DistinctSessions(n.peers) && UniqueIds(n.issued)
    && (forall t :: t in n.tracks ==> t in n.issued && t.publisherID in n.peers)
    && Recorded(n) && AllTallied(n)
  }

  /** The removals a departure adds for one session and track. */
  lemma WithdrawalsOf(n: Floor, id: string, q: string, t: Track)
    requires Sound(n) && q in n.peers && q != id && t in n.issued
    ensures Removal(n.peers[q], t.trackID) in Withdrawals(n.peers, n.tracks, id) <==> t in n.tracks && t.publisherID == id
  {
    if Removal(n.peers[q], t.trackID) in Withdrawals(n.peers, n.tracks, id) {
      var p, u :| p in n.peers && p != id && u in n.tracks && u.publisherID == id &&
        Removal(n.peers[p], u.trackID) == Removal(n.peers[q], t.trackID);
      assert u == t;
    }
  }

  lemma EnterTakesOut(n: Floor, id: string, t: Track)
    requires Sound(n) && t in n.issued
    ensures t in Left(n, id) <==> t in n.tracks && t.publisherID != id
    ensures forall q :: q in n.peers && q != id ==>
      (Removal(n.peers[q], t.trackID) in Gone(n, id) <==> t in n.tracks && t.publisherID == id)
  {
    if id in n.peers {
      forall q | q in n.peers && q != id
        ensures Removal(n.peers[q], t.trackID) in Gone(n, id) <==> t in n.tracks && t.publisherID == id
      {
        WithdrawalsOf(n, id, q, t);
      }
    }
  }

  lemma GoneRecorded(n: Floor, id: string, gone: set<Removal>, held: map<nat, set<string>>)
    requires Sound(n) && n.held.Keys <= held.Keys && gone <= Withdrawals(n.peers, n.tracks, id)
    ensures RemovalsRecorded(n.removals + multiset(gone), held, n.issued)
  {
    forall x | x in n.removals + multiset(gone)
      ensures x.session in held && IdIssued(n.issued, x.trackID)
    {
      if x !in n.removals {
        assert x in gone;
      }
    }
  }

  /** What a backfill makes of one session and track. */
  lemma BackfillReaches(n: Floor, session: nat, left: seq<Track>, s: nat, t: Track)
    requires CallsRecorded(n.pending, n.held, n.issued) && session !in n.held
    ensures Progress(n.pending + multiset(Backfills(session, left)), n.held[session := {}], s, t) ==
      if s != session then Reached(n, s, t) else if t in left then 1 else 0
  {
    assert Call(s, t) in Backfills(session, left) <==> s == session && t in left;
    assert Call(session, t) !in n.pending;
  }

  lemma EnterTallies(n: Floor, id: string, session: nat, q: string, t: Track)
    requires Sound(n) && CanTurn(n, Enter(id, session)) && t in n.issued && (q == id || q in n.peers)
    ensures var n' := Turned(n, Enter(id, session)); Tallied(n', q, n'.peers[q], t)
  {
    var n' := Turned(n, Enter(id, session));
    var s := n'.peers[q];
    EnterTakesOut(n, id, t);
    BackfillReaches(n, session, Left(n, id), s, t);
    if q == id {
      NewSessionSpared(n, id, session, t);
    } else {
      assert Tallied(n, q, s, t);
    }
  }

  lemma NewSessionSpared(n: Floor, id: string, session: nat, t: Track)
    requires Recorded(n) && session !in n.held
    ensures Due(n.removals + multiset(Gone(n, id)), session, t) == 0
  {
    var x := Removal(session, t.trackID);
    assert x !in n.removals && x !in Gone(n, id);
  }

  lemma BackfillRecorded(n: Floor, session: nat, left: seq<Track>)
    requires CallsRecorded(n.pending, n.held, n.issued) && forall t :: t in left ==> t in n.issued
    ensures CallsRecorded(n.pending + multiset(Backfills(session, left)), n.held[session := {}], n.issued)
  {
  }

  lemma EnterRecorded(n: Floor, id: string, session: nat)
    requires Sound(n) && CanTurn(n, Enter(id, session))
    ensures Recorded(Turned(n, Enter(id, session)))
  {
    var n' := Turned(n, Enter(id, session));
    BackfillRecorded(n, session, Left(n, id));
    GoneRecorded(n, id, Gone(n, id), n'.held);
  }

  lemma EnterKeeps(n: Floor, id: string, session: nat)
    requires Sound(n) && CanTurn(n, Enter(id, session))
    ensures Sound(Turned(n, Enter(id, session)))
  {
    var n' := Turned(n, Enter(id, session));
    EnterRecorded(n, id, session);
    forall q, t | q in n'.peers && t in n'.issued
      ensures Tallied(n', q, n'.peers[q], t)
    {
      EnterTallies(n, id, session, q, t);
    }
    forall t | t in n'.tracks
      ensures t in n'.issued && t.publisherID in n'.peers
    {
      assert t in n.tracks;
    }
  }

  lemma DepartTallies(n: Floor, id: string, q: string, t: Track)
    requires Sound(n) && q in n.peers && q != id && t in n.issued
    ensures Tallied(Turned(n, Depart(id)), q, n.peers[q], t)
  {
    assert Tallied(n, q, n.peers[q], t);
    WithdrawalsOf(n, id, q, t);
  }

  lemma DepartKeeps(n: Floor, id: string)
    requires Sound(n)
    ensures Sound(Turned(n, Depart(id)))
  {
    var n' := Turned(n, Depart(id));
    forall q, t | q in n'.peers && t in n'.issued
      ensures Tallied(n', q, n'.peers[q], t)
    {
      DepartTallies(n, id, q, t);
    }
    GoneRecorded(n, id, Withdrawals(n.peers, n.tracks, id), n.held);
  }

  lemma AnnounceTallies(n: Floor, t: Track, q: string, u: Track)
    requires Sound(n) && CanTurn(n, Announce(t)) && q in n.peers && (u in n.issued || u == t)
    ensures Tallied(Turned(n, Announce(t)), q, n.peers[q], u)
  {
    var s := n.peers[q];
    if u == t {
      assert Call(s, t) !in n.pending && Removal(s, t.trackID) !in n.removals && t.trackID !in n.held[s];
      assert Call(s, t) in Announcements(n.peers, t) <==> q != t.publisherID;
    } else {
      assert Tallied(n, q, s, u) && Call(s, u) !in Announcements(n.peers, t);
    }
  }

  lemma IssuedGrows(issued: set<Track>, t: Track, x: string)
    ensures IdIssued(issued + {t}, x) <==> IdIssued(issued, x) || t.trackID == x
  {
    assert t in issued + {t} && forall u :: u in issued ==> u in issued + {t};
  }

  lemma AnnounceRecorded(n: Floor, t: Track)
    requires Recorded(n) && CanTurn(n, Announce(t))
    ensures Recorded(Turned(n, Announce(t)))
  {
    var n' := Turned(n, Announce(t));
    forall x
      ensures IdIssued(n.issued, x) ==> IdIssued(n'.issued, x)
    {
      IssuedGrows(n.issued, t, x);
    }
    forall c | c in n'.pending
      ensures c.session in n'.held && c.track in n'.issued
    {
      assert c in n.pending || c in Announcements(n.peers, t);
    }
  }

  lemma AnnounceKeeps(n: Floor, t: Track)
    requires Sound(n) && CanTurn(n, Announce(t))
    ensures Sound(Turned(n, Announce(t)))
  {
    var n' := Turned(n, Announce(t));
    AnnounceRecorded(n, t);
    forall q, u | q in n'.peers && u in n'.issued
      ensures Tallied(n', q, n'.peers[q], u)
    {
      AnnounceTallies(n, t, q, u);
    }
  }

  lemma HandTallies(n: Floor, c: Call, q: string, t: Track)
    requires Sound(n) && CanTurn(n, Hand(c)) && q in n.peers && t in n.issued
    ensures Tallied(Turned(n, Hand(c)), q, n.peers[q], t)
    ensures Reached(Turned(n, Hand(c)), n.peers[q], t) == Reached(n, n.peers[q], t)
  {
    assert Tallied(n, q, n.peers[q], t);
    assert c.track.trackID == t.trackID ==> c.track == t;
  }

  lemma HandKeeps(n: Floor, c: Call)
    requires Sound(n) && CanTurn(n, Hand(c))
    ensures Sound(Turned(n, Hand(c)))
  {
    var n' := Turned(n, Hand(c));
    forall q, t | q in n'.peers && t in n'.issued
      ensures Tallied(n', q, n'.peers[q], t)
    {
      HandTallies(n, c, q, t);
    }
    assert IdIssued(n.issued, c.track.trackID);
  }

  lemma WithdrawTallies(n: Floor, x: Removal, q: string, t: Track)
    requires Sound(n) && CanTurn(n, Withdraw(x)) && q in n.peers && t in n.issued
    ensures Tallied(Turned(n, Withdraw(x)), q, n.peers[q], t)
  {
    assert Tallied(n, q, n.peers[q], t);
  }

  lemma WithdrawRecorded(n: Floor, x: Removal)
    requires Recorded(n) && CanTurn(n, Withdraw(x))
    ensures Recorded(Turned(n, Withdraw(x)))
  {
    var n' := Turned(n, Withdraw(x));
    assert forall y :: y in n'.removals ==> y in n.removals;
    assert forall s, y :: s in n'.held && y in n'.held[s] ==> y in n.held[s];
  }

  lemma WithdrawKeeps(n: Floor, x: Removal)
    requires Sound(n) && CanTurn(n, Withdraw(x))
    ensures Sound(Turned(n, Withdraw(x)))
  {
    var n' := Turned(n, Withdraw(x));
    WithdrawRecorded(n, x);
    forall q, t | q in n'.peers && t in n'.issued
      ensures Tallied(n', q, n'.peers[q], t)
    {
      WithdrawTallies(n, x, q, t);
    }
  }

  lemma TurnKeepsSound(n: Floor, e: Turn)
    requires Sound(n) && CanTurn(n, e)
    ensures Sound(Turned(n, e))
  {
    match e
    case Enter(id, session) => EnterKeeps(n, id, session);
    case Announce(t) => AnnounceKeeps(n, t);
    case Depart(id) => DepartKeeps(n, id);
    case Hand(c) => HandKeeps(n, c);
    case Withdraw(x) => WithdrawKeeps(n, x);
  }

  // --- dead tracks that stay ---

  /** The track is dead, nobody will drop it, and the session has it or is about to. */
  predicate Stuck(n: Floor, s: nat, t: Track) {
    t !in n.tracks && Due(n.removals, s, t) == 0 && Reached(n, s, t) > 0
  }

  /** A removal made while the call handing over the track has not been. */
  predicate TooEarly(n: Floor, e: Turn, s: nat, t: Track) {
    e == Withdraw(Removal(s, t.trackID)) && Call(s, t) in n.pending
  }

  lemma StuckAfterTakingOut(n: Floor, e: Turn, q: string, t: Track)
    requires Sound(n) && CanTurn(n, e) && (e.Enter? || e.Depart?) && q in n.peers && q != e.id && t in n.issued
    ensures Stuck(Turned(n, e), n.peers[q], t) <==> Stuck(n, n.peers[q], t)
  {
    assert Tallied(n, q, n.peers[q], t);
    if e.Enter? {
      EnterTakesOut(n, e.id, t);
      BackfillReaches(n, e.session, Left(n, e.id), n.peers[q], t);
    } else {
      WithdrawalsOf(n, e.id, q, t);
    }
  }

  lemma StuckAfterCalls(n: Floor, e: Turn, q: string, t: Track)
    requires Sound(n) && CanTurn(n, e) && !e.Enter? && !e.Depart? && q in n.peers && t in n.issued
    ensures Stuck(Turned(n, e), n.peers[q], t) <==> Stuck(n, n.peers[q], t) || TooEarly(n, e, n.peers[q], t)
  {
    var s := n.peers[q];
    assert Tallied(n, q, s, t);
    match e
    case Announce(u) => assert u != t && Call(s, t) !in Announcements(n.peers, u);
    case Hand(c) => HandTallies(n, c, q, t);
    case Withdraw(x) =>
  }

  ghost predicate Stained(n: Floor, s: nat) {
    exists t :: t in n.issued && Stuck(n, s, t)
  }

  ghost predicate HitNow(n: Floor, e: Turn, s: nat) {
    exists t :: t in n.issued && TooEarly(n, e, s, t)
  }

  lemma NewSessionUnstained(n: Floor, id: string, session: nat)
    requires Sound(n) && CanTurn(n, Enter(id, session))
    ensures !Stained(Turned(n, Enter(id, session)), session)
  {
    forall t | t in n.issued
      ensures !Stuck(Turned(n, Enter(id, session)), session, t)
    {
      BackfillReaches(n, session, Left(n, id), session, t);
    }
  }

  lemma StuckAfter(n: Floor, e: Turn, q: string, t: Track)
    requires Sound(n) && CanTurn(n, e) && t in n.issued
    requires q in n.peers && q in Turned(n, e).peers && Turned(n, e).peers[q] == n.peers[q]
    ensures Stuck(Turned(n, e), n.peers[q], t) <==> Stuck(n, n.peers[q], t) || TooEarly(n, e, n.peers[q], t)
  {
    if e.Enter? || e.Depart? {
      StuckAfterTakingOut(n, e, q, t);
    } else {
      StuckAfterCalls(n, e, q, t);
    }
  }

  /** A session is stained by a removal made too early and by nothing else, and for good. */
  lemma StainedAfter(n: Floor, e: Turn, q: string)
    requires Sound(n) && CanTurn(n, e)
    requires q in n.peers && q in Turned(n, e).peers && Turned(n, e).peers[q] == n.peers[q]
    ensures Stained(Turned(n, e), n.peers[q]) <==> Stained(n, n.peers[q]) || HitNow(n, e, n.peers[q])
  {
    var s := n.peers[q];
    forall t | t in n.issued
      ensures Stuck(Turned(n, e), s, t) <==> Stuck(n, s, t) || TooEarly(n, e, s, t)
    {
      StuckAfter(n, e, q, t);
    }
    assert forall t :: t in Turned(n, e).issued ==> t in n.issued || t in Turned(n, e).tracks;
  }

  // --- runs ---

  ghost predicate CanRun(n: Floor, run: seq<Turn>)
    decreases run
  {
    run == [] || (CanTurn(n, run[0]) && CanRun(Turned(n, run[0]), run[1..]))
  }

  ghost function Played(n: Floor, run: seq<Turn>): Floor
    requires CanRun(n, run)
    decreases run
  {
    if run == [] then n else Played(Turned(n, run[0]), run[1..])
  }

  /** Somewhere in the run a track is dropped for the session before it is handed over. */
  ghost predicate Hit(n: Floor, run: seq<Turn>, s: nat)
    requires CanRun(n, run)
    decreases run
  {
    run != [] && (HitNow(n, run[0], s) || Hit(Turned(n, run[0]), run[1..], s))
  }

  /** In every interleaving of joins, reconnects, leaves, publishes, calls and removals, a registered
      peer has got or will get each live track of another once, and each dead one at most once. */
  lemma {:induction false} TalliedThroughout(n: Floor, run: seq<Turn>)
    requires Sound(n) && CanRun(n, run)
    ensures Sound(Played(n, run))
    decreases run
  {
    if run != [] {
      TurnKeepsSound(n, run[0]);
      TalliedThroughout(Turned(n, run[0]), run[1..]);
    }
  }

  lemma {:induction false} PlayedNext(n: Floor, run: seq<Turn>, e: Turn)
    ensures CanRun(n, run + [e]) <==> CanRun(n, run) && CanTurn(Played(n, run), e)
    ensures CanRun(n, run + [e]) ==> Played(n, run + [e]) == Turned(Played(n, run), e)
    decreases run
  {
    if run == [] {
      assert (run + [e])[1..] == [];
      assert CanTurn(n, e) ==> CanRun(Turned(n, e), []);
    } else {
      assert (run + [e])[1..] == run[1..] + [e];
      if CanTurn(n, run[0]) {
        PlayedNext(Turned(n, run[0]), run[1..], e);
      }
    }
  }

  /** The id is taken over or given up. */
  predicate Vacates(e: Turn, id: string) {
    (e.Enter? || e.Depart?) && e.id == id
  }

  /** The turn was made, and since then the id has neither been taken over nor given up. */
  ghost predicate Stands(run: seq<Turn>, e: Turn, id: string) {
    exists i :: 0 <= i < |run| && run[i] == e && forall k :: i < k < |run| ==> !Vacates(run[k], id)
  }

  lemma StandsNext(run: seq<Turn>, e: Turn, id: string, next: Turn)
    ensures Stands(run + [next], e, id) <==> next == e || (Stands(run, e, id) && !Vacates(next, id))
  {
    var more, n := run + [next], |run|;
    assert more[n] == next && forall k :: 0 <= k < n ==> more[k] == run[k];
    if Stands(run, e, id) {
      var i :| 0 <= i < n && run[i] == e && forall k :: i < k < n ==> !Vacates(run[k], id);
      assert more[i] == e;
    }
    if Stands(more, e, id) {
      var i :| 0 <= i <= n && more[i] == e && forall k :: i < k <= n ==> !Vacates(more[k], id);
      if i < n {
        assert run[i] == e && !Vacates(more[n], id);
      }
    }
  }

  ghost predicate ShowsTurns(n: Floor, run: seq<Turn>) {
    && (forall t :: t in n.tracks <==> Stands(run, Announce(t), t.publisherID))
    && (forall t :: t in n.issued <==> Announce(t) in run)
    && (forall q, s :: q in n.peers && n.peers[q] == s <==> Stands(run, Enter(q, s), q))
  }

  lemma TurnShown(n: Floor, run: seq<Turn>, e: Turn)
    requires Sound(n) && CanTurn(n, e) && ShowsTurns(n, run)
    ensures ShowsTurns(Turned(n, e), run + [e])
  {
    var n' := Turned(n, e);
    forall t
      ensures t in n'.tracks <==> Stands(run + [e], Announce(t), t.publisherID)
    {
      StandsNext(run, Announce(t), t.publisherID, e);
    }
    forall q, s
      ensures q in n'.peers && n'.peers[q] == s <==> Stands(run + [e], Enter(q, s), q)
    {
      StandsNext(run, Enter(q, s), q, e);
    }
    assert forall x :: x in run + [e] <==> x in run || x == e;
  }

  /** What is on the floor after a run: the tracks announced by peers who have neither come back nor
      left since, and under each id the session that entered last and has not left. */
  lemma {:induction false} FloorShowsRun(run: seq<Turn>)
    requires CanRun(EMPTY_FLOOR, run)
    ensures ShowsTurns(Played(EMPTY_FLOOR, run), run)
    decreases |run|
  {
    if run != [] {
      var init, e := run[..|run| - 1], run[|run| - 1];
      assert run == init + [e];
      PlayedNext(EMPTY_FLOOR, init, e);
      FloorShowsRun(init);
      TalliedThroughout(EMPTY_FLOOR, init);
      TurnShown(Played(EMPTY_FLOOR, init), init, e);
    }
  }

  lemma {:induction false} StainedOverRun(n: Floor, run: seq<Turn>, q: string)
    requires Sound(n) && CanRun(n, run) && q in Played(n, run).peers
    ensures var s := Played(n, run).peers[q];
      && (s in n.held ==> q in n.peers && n.peers[q] == s)
      && (Stained(Played(n, run), s) <==> (s in n.held && Stained(n, s)) || Hit(n, run, s))
    decreases run
  {
    if run != [] {
      var e := run[0];
      var n' := Turned(n, e);
      var s := Played(n, run).peers[q];
      TurnKeepsSound(n, e);
      StainedOverRun(n', run[1..], q);
      if s in n.held {
        StainedAfter(n, e, q);
      } else if s in n'.held {
        NewSessionUnstained(n, e.id, s);
      }
    }
  }

  ghost predicate AtRest(n: Floor) {
    n.pending == multiset{} && n.removals == multiset{}
  }

  /** The registered peer holds exactly the live tracks of the others. */
  predicate HoldsOthers(n: Floor, q: string)
    requires q in n.peers
  {
    n.peers[q] in n.held && n.held[n.peers[q]] == OfOthers(n.tracks, q)
  }

  lemma RestUnstained(n: Floor, q: string)
    requires Sound(n) && AtRest(n) && q in n.peers
    ensures HoldsOthers(n, q) <==> !Stained(n, n.peers[q])
  {
    var s := n.peers[q];
    forall t | t in n.issued
      ensures t.trackID in n.held[s] <==> Stuck(n, s, t) || (t in n.tracks && t.publisherID != q)
    {
      assert Tallied(n, q, s, t);
    }
    if t :| t in n.issued && Stuck(n, s, t) {
      assert t.trackID !in OfOthers(n.tracks, q);
    } else {
      forall x
        ensures x in n.held[s] <==> x in OfOthers(n.tracks, q)
      {
        if x in n.held[s] {
          assert IdIssued(n.issued, x);
        }
      }
    }
  }

  /** A room that has come to rest, whatever joins, reconnects, leaves and publishes there were, is
      complete for a registered peer exactly when no track was dropped for its session before it was
      handed over. */
  lemma CompleteUnlessTooEarly(run: seq<Turn>, q: string)
    requires CanRun(EMPTY_FLOOR, run) && AtRest(Played(EMPTY_FLOOR, run)) && q in Played(EMPTY_FLOOR, run).peers
    ensures HoldsOthers(Played(EMPTY_FLOOR, run), q) <==> !Hit(EMPTY_FLOOR, run, Played(EMPTY_FLOOR, run).peers[q])
  {
    TalliedThroughout(EMPTY_FLOOR, run);
    StainedOverRun(EMPTY_FLOOR, run, q);
    RestUnstained(Played(EMPTY_FLOOR, run), q);
  }

  /** Every floor can come to rest without such a removal: calls first. */
  lemma {:induction false} CanSettle(n: Floor) returns (run: seq<Turn>)
    requires Sound(n)
    ensures CanRun(n, run) && AtRest(Played(n, run)) && Played(n, run).peers == n.peers && Played(n, run).tracks == n.tracks
    ensures forall s :: !Hit(n, run, s)
    decreases |n.pending| + |n.removals|
  {
    if AtRest(n) {
      run := [];
    } else {
      var e := NextTurn(n);
      TurnKeepsSound(n, e);
      var rest := CanSettle(Turned(n, e));
      run := [e] + rest;
      assert run[0] == e && run[1..] == rest;
    }
  }

  lemma NextTurn(n: Floor) returns (e: Turn)
    requires Sound(n) && !AtRest(n)
    ensures CanTurn(n, e) && (e.Hand? || (e.Withdraw? && n.pending == multiset{}))
  {
    if c :| c in n.pending {
      e := Hand(c);
    } else {
      assert n.pending == multiset{};
      var x :| x in n.removals;
      e := Withdraw(x);
    }
  }

  /** And while a call for another's live track is under way, a leave of its publisher makes such a
      removal possible. */
  lemma LeaveCanStain(n: Floor, q: string, t: Track)
    requires Sound(n) && q in n.peers && t in n.tracks && t.publisherID != q && Call(n.peers[q], t) in n.pending
    ensures var run := [Depart(t.publisherID), Withdraw(Removal(n.peers[q], t.trackID))];
      CanRun(n, run) && Hit(n, run, n.peers[q])
  {
    var s := n.peers[q];
    var n1 := Turned(n, Depart(t.publisherID));
    WithdrawalsOf(n, t.publisherID, q, t);
    var e := Withdraw(Removal(s, t.trackID));
    var run := [Depart(t.publisherID), e];
    assert run[1..] == [e] && [e][1..] == [];
    assert CanTurn(n1, e) && TooEarly(n1, e, s, t) && HitNow(n1, e, s);
    assert CanRun(Turned(n1, e), []);
  }
}
