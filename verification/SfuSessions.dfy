/** The video room with its sessions told apart: a user may reconnect, and the old session's
    connection only ends later. When does a registered session stay registered? */
module SfuSessions {
  import opened SfuRoom

  /** Who is registered under each id, and the id of every session there ever was. */
  datatype Registry = Registry(room: RoomView, sessions: map<string, nat>, owner: map<nat, string>)

  datatype Step =
    | Connect(id: string, session: nat)
    | Announce(track: Track)
    | Disconnect(session: nat)

  /** A connect brings a new session; any session there ever was may disconnect, once replaced too. */
  ghost predicate Possible(r: Registry, e: Step) {
    match e
    case Connect(_, session) => session !in r.owner
    case Announce(t) => Allowed(r.room, Publish(t))
    case Disconnect(session) => session in r.owner
  }

  ghost function After1(r: Registry, e: Step): Registry
    requires Possible(r, e)
  {
    match e
    case Connect(id, session) =>
      Registry(Joined(r.room, id, id in r.sessions, {}), r.sessions[id := session], r.owner[session := id])
    case Announce(t) => r.(room := Published(r.room, t))
    case Disconnect(session) => r.(room := Left(r.room, r.owner[session]), sessions := r.sessions - {r.owner[session]})
  }

  ghost predicate Linked(r: Registry) {
    && r.sessions.Keys == r.room.subs.Keys
    && (forall id :: id in r.sessions ==> r.sessions[id] in r.owner && r.owner[r.sessions[id]] == id)
  }

  /** The session is registered; each session has one id. */
  ghost predicate Registered(r: Registry, session: nat) {
    session in r.owner && r.owner[session] in r.sessions && r.sessions[r.owner[session]] == session
  }

  /** Another session is registered under the session's id. */
  ghost predicate Stale(r: Registry, session: nat) {
    session in r.owner && r.owner[session] in r.sessions && r.sessions[r.owner[session]] != session
  }

  lemma StepKeepsLinked(r: Registry, e: Step)
    requires Linked(r) && Consistent(r.room) && Possible(r, e)
    ensures Linked(After1(r, e)) && Consistent(After1(r, e).room)
  {
    match e
    case Connect(id, _) => JoinKeeps(r.room, id);
    case Announce(t) => PublishKeeps(r.room, t);
    case Disconnect(session) => LeaveKeeps(r.room, r.owner[session]);
  }

  /** A disconnect leaves every other session registered exactly when the session is not stale. */
  lemma DisconnectKeepsOthers(r: Registry, session: nat)
    requires Linked(r) && session in r.owner
    ensures (forall s :: Registered(r, s) && s != session ==> Registered(After1(r, Disconnect(session)), s)) <==> !Stale(r, session)
  {
    if Stale(r, session) {
      var other := r.sessions[r.owner[session]];
      assert Registered(r, other) && !Registered(After1(r, Disconnect(session)), other);
    }
  }

  ghost predicate PossibleRun(r: Registry, run: seq<Step>)
    decreases run
  {
    run == [] || (Possible(r, run[0]) && PossibleRun(After1(r, run[0]), run[1..]))
  }

  ghost function After(r: Registry, run: seq<Step>): Registry
    requires PossibleRun(r, run)
    decreases run
  {
    if run == [] then r else After(After1(r, run[0]), run[1..])
  }

  /** Somebody connects under the id, or a session of the id disconnects. */
  ghost predicate Touches(r: Registry, e: Step, id: string) {
    (e.Connect? && e.id == id) || (e.Disconnect? && e.session in r.owner && r.owner[e.session] == id)
  }

  ghost predicate Untouched(r: Registry, run: seq<Step>, id: string)
    requires PossibleRun(r, run)
    decreases run
  {
    run == [] || (!Touches(r, run[0], id) && Untouched(After1(r, run[0]), run[1..], id))
  }

  /** A session that is no longer registered never is again. */
  lemma {:induction false} GoneForGood(r: Registry, run: seq<Step>, session: nat)
    requires Linked(r) && Consistent(r.room) && PossibleRun(r, run) && session in r.owner && !Registered(r, session)
    ensures !Registered(After(r, run), session)
    decreases run
  {
    if run != [] {
      StepKeepsLinked(r, run[0]);
      GoneForGood(After1(r, run[0]), run[1..], session);
    }
  }

  /** Over every run: a registered session survives exactly when nobody connects under its id and
      no session of that id disconnects, old ones included. Rooms stay consistent throughout. */
  lemma {:induction false} SessionSurvives(r: Registry, run: seq<Step>, session: nat)
    requires Linked(r) && Consistent(r.room) && PossibleRun(r, run) && Registered(r, session)
    ensures Registered(After(r, run), session) <==> Untouched(r, run, r.owner[session])
    ensures Linked(After(r, run)) && Consistent(After(r, run).room)
    decreases run
  {
    if run != [] {
      var r' := After1(r, run[0]);
      StepKeepsLinked(r, run[0]);
      if Registered(r', session) {
        SessionSurvives(r', run[1..], session);
      } else {
        GoneForGood(r', run[1..], session);
        StaysLinked(r', run[1..]);
      }
    }
  }

  lemma {:induction false} StaysLinked(r: Registry, run: seq<Step>)
    requires Linked(r) && Consistent(r.room) && PossibleRun(r, run)
    ensures Linked(After(r, run)) && Consistent(After(r, run).room)
    decreases run
  {
    if run != [] {
      StepKeepsLinked(r, run[0]);
      StaysLinked(After1(r, run[0]), run[1..]);
    }
  }

  /** No session of the run disconnects after it has been replaced. */
  ghost predicate NoStaleLeave(r: Registry, run: seq<Step>)
    requires PossibleRun(r, run)
    decreases run
  {
    run == [] || ((run[0].Disconnect? ==> !Stale(r, run[0].session)) && NoStaleLeave(After1(r, run[0]), run[1..]))
  }

  /** What one would expect of a session: it stays until it disconnects or its user connects anew. */
  predicate Ends(e: Step, id: string, session: nat) {
    (e.Connect? && e.id == id) || e == Disconnect(session)
  }

  /** Without stale leaves that is so: the old session's late cleanup is the only other way out. */
  lemma {:induction false} SurvivesWithoutStaleLeaves(r: Registry, run: seq<Step>, session: nat)
    requires Linked(r) && Consistent(r.room) && PossibleRun(r, run) && Registered(r, session) && NoStaleLeave(r, run)
    ensures Registered(After(r, run), session) <==> forall i :: 0 <= i < |run| ==> !Ends(run[i], r.owner[session], session)
    decreases run
  {
    if run != [] {
      var e, r', id := run[0], After1(r, run[0]), r.owner[session];
      StepKeepsLinked(r, e);
      assert Touches(r, e, id) <==> Ends(e, id, session);
      assert run == [e] + run[1..];
      if Registered(r', session) {
        SurvivesWithoutStaleLeaves(r', run[1..], session);
        assert forall i :: 0 < i < |run| ==> run[i] == run[1..][i - 1];
      } else {
        GoneForGood(r', run[1..], session);
      }
    }
  }

  /** The room sees a connect as a join, and a disconnect as a leave of whatever holds the id. */
  function Seen(r: Registry, e: Step): Event
    requires e.Disconnect? ==> e.session in r.owner
  {
    match e
    case Connect(id, _) => Join(id)
    case Announce(t) => Publish(t)
    case Disconnect(session) => Leave(r.owner[session])
  }

  /** A connect registers its session, a disconnect empties the id; and the room goes through just the
      events that SfuRoom runs. */
  lemma RoomFollows(r: Registry, e: Step)
    requires Linked(r) && Possible(r, e)
    ensures After1(r, e).room == Next(r.room, Seen(r, e))
    ensures e.Connect? ==> Registered(After1(r, e), e.session) && After1(r, e).owner[e.session] == e.id
    ensures e.Disconnect? ==> forall s :: Registered(After1(r, e), s) ==> r.owner[s] != r.owner[e.session]
    ensures e.Announce? ==> forall s :: Registered(After1(r, e), s) <==> Registered(r, s)
  {
  }
}
