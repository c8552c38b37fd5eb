/** Board events on their way to the browsers: fan-out within one process, and between the
    processes that share a Redis channel. */
module BoardHub {
  import opened Sorting

  /** The serial stands for the identity of the connection. */
  datatype Client = Client(serial: nat, teamID: string, projectID: string, userID: string, userName: string)

  datatype Event = Event(kind: string, teamID: string, projectID: string, actorID: string, body: string)

  datatype PresenceUser = PresenceUser(userID: string, name: string, lastSeen: int)

  datatype Message = Board(event: Event) | Presence(teamID: string, projectID: string, users: map<string, PresenceUser>)

  /** A message put on a client's channel. */
  datatype Offer = Offer(client: Client, message: Message)

  type Rooms = map<string, set<Client>>
  type Presences = map<string, map<string, PresenceUser>>

  function RoomKey(teamID: string, projectID: string): string {
    teamID + ":" + projectID
  }

  function KeyOf(c: Client): string {
    RoomKey(c.teamID, c.projectID)
  }

  function Room(rooms: Rooms, key: string): set<Client> {
    if key in rooms then rooms[key] else {}
  }

  function Users(presence: Presences, key: string): map<string, PresenceUser> {
    if key in presence then presence[key] else map[]
  }

  /** Everyone but the acting user; an empty actor excludes nobody. */
  predicate IsTarget(c: Client, exceptUserID: string) {
    exceptUserID == "" || c.userID != exceptUserID
  }

  function Targets(clients: set<Client>, exceptUserID: string): set<Client> {
    set c | c in clients && IsTarget(c, exceptUserID)
  }

  function Offers(targets: set<Client>, message: Message): set<Offer> {
    set c | c in targets :: Offer(c, message)
  }

  /** Since before, each target was offered the message once, and nobody anything else. */
  ghost predicate Offered(before: seq<Offer>, after: seq<Offer>, targets: set<Client>, message: Message) {
    before <= after && Lists(after[|before|..], Offers(targets, message))
  }

  /** Since before, the room's clients were offered the message once each, all but those of the excepted
      user, if one is named; and nobody anything else. */
  ghost predicate OfferedExcept(before: seq<Offer>, after: seq<Offer>, clients: set<Client>, exceptUserID: string, message: Message) {
    && before <= after && NoDup(after[|before|..])
    && (forall o :: o in after[|before|..] ==>
          o.message == message && o.client in clients && (exceptUserID != "" ==> o.client.userID != exceptUserID))
    && (forall c :: c in clients && (exceptUserID == "" || c.userID != exceptUserID) ==> Offer(c, message) in after[|before|..])
  }

  lemma OfferedToTargets(before: seq<Offer>, after: seq<Offer>, clients: set<Client>, exceptUserID: string, message: Message)
    requires Offered(before, after, Targets(clients, exceptUserID), message)
    ensures OfferedExcept(before, after, clients, exceptUserID, message)
  {
    var made := after[|before|..];
    forall o | o in made
      ensures o.message == message && o.client in clients && (exceptUserID != "" ==> o.client.userID != exceptUserID)
    {
      assert o in Offers(Targets(clients, exceptUserID), message);
    }
    forall c | c in clients && (exceptUserID == "" || c.userID != exceptUserID)
      ensures Offer(c, message) in made
    {
      assert c in Targets(clients, exceptUserID);
      assert Offer(c, message) in Offers(Targets(clients, exceptUserID), message);
    }
  }

  function WithRoom(rooms: Rooms, key: string, clients: set<Client>): Rooms {
    if clients == {} then rooms - {key} else rooms[key := clients]
  }

  function WithUsers(presence: Presences, key: string, users: map<string, PresenceUser>): Presences {
    if users == map[] then presence - {key} else presence[key := users]
  }

  class Hub {
    var rooms: Rooms
    var presence: Presences
    var offers: seq<Offer>

    constructor ()
      ensures rooms == map[] && presence == map[] && offers == []
    {
      rooms, presence, offers := map[], map[], [];
    }

    method BroadcastRaw(key: string, message: Message, exceptUserID: string)
      modifies this`offers
      ensures Offered(old(offers), offers, Targets(Room(rooms, key), exceptUserID), message)
      ensures OfferedExcept(old(offers), offers, Room(rooms, key), exceptUserID, message)
    {
      var clients := Room(rooms, key);
      var targets := CollectTargets(clients, exceptUserID);
      for i := 0 to |targets|
        invariant |offers| == |old(offers)| + i && old(offers) <= offers
        invariant forall j :: 0 <= j < i ==> offers[|old(offers)| + j] == Offer(targets[j], message)
      {
        offers := offers + [Offer(targets[i], message)];
      }
      ghost var made := offers[|old(offers)|..];
      assert forall j :: 0 <= j < |made| ==> made[j] == Offer(targets[j], message);
      forall o
        ensures o in made <==> o in Offers(Targets(clients, exceptUserID), message)
      {
        if o in Offers(Targets(clients, exceptUserID), message) {
          assert o.client in targets;
          var j :| 0 <= j < |targets| && targets[j] == o.client;
          assert made[j] == o;
        }
      }
      OfferedToTargets(old(offers), offers, clients, exceptUserID, message);
    }

    method BroadcastPresence(key: string, teamID: string, projectID: string)
      modifies this`offers
      ensures Offered(old(offers), offers, Room(rooms, key), Presence(teamID, projectID, Users(presence, key)))
    {
      BroadcastRaw(key, Presence(teamID, projectID, Users(presence, key)), "");
      assert Targets(Room(rooms, key), "") == Room(rooms, key);
    }

    method PublishLocal(event: Event)
      modifies this`offers
      ensures OfferedExcept(old(offers), offers, Room(rooms, RoomKey(event.teamID, event.projectID)), event.actorID, Board(event))
    {
      BroadcastRaw(RoomKey(event.teamID, event.projectID), Board(event), event.actorID);
    }

    method Register(c: Client, now: int)
      modifies this
      ensures HubState(rooms, presence) == Joined(HubState(old(rooms), old(presence)), c, now)
      ensures Offered(old(offers), offers, Room(rooms, KeyOf(c)), Presence(c.teamID, c.projectID, Users(presence, KeyOf(c))))
    {
      var key := KeyOf(c);
      rooms := rooms[key := Room(rooms, key) + {c}];
      presence := presence[key := Users(presence, key)[c.userID := PresenceUser(c.userID, c.userName, now)]];
      BroadcastPresence(key, c.teamID, c.projectID);
    }

    method DropClient(key: string, c: Client)
      modifies this`rooms
      ensures rooms == WithRoom(old(rooms), key, Room(old(rooms), key) - {c})
    {
      if key in rooms {
        var clients := rooms[key] - {c};
        rooms := if clients == {} then rooms - {key} else rooms[key := clients];
      } else {
        assert rooms - {key} == rooms;
      }
    }

    method DropUser(key: string, userID: string)
      modifies this`presence
      ensures presence == WithUsers(old(presence), key, Users(old(presence), key) - {userID})
    {
      if key in presence {
        var users := presence[key] - {userID};
        presence := if users == map[] then presence - {key} else presence[key := users];
      } else {
        assert presence - {key} == presence;
      }
    }

    /** What Register hands back to be called when the connection ends. */
    method Unregister(c: Client)
      modifies this
      ensures HubState(rooms, presence) == Gone(HubState(old(rooms), old(presence)), c)
      ensures Offered(old(offers), offers, Room(rooms, KeyOf(c)), Presence(c.teamID, c.projectID, Users(presence, KeyOf(c))))
    {
      var key := KeyOf(c);
      DropClient(key, c);
      DropUser(key, c.userID);
      BroadcastPresence(key, c.teamID, c.projectID);
    }

    method TouchPresence(teamID: string, projectID: string, userID: string, userName: string, now: int)
      modifies this
      ensures var key := RoomKey(teamID, projectID);
              && rooms == old(rooms)
              && presence == Touched(old(presence), key, userID, userName, now)
              && Offered(old(offers), offers, Room(rooms, key), Presence(teamID, projectID, Users(presence, key)))
    {
      var key := RoomKey(teamID, projectID);
      presence := presence[key := Users(presence, key)[userID := PresenceUser(userID, userName, now)]];
      BroadcastPresence(key, teamID, projectID);
    }
  }

  method CollectTargets(clients: set<Client>, exceptUserID: string) returns (targets: seq<Client>)
    ensures Lists(targets, Targets(clients, exceptUserID))
  {
    targets := [];
    var rest := clients;
    while rest != {}
      invariant rest <= clients
      invariant Lists(targets, Targets(clients - rest, exceptUserID))
      decreases rest
    {
      var c :| c in rest;
      assert Targets(clients - (rest - {c}), exceptUserID) ==
        Targets(clients - rest, exceptUserID) + if IsTarget(c, exceptUserID) then {c} else {};
      rest := rest - {c};
      if exceptUserID != "" && c.userID == exceptUserID {
        continue;
      }
      targets := targets + [c];
    }
    assert clients - rest == clients;
  }

  // --- rooms and presence ---

  function Touched(presence: Presences, key: string, userID: string, userName: string, now: int): Presences {
    presence[key := Users(presence, key)[userID := PresenceUser(userID, userName, now)]]
  }

  datatype HubState = HubState(rooms: Rooms, presence: Presences)

  function Joined(h: HubState, c: Client, now: int): HubState {
    var key := KeyOf(c);
    HubState(h.rooms[key := Room(h.rooms, key) + {c}], Touched(h.presence, key, c.userID, c.userName, now))
  }

  function Gone(h: HubState, c: Client): HubState {
    var key := KeyOf(c);
    HubState(WithRoom(h.rooms, key, Room(h.rooms, key) - {c}), WithUsers(h.presence, key, Users(h.presence, key) - {c.userID}))
  }

  predicate Connected(h: HubState, key: string, userID: string) {
    exists c :: c in Room(h.rooms, key) && c.userID == userID
  }

  predicate Listed(h: HubState, key: string, userID: string) {
    userID in Users(h.presence, key)
  }

  ghost predicate ListedAreConnected(h: HubState) {
    forall key, user :: Listed(h, key, user) ==> Connected(h, key, user)
  }

  ghost predicate ConnectedAreListed(h: HubState) {
    forall key, user :: Connected(h, key, user) ==> Listed(h, key, user)
  }

  ghost predicate NoEmptyEntries(h: HubState) {
    && (forall key :: key in h.rooms ==> h.rooms[key] != {})
    && (forall key :: key in h.presence ==> h.presence[key] != map[])
  }

  datatype HubStep = Join(client: Client, now: int) | Touch(client: Client, now: int) | Leave(client: Client)

  function HubNext(h: HubState, e: HubStep): HubState {
    match e
    case Join(c, now) => Joined(h, c, now)
    case Touch(c, now) => h.(presence := Touched(h.presence, KeyOf(c), c.userID, c.userName, now))
    case Leave(c) => Gone(h, c)
  }

  lemma RoomAfter(h: HubState, e: HubStep, key: string)
    ensures Room(HubNext(h, e).rooms, key) ==
            if key != KeyOf(e.client) then Room(h.rooms, key)
            else if e.Join? then Room(h.rooms, key) + {e.client}
            else if e.Touch? then Room(h.rooms, key) else Room(h.rooms, key) - {e.client}
    ensures Users(HubNext(h, e).presence, key).Keys ==
            if key != KeyOf(e.client) then Users(h.presence, key).Keys
            else if !e.Leave? then Users(h.presence, key).Keys + {e.client.userID} else Users(h.presence, key).Keys - {e.client.userID}
  {
    var users, user := Users(h.presence, key), e.client.userID;
    if e.Leave? {
      assert (users - {user}).Keys == users.Keys - {user};
    }
  }

  /** Only a connection that is open renews its presence. */
  predicate Orderly(h: HubState, e: HubStep) {
    e.Touch? ==> e.client in Room(h.rooms, KeyOf(e.client))
  }

  /** Nobody is listed who is not connected, whoever comes and goes, and emptied rooms vanish. */
  lemma ListedStayConnected(h: HubState, e: HubStep)
    requires ListedAreConnected(h) && NoEmptyEntries(h) && Orderly(h, e)
    ensures ListedAreConnected(HubNext(h, e)) && NoEmptyEntries(HubNext(h, e))
  {
    var h' := HubNext(h, e);
    forall key, user | Listed(h', key, user)
      ensures Connected(h', key, user)
    {
      RoomAfter(h, e, key);
      if !e.Leave? && key == KeyOf(e.client) && user == e.client.userID {
        assert e.client in Room(h'.rooms, key);
      } else {
        assert Connected(h, key, user);
        var c :| c in Room(h.rooms, key) && c.userID == user;
        assert c in Room(h'.rooms, key);
      }
    }
    var own := KeyOf(e.client);
    assert e.Join? ==> e.client in h'.rooms[own];
    assert !e.Leave? ==> e.client.userID in h'.presence[own];
  }

  lemma JoinedAreListed(h: HubState, e: HubStep)
    requires ConnectedAreListed(h) && !e.Leave?
    ensures ConnectedAreListed(HubNext(h, e))
  {
    var h' := HubNext(h, e);
    forall key, user | Connected(h', key, user)
      ensures Listed(h', key, user)
    {
      RoomAfter(h, e, key);
      var d :| d in Room(h'.rooms, key) && d.userID == user;
      if d in Room(h.rooms, key) {
        assert Connected(h, key, user);
      }
    }
  }

  predicate OtherConnection(h: HubState, c: Client) {
    exists d :: d in Room(h.rooms, KeyOf(c)) && d != c && d.userID == c.userID
  }

  /** A user with a second connection open disappears from the list when the first one closes;
      that is the only way the list falls behind. */
  lemma LeaverHidesOtherConnections(h: HubState, c: Client)
    requires ConnectedAreListed(h)
    ensures ConnectedAreListed(Gone(h, c)) <==> !OtherConnection(h, c)
  {
    var h' := HubNext(h, Leave(c));
    var own := KeyOf(c);
    RoomAfter(h, Leave(c), own);
    if OtherConnection(h, c) {
      var d :| d in Room(h.rooms, own) && d != c && d.userID == c.userID;
      assert d in Room(h'.rooms, own);
      assert Connected(h', own, c.userID) && !Listed(h', own, c.userID);
    } else {
      forall key, user | Connected(h', key, user)
        ensures Listed(h', key, user)
      {
        RoomAfter(h, Leave(c), key);
        var d :| d in Room(h'.rooms, key) && d.userID == user;
        assert Connected(h, key, user);
      }
    }
  }

  // --- who is in a room, and who is listed ---

  /** In the room are its clients and those who join, until they leave; nothing else changes a room. */
  lemma RoomMembers(h: HubState, e: HubStep, key: string, c: Client)
    ensures c in Room(HubNext(h, e).rooms, key) <==>
      (e.Join? && e.client == c && key == c.teamID + ":" + c.projectID) ||
      (c in Room(h.rooms, key) && !(e == Leave(c) && key == c.teamID + ":" + c.projectID))
  {
    RoomAfter(h, e, key);
  }

  /** Listed, with the time of the sign of life: whoever joins or renews, until a connection of the user
      on that board ends. */
  lemma ListedUsers(h: HubState, e: HubStep, key: string, user: string)
    ensures var (before, after) := (Users(h.presence, key), Users(HubNext(h, e).presence, key));
      if key != KeyOf(e.client) || user != e.client.userID then
        (user in after <==> user in before) && (user in before ==> after[user] == before[user])
      else if e.Leave? then user !in after
      else user in after && after[user] == PresenceUser(user, e.client.userName, e.now)
  {
    RoomAfter(h, e, key);
  }

  lemma {:induction false} HubAfterNext(h: HubState, run: seq<HubStep>, e: HubStep)
    ensures HubAfter(h, run + [e]) == HubNext(HubAfter(h, run), e)
    decreases run
  {
    if run == [] {
      assert (run + [e])[1..] == [];
    } else {
      assert (run + [e])[1..] == run[1..] + [e];
      HubAfterNext(HubNext(h, run[0]), run[1..], e);
    }
  }

  const EMPTY_HUB := HubState(map[], map[])

  /** The client joined, and has not left since. */
  ghost predicate Stayed(run: seq<HubStep>, c: Client) {
    exists i :: 0 <= i < |run| && run[i].Join? && run[i].client == c && forall k :: i < k < |run| ==> run[k] != Leave(c)
  }

  lemma StayedNext(run: seq<HubStep>, e: HubStep, c: Client)
    ensures Stayed(run + [e], c) <==> (e.Join? && e.client == c) || (Stayed(run, c) && e != Leave(c))
  {
    var next, n := run + [e], |run|;
    assert next[n] == e && forall k :: 0 <= k < n ==> next[k] == run[k];
    if Stayed(run, c) {
      var i :| 0 <= i < n && run[i].Join? && run[i].client == c && forall k :: i < k < n ==> run[k] != Leave(c);
      assert next[i].Join? && next[i].client == c;
    }
    if Stayed(next, c) {
      var i :| 0 <= i <= n && next[i].Join? && next[i].client == c && forall k :: i < k <= n ==> next[k] != Leave(c);
      if i < n {
        assert run[i].Join? && run[i].client == c && next[n] != Leave(c);
      }
    }
  }

  /** Over runs: in the room of a board are exactly the connections to it that joined and did not leave. */
  lemma {:induction false} RoomShowsRun(run: seq<HubStep>, key: string, c: Client)
    ensures c in Room(HubAfter(EMPTY_HUB, run).rooms, key) <==> Stayed(run, c) && key == c.teamID + ":" + c.projectID
    decreases |run|
  {
    if run != [] {
      var init, e := run[..|run| - 1], run[|run| - 1];
      assert run == init + [e];
      HubAfterNext(EMPTY_HUB, init, e);
      RoomShowsRun(init, key, c);
      StayedNext(init, e, c);
      RoomMembers(HubAfter(EMPTY_HUB, init), e, key, c);
    }
  }

  function HubAfter(h: HubState, run: seq<HubStep>): HubState
    decreases run
  {
    if run == [] then h else HubAfter(HubNext(h, run[0]), run[1..])
  }

  predicate OrderlyRun(h: HubState, run: seq<HubStep>)
    decreases run
  {
    run == [] || (Orderly(h, run[0]) && OrderlyRun(HubNext(h, run[0]), run[1..]))
  }

  /** From an empty hub a run is orderly when every renewal comes from a connection that joined and has not
      left before it. */
  lemma {:induction false} OrderlyFromEmpty(run: seq<HubStep>, n: nat)
    requires n <= |run| && forall i :: 0 <= i < |run| && run[i].Touch? ==> Stayed(run[..i], run[i].client)
    ensures OrderlyRun(HubAfter(EMPTY_HUB, run[..n]), run[n..])
    decreases |run| - n
  {
    if n < |run| {
      var e := run[n];
      assert run[..n + 1] == run[..n] + [e] && run[n..][0] == e && run[n..][1..] == run[n + 1..];
      HubAfterNext(EMPTY_HUB, run[..n], e);
      OrderlyFromEmpty(run, n + 1);
      if e.Touch? {
        RoomShowsRun(run[..n], KeyOf(e.client), e.client);
      }
    }
  }

  /** Whenever a connection ends, its user has no other one open on the board. */
  ghost predicate SingleConnections(h: HubState, run: seq<HubStep>)
    decreases run
  {
    run == [] || ((run[0].Leave? ==> !OtherConnection(h, run[0].client)) && SingleConnections(HubNext(h, run[0]), run[1..]))
  }

  /** After every step of the run everyone connected is listed. */
  ghost predicate ListedThroughout(h: HubState, run: seq<HubStep>)
    decreases run
  {
    ConnectedAreListed(h) && (run == [] || ListedThroughout(HubNext(h, run[0]), run[1..]))
  }

  /** Over whole runs: the presence list never names anyone who is gone, and it names everyone who
      is there, after every step, exactly when no connection ends while its user has another. */
  lemma {:induction false} PresenceOverRuns(h: HubState, run: seq<HubStep>)
    requires ListedAreConnected(h) && NoEmptyEntries(h) && OrderlyRun(h, run)
    ensures ListedAreConnected(HubAfter(h, run)) && NoEmptyEntries(HubAfter(h, run))
    ensures ConnectedAreListed(h) ==> (ListedThroughout(h, run) <==> SingleConnections(h, run))
    decreases run
  {
    if run != [] {
      ListedStayConnected(h, run[0]);
      if ConnectedAreListed(h) {
        if run[0].Leave? {
          LeaverHidesOtherConnections(h, run[0].client);
        } else {
          JoinedAreListed(h, run[0]);
        }
      }
      PresenceOverRuns(HubNext(h, run[0]), run[1..]);
    }
  }

  // --- which room an event goes to ---

  /** One team id is the other followed by a colon and more. */
  predicate Extends(team: string, other: string) {
    other + ":" <= team
  }

  lemma ExtendedTeamsMix(team: string, other: string)
    requires Extends(team, other)
    ensures exists project, project' :: RoomKey(team, project) == RoomKey(other, project') && team != other
  {
    var rest := team[|other| + 1..];
    assert team == other + ":" + rest;
    assert RoomKey(team, "") == RoomKey(other, rest + ":");
  }

  /** Two teams never share a room exactly when neither id extends the other by a colon. */
  lemma RoomsAreDistinct(team: string, other: string)
    ensures (forall project, project' :: RoomKey(team, project) == RoomKey(other, project') ==> team == other && project == project') <==>
            !Extends(team, other) && !Extends(other, team)
  {
    if Extends(team, other) {
      ExtendedTeamsMix(team, other);
    } else if Extends(other, team) {
      ExtendedTeamsMix(other, team);
    } else {
      forall project, project' | RoomKey(team, project) == RoomKey(other, project')
        ensures team == other && project == project'
      {
        SameKeySameRoom(team, project, other, project');
      }
    }
  }

  lemma SameKeySameRoom(team: string, project: string, other: string, project': string)
    requires RoomKey(team, project) == RoomKey(other, project') && !Extends(team, other) && !Extends(other, team)
    ensures team == other && project == project'
  {
    var k := RoomKey(team, project);
    assert k[..|team|] == team && k[..|other|] == other && k[|team|] == ':' == k[|other|];
    assert |team| == |other|;
    assert project == k[|team| + 1..] && project' == k[|other| + 1..];
  }

  /** So from an empty hub, with renewals by open connections only: nobody is ever listed who is not
      connected, and everybody connected is always listed exactly when no connection ends while its user has
      another. */
  lemma PresenceFromEmpty(run: seq<HubStep>)
    requires forall i :: 0 <= i < |run| && run[i].Touch? ==> Stayed(run[..i], run[i].client)
    ensures ListedAreConnected(HubAfter(EMPTY_HUB, run))
    ensures ListedThroughout(EMPTY_HUB, run) <==> SingleConnections(EMPTY_HUB, run)
  {
    OrderlyFromEmpty(run, 0);
    assert run[..0] == [] && run[0..] == run;
    PresenceOverRuns(EMPTY_HUB, run);
  }
}
