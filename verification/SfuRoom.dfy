/** The video room: registered peers, published tracks, and which track each peer is forwarded.
    Here join, publish and leave are whole steps; SfuRace takes them apart. */
module SfuRoom {
  import opened Text
  import opened Sorting

  datatype Track = Track(publisherID: string, kind: string, trackID: string)

  /** What the room amounts to: the tracks, and for each registered peer its subscriptions. */
  datatype RoomView = RoomView(tracks: seq<Track>, subs: map<string, set<string>>)

  function Others(tracks: seq<Track>, id: string): (r: seq<Track>)
    ensures forall t :: t in r <==> t in tracks && t.publisherID != id
  {
    if tracks == [] then [] else
      Others(tracks[..|tracks| - 1], id) +
        if tracks[|tracks| - 1].publisherID != id then [tracks[|tracks| - 1]] else []
  }

  function TrackIds(tracks: seq<Track>): set<string> {
    set t | t in tracks :: t.trackID
  }

  function IdsBy(tracks: seq<Track>, id: string): set<string> {
    set t | t in tracks && t.publisherID == id :: t.trackID
  }

  function Dropped(subs: map<string, set<string>>, spared: set<string>, gone: set<string>): map<string, set<string>> {
    map q | q in subs :: if q in spared then subs[q] else subs[q] - gone
  }

  function Extended(subs: map<string, set<string>>, spared: set<string>, more: set<string>): map<string, set<string>> {
    map q | q in subs :: if q in spared then subs[q] else subs[q] + more
  }

  lemma DroppedStep(subs: map<string, set<string>>, rest: set<string>, spared: set<string>, q: string, gone: set<string>)
    requires q in subs && q !in rest
    ensures Dropped(subs, rest + spared, gone) ==
            var before := Dropped(subs, rest + {q} + spared, gone); if q in spared then before else before[q := before[q] - gone]
  {
  }

  lemma ExtendedStep(subs: map<string, set<string>>, rest: set<string>, spared: set<string>, q: string, more: set<string>)
    requires q in subs && q !in rest
    ensures Extended(subs, rest + spared, more) ==
            var before := Extended(subs, rest + {q} + spared, more); if q in spared then before else before[q := before[q] + more]
  {
  }

  lemma DroppedAfterUpdate(subs: map<string, set<string>>, id: string, own: set<string>, gone: set<string>, final: set<string>)
    ensures Dropped(subs[id := own], {id}, gone)[id := final] == Dropped(subs, {id}, gone)[id := final]
  {
  }

  /** Peer id joins with a session that already holds own. If another session was registered under
      the id, its tracks are withdrawn everywhere; the joiner is handed every remaining track. */
  function Joined(v: RoomView, id: string, reconnect: bool, own: set<string>): RoomView {
    var tracks := if reconnect then Others(v.tracks, id) else v.tracks;
    var gone := if reconnect then IdsBy(v.tracks, id) else {};
    RoomView(tracks, Dropped(v.subs, {id}, gone)[id := own + TrackIds(tracks)])
  }

  predicate Publishes(v: RoomView, id: string, kind: string) {
    exists t :: t in v.tracks && t.publisherID == id && t.kind == kind
  }

  function Published(v: RoomView, t: Track): RoomView {
    if Publishes(v, t.publisherID, t.kind) then v else
      RoomView(v.tracks + [t], Extended(v.subs, {t.publisherID}, {t.trackID}))
  }

  /** Whoever is registered under the id goes, with every track published under it. */
  function Left(v: RoomView, id: string): RoomView {
    RoomView(Others(v.tracks, id), Dropped(v.subs - {id}, {}, IdsBy(v.tracks, id)))
  }

  // --- the objects ---

  class Peer {
    const id: string
    var subscribedTrackIDs: set<string>
    var subscribedSenders: set<string>

    constructor (id: string)
      ensures this.id == id && Valid() && subscribedTrackIDs == {}
    {
      this.id := id;
      subscribedTrackIDs, subscribedSenders := {}, {};
    }

    predicate Valid()
      reads this
    {
      subscribedTrackIDs == subscribedSenders
    }

    method AddForwardedTrack(track: Track) returns (added: bool)
      requires Valid()
      modifies this
      ensures Valid()
      ensures added <==> Named(track) && track.trackID !in old(subscribedTrackIDs)
      ensures subscribedTrackIDs == old(subscribedTrackIDs) + if Named(track) then {track.trackID} else {}
    {
      if Trim(Go, track.trackID) == "" {
        return false;
      }
      if track.trackID in subscribedTrackIDs {
        return false;
      }
      subscribedTrackIDs := subscribedTrackIDs + {track.trackID};
      subscribedSenders := subscribedSenders + {track.trackID};
      added := true;
    }

    method RemoveForwardedTracks(trackIDs: seq<string>) returns (changed: bool)
      requires Valid()
      modifies this
      ensures Valid()
      ensures subscribedTrackIDs == old(subscribedTrackIDs) - Elements(trackIDs)
      ensures changed <==> exists x :: x in trackIDs && x in old(subscribedTrackIDs)
    {
      changed := false;
      for i := 0 to |trackIDs|
        invariant Valid()
        invariant subscribedTrackIDs == old(subscribedTrackIDs) - Elements(trackIDs[..i])
        invariant changed <==> exists x :: x in trackIDs[..i] && x in old(subscribedTrackIDs)
      {
        var trackID := trackIDs[i];
        assert trackIDs[..i + 1] == trackIDs[..i] + [trackID];
        if trackID in subscribedSenders {
          changed := true;
        }
        subscribedTrackIDs := subscribedTrackIDs - {trackID};
        subscribedSenders := subscribedSenders - {trackID};
      }
    }
  }

  /** No blank track ids: the server makes them up with a fixed prefix. */
  predicate Named(track: Track) {
    Trim(Go, track.trackID) != ""
  }

  predicate NamedTracks(tracks: seq<Track>) {
    forall t :: t in tracks ==> Named(t)
  }

  lemma IdsByGrows(tracks: seq<Track>, i: nat, id: string)
    requires i < |tracks|
    ensures IdsBy(tracks[..i + 1], id) == IdsBy(tracks[..i], id) + if tracks[i].publisherID == id then {tracks[i].trackID} else {}
  {
    assert tracks[..i + 1] == tracks[..i] + [tracks[i]];
  }

  lemma TrackIdsGrow(tracks: seq<Track>, t: Track)
    ensures TrackIds(tracks + [t]) == TrackIds(tracks) + {t.trackID}
  {
    assert t in tracks + [t];
    assert forall u :: u in tracks ==> u in tracks + [t];
  }

  ghost predicate Registered(peers: map<string, Peer>)
    reads peers.Values
  {
    forall id :: id in peers ==> peers[id].id == id && peers[id].Valid()
  }

  /** Another session is registered under p's id. */
  predicate Replaces(peers: map<string, Peer>, p: Peer) {
    p.id in peers && peers[p.id] != p
  }

  ghost function Subs(peers: map<string, Peer>): map<string, set<string>>
    reads peers.Values
  {
    map id | id in peers :: peers[id].subscribedTrackIDs
  }

  class Room {
    var peers: map<string, Peer>
    var tracks: seq<Track>

    constructor ()
      ensures peers == map[] && tracks == []
    {
      peers, tracks := map[], [];
    }

    ghost predicate Valid()
      reads this, peers.Values
    {
      Registered(peers) && NamedTracks(tracks)
    }

    ghost function View(): RoomView
      reads this, peers.Values
    {
      RoomView(tracks, Subs(peers))
    }

    /** The room keeps the tracks not published under id; the ids of the others are returned. */
    method WithdrawTracks(id: string) returns (removed: seq<string>)
      modifies this`tracks
      ensures tracks == Others(old(tracks), id)
      ensures Elements(removed) == IdsBy(old(tracks), id)
    {
      var filtered: seq<Track> := [];
      removed := [];
      for i := 0 to |tracks|
        invariant tracks == old(tracks)
        invariant filtered == Others(tracks[..i], id)
        invariant Elements(removed) == IdsBy(tracks[..i], id)
      {
        IdsByGrows(tracks, i, id);
        assert tracks[..i + 1][..i] == tracks[..i];
        if tracks[i].publisherID != id {
          filtered := filtered + [tracks[i]];
        } else {
          removed := removed + [tracks[i].trackID];
        }
      }
      assert tracks[..|tracks|] == tracks;
      tracks := filtered;
    }

    static method RemoveFrom(snapshot: map<string, Peer>, q: string, trackIDs: seq<string>)
      requires Registered(snapshot) && q in snapshot
      modifies snapshot[q]
      ensures Registered(snapshot)
      ensures Subs(snapshot) == old(Subs(snapshot))[q := old(Subs(snapshot))[q] - Elements(trackIDs)]
    {
      var changed := snapshot[q].RemoveForwardedTracks(trackIDs);
    }

    static method AddTo(snapshot: map<string, Peer>, q: string, track: Track)
      requires Registered(snapshot) && q in snapshot && Named(track)
      modifies snapshot[q]
      ensures Registered(snapshot)
      ensures Subs(snapshot) == old(Subs(snapshot))[q := old(Subs(snapshot))[q] + {track.trackID}]
    {
      var added := snapshot[q].AddForwardedTrack(track);
    }

    /** Every peer of the snapshot outside spared drops the tracks. */
    static method RemoveEverywhere(snapshot: map<string, Peer>, spared: set<string>, trackIDs: seq<string>)
      requires Registered(snapshot)
      modifies snapshot.Values
      ensures Registered(snapshot)
      ensures Subs(snapshot) == Dropped(old(Subs(snapshot)), spared, Elements(trackIDs))
    {
      var rest := snapshot.Keys;
      while rest != {}
        invariant rest <= snapshot.Keys && Registered(snapshot)
        invariant Subs(snapshot) == Dropped(old(Subs(snapshot)), rest + spared, Elements(trackIDs))
        decreases rest
      {
        var q :| q in rest;
        assert rest - {q} + {q} == rest;
        rest := rest - {q};
        if q !in spared {
          RemoveFrom(snapshot, q, trackIDs);
        }
        DroppedStep(old(Subs(snapshot)), rest, spared, q, Elements(trackIDs));
      }
      assert rest + spared == spared;
    }

    /** Every peer of the snapshot outside spared is forwarded the track. */
    static method AddEverywhere(snapshot: map<string, Peer>, spared: set<string>, track: Track)
      requires Registered(snapshot) && Named(track)
      modifies snapshot.Values
      ensures Registered(snapshot)
      ensures Subs(snapshot) == Extended(old(Subs(snapshot)), spared, {track.trackID})
    {
      var rest := snapshot.Keys;
      while rest != {}
        invariant rest <= snapshot.Keys && Registered(snapshot)
        invariant Subs(snapshot) == Extended(old(Subs(snapshot)), rest + spared, {track.trackID})
        decreases rest
      {
        var q :| q in rest;
        assert rest - {q} + {q} == rest;
        rest := rest - {q};
        if q !in spared {
          AddTo(snapshot, q, track);
        }
        ExtendedStep(old(Subs(snapshot)), rest, spared, q, {track.trackID});
      }
      assert rest + spared == spared;
    }

    static method Backfill(p: Peer, published: seq<Track>)
      requires p.Valid() && NamedTracks(published)
      modifies p
      ensures p.Valid() && p.subscribedTrackIDs == old(p.subscribedTrackIDs) + TrackIds(published)
    {
      for i := 0 to |published|
        invariant p.Valid() && p.subscribedTrackIDs == old(p.subscribedTrackIDs) + TrackIds(published[..i])
      {
        assert published[..i + 1] == published[..i] + [published[i]];
        TrackIdsGrow(published[..i], published[i]);
        var added := p.AddForwardedTrack(published[i]);
      }
      assert published[..|published|] == published;
    }

    /** The part of a join done under the room's lock. */
    method RegisterPeer(p: Peer) returns (withdrawn: seq<string>)
      modifies this
      ensures peers == old(peers)[p.id := p]
      ensures Replaces(old(peers), p) ==> tracks == Others(old(tracks), p.id) && Elements(withdrawn) == IdsBy(old(tracks), p.id)
      ensures !Replaces(old(peers), p) ==> tracks == old(tracks) && Elements(withdrawn) == {}
    {
      withdrawn := [];
      if p.id in peers && peers[p.id] != p {
        withdrawn := WithdrawTracks(p.id);
      }
      peers := peers[p.id := p];
    }

    /** The part of a join done after the lock is released. */
    static method Resubscribe(snapshot: map<string, Peer>, p: Peer, withdrawn: seq<string>, published: seq<Track>)
      requires Registered(snapshot) && p.id in snapshot && snapshot[p.id] == p && NamedTracks(published)
      modifies snapshot.Values
      ensures Registered(snapshot)
      ensures Subs(snapshot) ==
        Dropped(old(Subs(snapshot)), {p.id}, Elements(withdrawn))[p.id := old(p.subscribedTrackIDs) + TrackIds(published)]
    {
      RemoveEverywhere(snapshot, {p.id}, withdrawn);
      ghost var kept := Subs(snapshot);
      assert kept[p.id] == old(p.subscribedTrackIDs);
      Backfill(p, published);
      assert Subs(snapshot) == kept[p.id := p.subscribedTrackIDs];
    }

    method AddPeer(p: Peer)
      requires Valid() && p.Valid()
      requires forall q :: q in peers && q != p.id ==> peers[q] != p
      modifies this, peers.Values, p
      ensures Valid() && peers == old(peers)[p.id := p]
      ensures View() == Joined(old(View()), p.id, Replaces(old(peers), p), old(p.subscribedTrackIDs))
    {
      ghost var subs, own := Subs(peers), p.subscribedTrackIDs;
      var withdrawn := RegisterPeer(p);
      assert Subs(peers) == subs[p.id := own];
      Resubscribe(peers, p, withdrawn, tracks);
      DroppedAfterUpdate(subs, p.id, own, Elements(withdrawn), own + TrackIds(tracks));
      assert Subs(peers) == Dropped(subs, {p.id}, Elements(withdrawn))[p.id := own + TrackIds(tracks)];
    }

    /** The part of a leave done under the room's lock. */
    method UnregisterPeer(p: Peer) returns (removed: seq<string>)
      modifies this
      ensures peers == old(peers) - {p.id}
      ensures tracks == Others(old(tracks), p.id) && Elements(removed) == IdsBy(old(tracks), p.id)
    {
      peers := peers - {p.id};
      removed := WithdrawTracks(p.id);
    }

    /** Unregisters whatever session holds p's id, whether or not it is p. */
    method RemovePeer(p: Peer)
      requires Valid()
      modifies this, peers.Values
      ensures Valid() && peers == old(peers) - {p.id}
      ensures View() == Left(old(View()), p.id)
      ensures OthersStay(old(peers), peers, p) <==> !Replaces(old(peers), p)
    {
      LeaveKeepsOthers(peers, p);
      ghost var subs := Subs(peers);
      var removed := UnregisterPeer(p);
      assert Subs(peers) == subs - {p.id};
      RemoveEverywhere(peers, {}, removed);
      assert Subs(peers) == Dropped(subs - {p.id}, {}, Elements(removed));
    }

    /** trackID is the server-made id of the forwarded track. */
    method PublishTrack(pub: Peer, kind: string, trackID: string)
      requires Valid() && Named(Track(pub.id, kind, trackID))
      modifies this, peers.Values
      ensures Valid() && peers == old(peers)
      ensures View() == Published(old(View()), Track(pub.id, kind, trackID))
    {
      for i := 0 to |tracks|
        invariant forall j :: 0 <= j < i ==> tracks[j].publisherID != pub.id || tracks[j].kind != kind
      {
        if tracks[i].publisherID == pub.id && tracks[i].kind == kind {
          assert tracks[i] in View().tracks;
          return;
        }
      }
      assert !Publishes(View(), pub.id, kind);
      var published := Track(pub.id, kind, trackID);
      tracks := tracks + [published];
      AddEverywhere(peers, {pub.id}, published);
    }
  }

  // --- what every room keeps ---

  function OfOthers(tracks: seq<Track>, id: string): set<string> {
    set t | t in tracks && t.publisherID != id :: t.trackID
  }

  ghost predicate OnePerKind(tracks: seq<Track>) {
    && (forall s, t :: s in tracks && t in tracks && s.trackID == t.trackID ==> s == t)
    && (forall s, t :: s in tracks && t in tracks && s.publisherID == t.publisherID && s.kind == t.kind ==> s == t)
  }

  ghost predicate Consistent(v: RoomView) {
    && (forall q :: q in v.subs ==> v.subs[q] == OfOthers(v.tracks, q))
    && (forall t :: t in v.tracks ==> t.publisherID in v.subs)
    && OnePerKind(v.tracks)
  }

  datatype Event = Join(id: string) | Publish(track: Track) | Leave(id: string)

  /** A join brings a fresh session, a publisher is registered, track ids are fresh; any session
      may leave at any time, stale ones included. */
  ghost predicate Allowed(v: RoomView, e: Event) {
    match e
    case Join(_) => true
    case Publish(t) => t.publisherID in v.subs && t.trackID !in TrackIds(v.tracks)
    case Leave(_) => true
  }

  function Next(v: RoomView, e: Event): RoomView {
    match e
    case Join(id) => Joined(v, id, id in v.subs, {})
    case Publish(t) => Published(v, t)
    case Leave(id) => Left(v, id)
  }

  /** Withdrawing a publisher's tracks leaves everyone else with the tracks of the rest. */
  lemma WithdrawnForOthers(v: RoomView, id: string, q: string)
    requires Consistent(v) && q in v.subs && q != id
    ensures v.subs[q] - IdsBy(v.tracks, id) == OfOthers(Others(v.tracks, id), q)
  {
  }

  lemma JoinKeeps(v: RoomView, id: string)
    requires Consistent(v)
    ensures Consistent(Joined(v, id, id in v.subs, {}))
  {
    var v' := Joined(v, id, id in v.subs, {});
    forall q | q in v'.subs
      ensures v'.subs[q] == OfOthers(v'.tracks, q)
    {
      if q != id && id in v.subs {
        WithdrawnForOthers(v, id, q);
      }
    }
  }

  lemma OneMoreKind(v: RoomView, t: Track)
    requires OnePerKind(v.tracks) && !Publishes(v, t.publisherID, t.kind) && t.trackID !in TrackIds(v.tracks)
    ensures OnePerKind(v.tracks + [t])
  {
    forall s | s in v.tracks
      ensures s.trackID != t.trackID && (s.publisherID == t.publisherID ==> s.kind != t.kind)
    {
    }
  }

  lemma OneMoreOfOthers(tracks: seq<Track>, t: Track, q: string)
    ensures OfOthers(tracks + [t], q) == OfOthers(tracks, q) + if t.publisherID != q then {t.trackID} else {}
  {
    assert t in tracks + [t];
    assert forall u :: u in tracks + [t] <==> u in tracks || u == t;
  }

  lemma PublishKeeps(v: RoomView, t: Track)
    requires Consistent(v) && t.publisherID in v.subs && t.trackID !in TrackIds(v.tracks)
    ensures Consistent(Published(v, t))
  {
    if !Publishes(v, t.publisherID, t.kind) {
      OneMoreKind(v, t);
      var v' := Published(v, t);
      forall q | q in v'.subs
        ensures v'.subs[q] == OfOthers(v'.tracks, q)
      {
        OneMoreOfOthers(v.tracks, t, q);
      }
      forall u | u in v'.tracks
        ensures u.publisherID in v'.subs
      {
        assert u in v.tracks || u == t;
      }
    }
  }

  lemma LeaveKeeps(v: RoomView, id: string)
    requires Consistent(v)
    ensures Consistent(Left(v, id))
  {
    var v' := Left(v, id);
    forall q | q in v'.subs
      ensures v'.subs[q] == OfOthers(v'.tracks, q)
    {
      WithdrawnForOthers(v, id, q);
    }
  }

  lemma StepKeepsConsistent(v: RoomView, e: Event)
    requires Consistent(v) && Allowed(v, e)
    ensures Consistent(Next(v, e))
  {
    match e
    case Join(id) => JoinKeeps(v, id);
    case Publish(t) => PublishKeeps(v, t);
    case Leave(id) => LeaveKeeps(v, id);
  }

  ghost predicate AllowedRun(v: RoomView, run: seq<Event>)
    decreases run
  {
    run == [] || (Allowed(v, run[0]) && AllowedRun(Next(v, run[0]), run[1..]))
  }

  function After(v: RoomView, run: seq<Event>): RoomView
    decreases run
  {
    if run == [] then v else After(Next(v, run[0]), run[1..])
  }

  /** In every reachable room each registered peer is forwarded exactly the tracks of the others,
      every track has a registered publisher, and nobody publishes two tracks of one kind. */
  lemma {:induction false} RoomStaysConsistent(v: RoomView, run: seq<Event>)
    requires Consistent(v) && AllowedRun(v, run)
    ensures Consistent(After(v, run))
    decreases run
  {
    if run != [] {
      StepKeepsConsistent(v, run[0]);
      RoomStaysConsistent(Next(v, run[0]), run[1..]);
    }
  }

  // --- what is on the air ---

  /** The publisher already has a track of the kind. */
  predicate HasOne(tracks: seq<Track>, t: Track) {
    exists u :: u in tracks && u.publisherID == t.publisherID && u.kind == t.kind
  }

  /** A publish puts the track on the air exactly when its publisher had none of that kind, and then every
      other registered peer is forwarded it; nothing else changes. */
  lemma PublishForwards(v: RoomView, t: Track)
    requires Consistent(v) && Allowed(v, Publish(t))
    ensures var v' := Next(v, Publish(t));
      && (t in v'.tracks <==> !HasOne(v.tracks, t))
      && (forall u :: u != t ==> (u in v'.tracks <==> u in v.tracks))
      && v'.subs.Keys == v.subs.Keys
      && forall q, x :: q in v.subs ==>
           (x in v'.subs[q] <==> x in v.subs[q] || (x == t.trackID && !HasOne(v.tracks, t) && q != t.publisherID))
  {
    var v' := Next(v, Publish(t));
    if !HasOne(v.tracks, t) {
      assert v'.tracks == v.tracks + [t];
    }
    assert t.trackID in TrackIds(v.tracks) <==> exists u :: u in v.tracks && u.trackID == t.trackID;
  }

  const EMPTY_ROOM := RoomView([], map[])

  /** A join or leave under the id: its tracks go. */
  predicate Resets(e: Event, id: string) {
    e == Join(id) || e == Leave(id)
  }

  predicate PublishesLike(e: Event, t: Track) {
    e.Publish? && e.track.publisherID == t.publisherID && e.track.kind == t.kind
  }

  ghost predicate SinceThen(run: seq<Event>, i: nat, id: string) {
    forall k :: i < k < |run| ==> !Resets(run[k], id)
  }

  /** Event i published the track, the first of its kind since its publisher last joined or left. */
  ghost predicate FirstSince(run: seq<Event>, i: nat, t: Track) {
    && i < |run| && run[i] == Publish(t) && SinceThen(run, i, t.publisherID)
    && forall j :: 0 <= j < i && PublishesLike(run[j], t) ==> exists k :: j < k < i && Resets(run[k], t.publisherID)
  }

  ghost predicate OnAir(run: seq<Event>, t: Track) {
    exists i: nat :: FirstSince(run, i, t)
  }

  /** A publish of the kind that no join or leave has undone. */
  ghost predicate LikeStands(run: seq<Event>, j: nat, t: Track) {
    j < |run| && PublishesLike(run[j], t) && SinceThen(run, j, t.publisherID)
  }

  /** The first of them is on the air. */
  lemma {:induction false} SomeOnAir(run: seq<Event>, j: nat, t: Track) returns (u: Track)
    requires LikeStands(run, j, t)
    ensures OnAir(run, u) && u.publisherID == t.publisherID && u.kind == t.kind
    decreases j
  {
    u := run[j].track;
    if !FirstSince(run, j, u) {
      var i :| 0 <= i < j && PublishesLike(run[i], u) && !exists k :: i < k < j && Resets(run[k], u.publisherID);
      forall k | i < k < |run|
        ensures !Resets(run[k], t.publisherID)
      {
        assert k > j ==> !Resets(run[k], t.publisherID);
      }
      u := SomeOnAir(run, i, t);
    }
  }

  lemma OnAirStands(run: seq<Event>, t: Track, e: Event)
    requires OnAir(run, t)
    ensures OnAir(run + [e], t) <==> !Resets(e, t.publisherID)
  {
    var i: nat :| FirstSince(run, i, t);
    var next := run + [e];
    if Resets(e, t.publisherID) {
      assert next[|run|] == e;
    } else {
      assert forall k :: 0 <= k < |run| ==> next[k] == run[k];
      assert FirstSince(next, i, t);
    }
  }

  lemma NewOnAir(run: seq<Event>, t: Track, e: Event)
    requires !OnAir(run, t)
    ensures OnAir(run + [e], t) <==> e == Publish(t) && !exists j: nat :: LikeStands(run, j, t)
  {
    var next, n := run + [e], |run|;
    assert next[n] == e && forall k :: 0 <= k < n ==> next[k] == run[k];
    if i: nat :| FirstSince(next, i, t) {
      if i < n {
        assert FirstSince(run, i, t);
      }
      assert i == n;
      forall j: nat | j < n && PublishesLike(run[j], t)
        ensures !SinceThen(run, j, t.publisherID)
      {
        var k :| j < k < n && Resets(next[k], t.publisherID);
        assert Resets(run[k], t.publisherID);
      }
    }
    if e == Publish(t) && !exists j: nat :: LikeStands(run, j, t) {
      forall j | 0 <= j < n && PublishesLike(next[j], t)
        ensures exists k :: j < k < n && Resets(next[k], t.publisherID)
      {
        assert !LikeStands(run, j, t);
        var k :| j < k < n && Resets(run[k], t.publisherID);
        assert Resets(next[k], t.publisherID);
      }
      assert FirstSince(next, n, t);
    }
  }

  /** Registered: joined, and not left since. */
  ghost predicate Present(run: seq<Event>, id: string) {
    exists i :: 0 <= i < |run| && run[i] == Join(id) && forall k :: i < k < |run| ==> run[k] != Leave(id)
  }

  lemma PresentNext(run: seq<Event>, e: Event, id: string)
    ensures Present(run + [e], id) <==> e == Join(id) || (Present(run, id) && e != Leave(id))
  {
    var next, n := run + [e], |run|;
    assert next[n] == e && forall k :: 0 <= k < n ==> next[k] == run[k];
    if Present(run, id) {
      var i :| 0 <= i < n && run[i] == Join(id) && forall k :: i < k < n ==> run[k] != Leave(id);
      assert next[i] == Join(id);
    }
    if Present(next, id) {
      var i :| 0 <= i <= n && next[i] == Join(id) && forall k :: i < k <= n ==> next[k] != Leave(id);
      if i < n {
        assert run[i] == Join(id) && next[n] != Leave(id);
      }
    }
  }

  lemma {:induction false} AfterNext(v: RoomView, run: seq<Event>, e: Event)
    ensures After(v, run + [e]) == Next(After(v, run), e)
    ensures AllowedRun(v, run + [e]) <==> AllowedRun(v, run) && Allowed(After(v, run), e)
    decreases run
  {
    if run == [] {
      assert (run + [e])[1..] == [];
    } else {
      assert (run + [e])[1..] == run[1..] + [e];
      AfterNext(Next(v, run[0]), run[1..], e);
    }
  }

  ghost predicate ShowsRun(v: RoomView, run: seq<Event>) {
    (forall t :: t in v.tracks <==> OnAir(run, t)) && (forall q :: q in v.subs <==> Present(run, q))
  }

  lemma NextShows(v: RoomView, run: seq<Event>, e: Event)
    requires Consistent(v) && Allowed(v, e) && ShowsRun(v, run)
    ensures ShowsRun(Next(v, e), run + [e])
  {
    forall q
      ensures q in Next(v, e).subs <==> Present(run + [e], q)
    {
      PresentNext(run, e, q);
    }
    forall t
      ensures t in Next(v, e).tracks <==> OnAir(run + [e], t)
    {
      TrackShows(v, run, e, t);
    }
  }

  lemma TrackShows(v: RoomView, run: seq<Event>, e: Event, t: Track)
    requires Consistent(v) && Allowed(v, e) && ShowsRun(v, run)
    ensures t in Next(v, e).tracks <==> OnAir(run + [e], t)
  {
    if OnAir(run, t) {
      OnAirStands(run, t, e);
      if e.Publish? {
        PublishForwards(v, e.track);
      }
    } else {
      NewOnAir(run, t, e);
      if e.Publish? {
        PublishForwards(v, e.track);
        HasOneIffStands(v, run, e.track);
      }
    }
  }

  lemma HasOneIffStands(v: RoomView, run: seq<Event>, t: Track)
    requires ShowsRun(v, run)
    ensures HasOne(v.tracks, t) <==> exists j: nat :: LikeStands(run, j, t)
  {
    if u :| u in v.tracks && u.publisherID == t.publisherID && u.kind == t.kind {
      var i: nat :| FirstSince(run, i, u);
      assert LikeStands(run, i, t);
    }
    if j: nat :| LikeStands(run, j, t) {
      var u := SomeOnAir(run, j, t);
      assert u in v.tracks;
    }
  }

  /** Over runs: on the air are exactly the first publishes of each kind by each publisher since it last
      joined or left, registered are those who joined and did not leave since, and each of them is
      forwarded exactly what the others have on the air. */
  lemma {:induction false} RoomShowsRun(run: seq<Event>)
    requires AllowedRun(EMPTY_ROOM, run)
    ensures ShowsRun(After(EMPTY_ROOM, run), run) && Consistent(After(EMPTY_ROOM, run))
    decreases |run|
  {
    if run != [] {
      var init, e := run[..|run| - 1], run[|run| - 1];
      assert run == init + [e];
      AfterNext(EMPTY_ROOM, init, e);
      RoomShowsRun(init);
      StepKeepsConsistent(After(EMPTY_ROOM, init), e);
      NextShows(After(EMPTY_ROOM, init), init, e);
    }
  }

  // --- where the assumptions are needed ---

  /** A second join message from the session already registered withdraws nothing and backfills
      everything, so it stays consistent exactly when that peer has published nothing. */
  lemma RejoinSubscribesToSelf(v: RoomView, id: string)
    requires Consistent(v) && id in v.subs
    ensures Consistent(Joined(v, id, false, v.subs[id])) <==> forall t :: t in v.tracks ==> t.publisherID != id
  {
    var v' := Joined(v, id, false, v.subs[id]);
    forall t | t in v.tracks && t.publisherID == id
      ensures !Consistent(v')
    {
      assert t.trackID in v'.subs[id];
      assert t.trackID !in OfOthers(v'.tracks, id);
    }
    if forall t :: t in v.tracks ==> t.publisherID != id {
      forall q | q in v'.subs
        ensures v'.subs[q] == OfOthers(v'.tracks, q)
      {
        assert v'.subs[q] == v.subs[q];
      }
    }
  }

  /** A session that lost its registration to a stale cleanup must not publish: the track would
      have no registered publisher. */
  lemma PublisherMustBeRegistered(v: RoomView, t: Track)
    requires Consistent(v) && t.trackID !in TrackIds(v.tracks)
    ensures Consistent(Published(v, t)) <==> t.publisherID in v.subs
  {
    if t.publisherID in v.subs {
      PublishKeeps(v, t);
    } else {
      assert t in Published(v, t).tracks;
    }
  }

  // --- which sessions a leave unregisters ---

  /** Every registered session but p is still registered. */
  ghost predicate OthersStay(peers: map<string, Peer>, peers': map<string, Peer>, p: Peer) {
    forall q :: q in peers.Values && q != p ==> q in peers'.Values
  }

  /** A leave unregisters whatever holds the leaver's id. So it keeps every other session exactly
      when no other session has replaced the leaver. */
  lemma LeaveKeepsOthers(peers: map<string, Peer>, p: Peer)
    requires forall id :: id in peers ==> peers[id].id == id
    ensures OthersStay(peers, peers - {p.id}, p) <==> !Replaces(peers, p)
  {
    var peers' := peers - {p.id};
    if Replaces(peers, p) {
      var q := peers[p.id];
      assert q in peers.Values;
      assert q !in peers'.Values;
    } else {
      forall q | q in peers.Values && q != p
        ensures q in peers'.Values
      {
        var id :| id in peers && peers[id] == q;
        assert id in peers' && peers'[id] == q;
      }
    }
  }
}
