/** Several task-service processes sharing one Redis channel: what each publishes reaches the
    clients of all the others once, and nothing goes round in circles. */
module BoardCluster {
  import opened BoardHub

  // --- the objects ---

  datatype Wire = Wire(nodeID: string, event: Event)

  /** One queue for each subscriber; publishing appends to all of them. */
  class RedisChannel {
    var queues: seq<seq<Wire>>

    constructor (subscribers: nat)
      ensures |queues| == subscribers && forall i :: 0 <= i < subscribers ==> queues[i] == []
    {
      queues := seq(subscribers, _ => []);
    }

    method Publish(message: Wire)
      modifies this
      ensures |queues| == |old(queues)|
      ensures forall i :: 0 <= i < |queues| ==> queues[i] == old(queues)[i] + [message]
    {
      queues := seq(|queues|, i requires 0 <= i < |queues| reads this => queues[i] + [message]);
    }

    method ReceiveMessage(subscriber: nat) returns (message: Wire)
      requires subscriber < |queues| && queues[subscriber] != []
      modifies this
      ensures message == old(queues)[subscriber][0]
      ensures queues == old(queues)[subscriber := old(queues)[subscriber][1..]]
    {
      message := queues[subscriber][0];
      queues := queues[subscriber := queues[subscriber][1..]];
    }
  }

  /** Without a channel the hub serves its own clients only. */
  class DistributedHub {
    const hub: Hub
    const redis: RedisChannel?
    const subscriber: nat
    const nodeID: string

    constructor (hub: Hub, redis: RedisChannel?, subscriber: nat, nodeID: string)
      ensures this.hub == hub && this.redis == redis && this.subscriber == subscriber && this.nodeID == nodeID
    {
      this.hub, this.redis, this.subscriber, this.nodeID := hub, redis, subscriber, nodeID;
    }

    ghost predicate FannedOut(before: seq<Offer>, event: Event)
      reads hub
    {
      OfferedExcept(before, hub.offers, Room(hub.rooms, RoomKey(event.teamID, event.projectID)), event.actorID, Board(event))
    }

    method Publish(event: Event)
      modifies hub`offers, redis
      ensures FannedOut(old(hub.offers), event)
      ensures redis != null ==> |redis.queues| == |old(redis.queues)|
      ensures redis != null ==> forall i :: 0 <= i < |redis.queues| ==> redis.queues[i] == old(redis.queues)[i] + [Wire(nodeID, event)]
    {
      hub.PublishLocal(event);
      if redis == null {
        return;
      }
      redis.Publish(Wire(nodeID, event));
    }

    /** One turn of the subscription loop: it offers, and never publishes. */
    method ReceiveNext()
      requires redis != null && subscriber < |redis.queues| && redis.queues[subscriber] != []
      modifies hub`offers, redis
      ensures redis.queues == old(redis.queues)[subscriber := old(redis.queues)[subscriber][1..]]
      ensures var message := old(redis.queues)[subscriber][0];
              if message.nodeID == nodeID then hub.offers == old(hub.offers) else FannedOut(old(hub.offers), message.event)
    {
      var message := redis.ReceiveMessage(subscriber);
      if message.nodeID == nodeID {
        return;
      }
      hub.PublishLocal(message.event);
    }
  }

  // --- all processes together ---

  /** The serial of an event is its place in the log of everything published. */
  datatype Publication = Publication(node: nat, event: Event)

  datatype Envelope = Envelope(nodeID: string, serial: nat)

  datatype Visit = Visit(node: nat, serial: nat)

  /** The ids and links of the processes never change. Unsent events have been offered locally
      but not yet put on the channel. */
  datatype Cluster = Cluster(
    names: seq<string>,
    linked: seq<bool>,
    log: seq<Publication>,
    unsent: set<nat>,
    queues: seq<seq<Envelope>>,
    visits: multiset<Visit>,
    offered: set<(nat, Client)>
  )

  datatype Step =
    | Publish(node: nat, event: Event, clients: set<Client>)
    | Send(serial: nat)
    | Receive(node: nat, clients: set<Client>)

  predicate WellFormed(c: Cluster) {
    |c.linked| == |c.names| && |c.queues| == |c.names|
  }

  predicate Allowed(c: Cluster, e: Step) {
    && WellFormed(c)
    && match e
       case Publish(node, _, _) => node < |c.names|
       case Send(serial) => serial in c.unsent && serial < |c.log| && c.log[serial].node < |c.names|
       case Receive(node, _) => node < |c.names| && c.queues[node] != [] && c.queues[node][0].serial < |c.log|
  }

  function OffersOf(serial: nat, event: Event, clients: set<Client>): set<(nat, Client)> {
    set c | c in Targets(clients, event.actorID) :: (serial, c)
  }

  function EnvelopeOf(c: Cluster, serial: nat): Envelope
    requires serial < |c.log| && c.log[serial].node < |c.names|
  {
    Envelope(c.names[c.log[serial].node], serial)
  }

  function Sent(c: Cluster, message: Envelope): (r: seq<seq<Envelope>>)
    requires WellFormed(c)
    ensures |r| == |c.queues|
    ensures forall i :: 0 <= i < |r| ==> r[i] == if c.linked[i] then c.queues[i] + [message] else c.queues[i]
  {
    seq(|c.queues|, i requires 0 <= i < |c.queues| => if c.linked[i] then c.queues[i] + [message] else c.queues[i])
  }

  function Next(c: Cluster, e: Step): Cluster
    requires Allowed(c, e)
  {
    match e
    case Publish(node, event, clients) =>
      c.(log := c.log + [Publication(node, event)],
         unsent := if c.linked[node] then c.unsent + {|c.log|} else c.unsent,
         visits := c.visits + multiset{Visit(node, |c.log|)},
         offered := c.offered + OffersOf(|c.log|, event, clients))
    case Send(serial) =>
      c.(unsent := c.unsent - {serial}, queues := Sent(c, EnvelopeOf(c, serial)))
    case Receive(node, clients) =>
      var message := c.queues[node][0];
      var popped := c.(queues := c.queues[node := c.queues[node][1..]]);
      if message.nodeID == c.names[node] then popped else
        popped.(visits := c.visits + multiset{Visit(node, message.serial)},
                offered := c.offered + OffersOf(message.serial, c.log[message.serial].event, clients))
  }

  // --- once on every node ---

  /** The node hears of the event at all: it published it, or both ends are on the channel under
      different ids. */
  predicate Reaches(c: Cluster, node: nat, serial: nat)
    requires WellFormed(c) && node < |c.names| && serial < |c.log| && c.log[serial].node < |c.names|
  {
    var origin := c.log[serial].node;
    node == origin || (c.linked[origin] && c.linked[node] && c.names[origin] != c.names[node])
  }

  /** Copies of the event on their way to the node. */
  function Coming(c: Cluster, node: nat, serial: nat): nat
    requires WellFormed(c) && node < |c.names| && serial < |c.log| && c.log[serial].node < |c.names|
  {
    if !c.linked[node] then 0
    else multiset(c.queues[node])[EnvelopeOf(c, serial)] + if serial in c.unsent then 1 else 0
  }

  predicate Once(c: Cluster, node: nat, serial: nat)
    requires WellFormed(c) && node < |c.names| && serial < |c.log| && c.log[serial].node < |c.names|
  {
    && Coming(c, node, serial) <= 1
    && c.visits[Visit(node, serial)] ==
       if !Reaches(c, node, serial) then 0
       else if node == c.log[serial].node then 1
       else 1 - Coming(c, node, serial)
  }

  /** A message on the channel: an event published by a process that is on it. */
  predicate FromLog(c: Cluster, m: Envelope) {
    && |c.linked| == |c.names| && m.serial < |c.log| && c.log[m.serial].node < |c.names|
    && c.linked[c.log[m.serial].node]
    && m.nodeID == c.names[c.log[m.serial].node]
  }

  ghost predicate QueueFromLog(c: Cluster, i: nat)
    requires WellFormed(c) && i < |c.queues|
  {
    forall m :: m in c.queues[i] ==> c.linked[i] && FromLog(c, m)
  }

  ghost predicate Traceable(c: Cluster) {
    && WellFormed(c)
    && (forall e :: 0 <= e < |c.log| ==> c.log[e].node < |c.names|)
    && (forall e :: e in c.unsent ==> e < |c.log| && c.linked[c.log[e].node])
    && (forall i :: 0 <= i < |c.queues| ==> QueueFromLog(c, i))
    && (forall v :: v in c.visits ==> v.node < |c.names| && v.serial < |c.log|)
  }

  ghost predicate AllOnce(c: Cluster)
    requires Traceable(c)
  {
    forall i, e :: 0 <= i < |c.names| && 0 <= e < |c.log| ==> Once(c, i, e)
  }

  /** Somebody else than the one who acted, if somebody did. */
  predicate NotActor(client: Client, event: Event) {
    event.actorID != "" ==> client.userID != event.actorID
  }

  ghost predicate NeverToActor(c: Cluster) {
    forall o :: o in c.offered ==> o.0 < |c.log| && NotActor(o.1, c.log[o.0].event)
  }

  ghost predicate Good(c: Cluster) {
    Traceable(c) && AllOnce(c) && NeverToActor(c)
  }

  lemma PublishKeepsTraceable(c: Cluster, e: Step)
    requires Traceable(c) && Allowed(c, e) && e.Publish?
    ensures Traceable(Next(c, e))
  {
    var c' := Next(c, e);
    forall i | 0 <= i < |c'.queues|
      ensures QueueFromLog(c', i)
    {
      assert QueueFromLog(c, i);
    }
    forall v | v in c'.visits
      ensures v.node < |c'.names| && v.serial < |c'.log|
    {
      assert v in c.visits || v == Visit(e.node, |c.log|);
    }
    forall s | s in c'.unsent
      ensures s < |c'.log| && c'.linked[c'.log[s].node]
    {
      assert s in c.unsent ==> c'.log[s] == c.log[s];
    }
  }

  lemma PublishOnce(c: Cluster, e: Step, node: nat, serial: nat)
    requires Traceable(c) && Allowed(c, e) && e.Publish? && Traceable(Next(c, e))
    requires node < |c.names| && serial <= |c.log|
    requires serial < |c.log| ==> Once(c, node, serial)
    ensures Once(Next(c, e), node, serial)
  {
    var c' := Next(c, e);
    if serial < |c.log| {
      assert c'.log[serial] == c.log[serial];
      assert Coming(c', node, serial) == Coming(c, node, serial);
      assert c'.visits[Visit(node, serial)] == c.visits[Visit(node, serial)];
    } else {
      assert QueueFromLog(c, node);
      assert EnvelopeOf(c', serial) !in c.queues[node];
      assert Visit(node, serial) !in c.visits;
    }
  }

  lemma SendKeepsTraceable(c: Cluster, e: Step)
    requires Traceable(c) && Allowed(c, e) && e.Send?
    ensures Traceable(Next(c, e))
  {
    var c' := Next(c, e);
    forall i | 0 <= i < |c'.queues|
      ensures QueueFromLog(c', i)
    {
      assert QueueFromLog(c, i);
    }
  }

  lemma SendOnce(c: Cluster, e: Step, node: nat, serial: nat)
    requires Traceable(c) && Allowed(c, e) && e.Send? && Traceable(Next(c, e))
    requires node < |c.names| && serial < |c.log| && Once(c, node, serial)
    ensures Once(Next(c, e), node, serial)
  {
    var c' := Next(c, e);
    assert c'.linked[node] ==> c'.queues[node] == c.queues[node] + [EnvelopeOf(c, e.serial)];
    assert EnvelopeOf(c', serial) == EnvelopeOf(c, serial);
    assert Coming(c', node, serial) == Coming(c, node, serial);
  }

  lemma ReceiveKeepsTraceable(c: Cluster, e: Step)
    requires Traceable(c) && Allowed(c, e) && e.Receive?
    ensures Traceable(Next(c, e))
  {
    var c' := Next(c, e);
    assert QueueFromLog(c, e.node) && c.queues[e.node][0] in c.queues[e.node];
    forall i | 0 <= i < |c'.queues|
      ensures QueueFromLog(c', i)
    {
      assert QueueFromLog(c, i);
      assert forall m :: m in c'.queues[i] ==> m in c.queues[i];
    }
    forall v | v in c'.visits
      ensures v.node < |c'.names| && v.serial < |c'.log|
    {
      assert v in c.visits || v == Visit(e.node, c.queues[e.node][0].serial);
    }
  }

  lemma ReceiveComing(c: Cluster, e: Step, node: nat, serial: nat)
    requires Traceable(c) && Allowed(c, e) && e.Receive? && Traceable(Next(c, e))
    requires node < |c.names| && serial < |c.log|
    ensures var taken := node == e.node && serial == c.queues[e.node][0].serial;
            Coming(Next(c, e), node, serial) == Coming(c, node, serial) - if taken then 1 else 0
  {
    var c', queue := Next(c, e), c.queues[e.node];
    assert QueueFromLog(c, e.node) && queue[0] in queue;
    assert EnvelopeOf(c', serial) == EnvelopeOf(c, serial);
    if node == e.node {
      assert queue == [queue[0]] + c'.queues[node];
      assert multiset(queue) == multiset{queue[0]} + multiset(c'.queues[node]);
    }
  }

  lemma ReceiveOnce(c: Cluster, e: Step, node: nat, serial: nat)
    requires Traceable(c) && Allowed(c, e) && e.Receive? && Traceable(Next(c, e))
    requires node < |c.names| && serial < |c.log| && Once(c, node, serial)
    ensures Once(Next(c, e), node, serial)
  {
    var m := c.queues[e.node][0];
    assert QueueFromLog(c, e.node) && m in c.queues[e.node];
    assert m.serial in c.unsent ==> c.linked[c.log[m.serial].node];
    ReceiveComing(c, e, node, serial);
  }

  lemma StepKeepsActorOut(c: Cluster, e: Step)
    requires Traceable(c) && Allowed(c, e) && NeverToActor(c)
    ensures NeverToActor(Next(c, e))
  {
    var c' := Next(c, e);
    forall o | o in c'.offered
      ensures o.0 < |c'.log| && NotActor(o.1, c'.log[o.0].event)
    {
      if o in c.offered {
        assert c'.log[o.0] == c.log[o.0];
      } else if e.Publish? {
        assert o in OffersOf(|c.log|, e.event, e.clients);
      }
    }
  }

  /** Who is connected to the node where the step fans an event out. */
  function ClientsOf(e: Step): set<Client> {
    if e.Send? then {} else e.clients
  }

  /** The step fans the event out on some node. */
  ghost predicate FansOut(c: Cluster, e: Step, serial: nat)
    requires Allowed(c, e)
  {
    exists node :: Next(c, e).visits[Visit(node, serial)] > c.visits[Visit(node, serial)]
  }

  lemma VisitedBy(c: Cluster, e: Step, serial: nat)
    requires Traceable(c) && Allowed(c, e)
    ensures FansOut(c, e, serial) <==>
      match e
      case Publish(_, _, _) => serial == |c.log|
      case Send(_) => false
      case Receive(node, _) => serial == c.queues[node][0].serial && c.queues[node][0].nodeID != c.names[node]
  {
    var visits, visits' := c.visits, Next(c, e).visits;
    match e
    case Publish(node, _, _) =>
      assert visits'[Visit(node, |c.log|)] > visits[Visit(node, |c.log|)];
    case Send(_) =>
    case Receive(node, _) =>
      var m := c.queues[node][0];
      if m.nodeID != c.names[node] {
        assert visits'[Visit(node, m.serial)] > visits[Visit(node, m.serial)];
      }
  }

  /** Where an event is fanned out, it is offered to everyone connected there but the one who acted, and
      nobody is offered anything else. */
  lemma OfferedWhereFannedOut(c: Cluster, e: Step, serial: nat, client: Client)
    requires Traceable(c) && Allowed(c, e)
    ensures (serial, client) in Next(c, e).offered <==>
      (serial, client) in c.offered ||
      (FansOut(c, e, serial) && client in ClientsOf(e) && NotActor(client, Next(c, e).log[serial].event))
  {
    VisitedBy(c, e, serial);
  }

  lemma StepKeepsGood(c: Cluster, e: Step)
    requires Good(c) && Allowed(c, e)
    ensures Good(Next(c, e))
  {
    StepKeepsActorOut(c, e);
    match e {
      case Publish(_, _, _) => PublishKeepsTraceable(c, e);
      case Send(_) => SendKeepsTraceable(c, e);
      case Receive(_, _) => ReceiveKeepsTraceable(c, e);
    }
    var c' := Next(c, e);
    forall i, s | 0 <= i < |c'.names| && 0 <= s < |c'.log|
      ensures Once(c', i, s)
    {
      assert s < |c.log| ==> Once(c, i, s);
      match e
      case Publish(_, _, _) => PublishOnce(c, e, i, s);
      case Send(_) => SendOnce(c, e, i, s);
      case Receive(_, _) => ReceiveOnce(c, e, i, s);
    }
  }

  // --- whole runs ---

  ghost predicate AllowedRun(c: Cluster, run: seq<Step>)
    decreases run
  {
    run == [] || (Allowed(c, run[0]) && AllowedRun(Next(c, run[0]), run[1..]))
  }

  ghost function After(c: Cluster, run: seq<Step>): Cluster
    requires AllowedRun(c, run)
    decreases run
  {
    if run == [] then c else After(Next(c, run[0]), run[1..])
  }

  function Idle(names: seq<string>, linked: seq<bool>): Cluster
    requires |linked| == |names|
  {
    Cluster(names, linked, [], {}, seq(|names|, _ => []), multiset{}, {})
  }

  ghost predicate Drained(c: Cluster) {
    c.unsent == {} && forall i :: 0 <= i < |c.queues| ==> c.queues[i] == []
  }

  lemma {:induction false} RunKeepsGood(c: Cluster, run: seq<Step>)
    requires Good(c) && AllowedRun(c, run)
    ensures var c' := After(c, run); Good(c') && c'.names == c.names && c'.linked == c.linked
    decreases run
  {
    if run != [] {
      StepKeepsGood(c, run[0]);
      RunKeepsGood(Next(c, run[0]), run[1..]);
    }
  }

  /** Over every run no event is fanned out twice on a node, nor offered to the acting user, and
      once nothing is under way it has been fanned out on exactly the nodes it reaches. */
  lemma FannedOutOnce(names: seq<string>, linked: seq<bool>, run: seq<Step>)
    requires |linked| == |names| && AllowedRun(Idle(names, linked), run)
    ensures var c := After(Idle(names, linked), run);
            && Traceable(c) && NeverToActor(c)
            && (forall v :: c.visits[v] <= 1)
            && (Drained(c) ==> forall i, e :: 0 <= i < |c.names| && 0 <= e < |c.log| ==>
                  c.visits[Visit(i, e)] == if Reaches(c, i, e) then 1 else 0)
  {
    var c := After(Idle(names, linked), run);
    RunKeepsGood(Idle(names, linked), run);
    forall v
      ensures c.visits[v] <= 1
    {
      if v in c.visits {
        assert Once(c, v.node, v.serial);
      }
    }
    if Drained(c) {
      forall i, e | 0 <= i < |c.names| && 0 <= e < |c.log|
        ensures c.visits[Visit(i, e)] == if Reaches(c, i, e) then 1 else 0
      {
        assert Once(c, i, e);
        assert c.queues[i] == [];
      }
    }
  }

  // --- no storm ---

  function TotalWaiting(queues: seq<seq<Envelope>>): nat {
    if queues == [] then 0 else TotalWaiting(queues[..|queues| - 1]) + |queues[|queues| - 1]|
  }

  lemma {:induction false} WaitingAtMost(a: seq<seq<Envelope>>, b: seq<seq<Envelope>>)
    requires |a| == |b| && forall i :: 0 <= i < |a| ==> |b[i]| <= |a[i]| + 1
    ensures TotalWaiting(b) <= TotalWaiting(a) + |a|
  {
    if a != [] {
      var n := |a| - 1;
      WaitingAtMost(a[..n], b[..n]);
    }
  }

  lemma {:induction false} WaitingOneLess(a: seq<seq<Envelope>>, i: nat)
    requires i < |a| && a[i] != []
    ensures TotalWaiting(a[i := a[i][1..]]) == TotalWaiting(a) - 1
  {
    var b, n := a[i := a[i][1..]], |a| - 1;
    if i < n {
      WaitingOneLess(a[..n], i);
      assert b[..n] == a[..n][i := a[i][1..]];
    } else {
      assert b[..n] == a[..n];
    }
  }

  /** n added up k times. */
  function Times(n: nat, k: nat): nat {
    if k == 0 then 0 else n + Times(n, k - 1)
  }

  lemma {:induction false} TimesIsProduct(n: nat, k: nat)
    ensures Times(n, k) == n * k
  {
    if k > 0 {
      TimesIsProduct(n, k - 1);
    }
  }

  /** What is still to be done: each unsent event costs one send and a receive on every node. */
  function Work(c: Cluster): nat {
    Times(|c.names| + 1, |c.unsent|) + TotalWaiting(c.queues)
  }

  lemma SendWork(c: Cluster, serial: nat)
    requires Allowed(c, Send(serial))
    ensures Work(Next(c, Send(serial))) <= Work(c) - 1
  {
    var c' := Next(c, Send(serial));
    WaitingAtMost(c.queues, c'.queues);
    assert |c'.unsent| == |c.unsent| - 1;
  }

  lemma PublishWork(c: Cluster, e: Step)
    requires e.Publish? && Allowed(c, e)
    ensures Work(Next(c, e)) <= Work(c) + |c.names| + 1
  {
    var unsent, more := c.unsent, c.unsent + {|c.log|};
    if |c.log| in unsent {
      assert more == unsent;
    } else {
      assert |more| == |unsent| + 1;
    }
  }

  lemma StepWork(c: Cluster, e: Step)
    requires Allowed(c, e)
    ensures WellFormed(Next(c, e)) && Next(c, e).names == c.names
    ensures Work(Next(c, e)) <= if e.Publish? then Work(c) + |c.names| + 1 else Work(c) - 1
  {
    match e
    case Publish(_, _, _) => PublishWork(c, e);
    case Send(serial) => SendWork(c, serial);
    case Receive(node, _) => WaitingOneLess(c.queues, node);
  }

  function Publishes(run: seq<Step>): nat {
    if run == [] then 0 else (if run[0].Publish? then 1 else 0) + Publishes(run[1..])
  }

  lemma {:induction false} WorkBoundsRun(c: Cluster, run: seq<Step>)
    requires AllowedRun(c, run)
    ensures |run| <= Work(c) + Times(|c.names| + 2, Publishes(run))
    decreases run
  {
    if run != [] {
      StepWork(c, run[0]);
      WorkBoundsRun(Next(c, run[0]), run[1..]);
    }
  }

  /** A run is bounded by its publishes: what is received causes no further sends, so after the
      last publish the channel falls silent. */
  lemma NoStorm(names: seq<string>, linked: seq<bool>, run: seq<Step>)
    requires |linked| == |names| && AllowedRun(Idle(names, linked), run)
    ensures |run| <= (|names| + 2) * Publishes(run)
  {
    var c := Idle(names, linked);
    WorkBoundsRun(c, run);
    TimesIsProduct(|names| + 2, Publishes(run));
    NothingWaiting(c.queues);
  }

  lemma {:induction false} NothingWaiting(queues: seq<seq<Envelope>>)
    requires forall i :: 0 <= i < |queues| ==> queues[i] == []
    ensures TotalWaiting(queues) == 0
  {
    if queues != [] {
      NothingWaiting(queues[..|queues| - 1]);
    }
  }

  // --- everything arrives ---

  predicate NoPublish(run: seq<Step>) {
    forall i :: 0 <= i < |run| ==> !run[i].Publish?
  }

  /** A step that brings the cluster nearer to rest. */
  lemma NextDelivery(c: Cluster) returns (e: Step)
    requires Good(c) && !Drained(c)
    ensures Allowed(c, e) && !e.Publish?
  {
    if serial :| serial in c.unsent {
      e := Send(serial);
    } else {
      var i :| 0 <= i < |c.queues| && c.queues[i] != [];
      assert QueueFromLog(c, i) && c.queues[i][0] in c.queues[i];
      e := Receive(i, {});
    }
  }

  /** Every reachable cluster can come to rest, without anything more being published. */
  lemma {:induction false} CanDrain(c: Cluster) returns (run: seq<Step>)
    requires Good(c)
    ensures AllowedRun(c, run) && NoPublish(run) && Drained(After(c, run)) && After(c, run).log == c.log
    decreases Work(c)
  {
    if Drained(c) {
      run := [];
    } else {
      var e := NextDelivery(c);
      StepKeepsGood(c, e);
      StepWork(c, e);
      var rest := CanDrain(Next(c, e));
      run := [e] + rest;
      assert run[0] == e && run[1..] == rest;
    }
  }

  ghost predicate DistinctNames(names: seq<string>) {
    forall i, j :: 0 <= i < j < |names| ==> names[i] != names[j]
  }

  function AllLinked(n: nat): (linked: seq<bool>)
    ensures |linked| == n && forall i :: 0 <= i < n ==> linked[i]
  {
    seq(n, _ => true)
  }

  ghost predicate EverywhereOnce(c: Cluster) {
    forall i, e :: 0 <= i < |c.names| && 0 <= e < |c.log| ==> c.visits[Visit(i, e)] == 1
  }

  /** Whatever ran, once it has come to rest every event has been fanned out on every node once. */
  ghost predicate AlwaysEverywhere(names: seq<string>) {
    var idle := Idle(names, AllLinked(|names|));
    forall run :: AllowedRun(idle, run) && Drained(After(idle, run)) ==> EverywhereOnce(After(idle, run))
  }

  /** One event published by j, and everything delivered. */
  lemma PublishAndDrain(names: seq<string>, j: nat) returns (run: seq<Step>)
    requires j < |names|
    ensures var idle := Idle(names, AllLinked(|names|));
      AllowedRun(idle, run) && Drained(After(idle, run)) && |After(idle, run).log| == 1 && After(idle, run).log[0].node == j
  {
    var idle := Idle(names, AllLinked(|names|));
    var e := Publish(j, Event("", "", "", "", ""), {});
    StepKeepsGood(idle, e);
    var rest := CanDrain(Next(idle, e));
    run := [e] + rest;
    assert run[0] == e && run[1..] == rest;
  }

  lemma SharedNameMisses(names: seq<string>, i: nat, j: nat)
    requires i < |names| && j < |names| && i != j && names[i] == names[j]
    ensures !AlwaysEverywhere(names)
  {
    var linked := AllLinked(|names|);
    var run := PublishAndDrain(names, j);
    var c := After(Idle(names, linked), run);
    FannedOutOnce(names, linked, run);
    RunKeepsGood(Idle(names, linked), run);
    assert !Reaches(c, i, 0);
    assert c.visits[Visit(i, 0)] == 0;
  }

  /** With every process on the channel, all events arrive on all nodes in all runs exactly when no
      two processes share an id: the same HOSTNAME twice makes them deaf to each other. */
  lemma AllReachedIffDistinct(names: seq<string>)
    ensures AlwaysEverywhere(names) <==> DistinctNames(names)
  {
    var linked := AllLinked(|names|);
    if DistinctNames(names) {
      forall run | AllowedRun(Idle(names, linked), run) && Drained(After(Idle(names, linked), run))
        ensures EverywhereOnce(After(Idle(names, linked), run))
      {
        FannedOutOnce(names, linked, run);
        RunKeepsGood(Idle(names, linked), run);
      }
    } else {
      var i, j :| 0 <= i < j < |names| && names[i] == names[j];
      SharedNameMisses(names, i, j);
    }
  }
}
