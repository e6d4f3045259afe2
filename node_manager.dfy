/** The heartbeat failure detector of node_manager.py: a status table and a
    last-seen table, updated by heartbeat receipt, by one pass of the monitor
    loop and by explicit recovery.

    The source reads the wall clock with `time.time()`; here the current time
    is the integer parameter `now` of each step. */
module NodeManagement {
  import opened Common

  type Time = int

  datatype Status = Online | Offline

  /** A peer whose last heartbeat is more than this many time units old is
      marked offline by the monitor. */
  const LivenessTimeout: int := 5

  function PeerIds(peers: seq<Peer>): set<PeerId>
  {
    set p | p in peers :: p.id
  }

  /** The status table the manager starts with: every configured peer online. */
  function InitialNodes(peers: seq<Peer>): (r: map<PeerId, Status>)
    ensures forall id :: id in r <==> exists p | p in peers :: p.id == id
    ensures forall id | id in r :: r[id] == Online
  {
    map id | id in PeerIds(peers) :: Online
  }

  /** Strictly more than the timeout has passed since `id` was last heard. */
  predicate IsStale(heartbeats: map<PeerId, Time>, id: PeerId, now: Time)
  {
    id in heartbeats && now - heartbeats[id] > LivenessTimeout
  }

  /** The status table after one monitor pass at time `now`. */
  function Monitored(nodes: map<PeerId, Status>, heartbeats: map<PeerId, Time>, now: Time): (r: map<PeerId, Status>)
    ensures forall id :: id in r <==> id in nodes || IsStale(heartbeats, id, now)
    ensures forall id | IsStale(heartbeats, id, now) :: r[id] == Offline
    ensures forall id | id in nodes && !IsStale(heartbeats, id, now) :: r[id] == nodes[id]
    ensures forall id | id in r && r[id] == Online :: id in nodes && nodes[id] == Online
  {
    map id | id in nodes.Keys + heartbeats.Keys && (id in nodes || IsStale(heartbeats, id, now)) ::
      if IsStale(heartbeats, id, now) then Offline else nodes[id]
  }

  /** Two passes at the same time leave the table as one pass does. */
  lemma MonitorIdempotent(nodes: map<PeerId, Status>, heartbeats: map<PeerId, Time>, now: Time)
    ensures Monitored(Monitored(nodes, heartbeats, now), heartbeats, now) == Monitored(nodes, heartbeats, now)
  {
  }

  /** The detector's whole state: status and last-seen tables. */
  datatype Detector = Detector(nodes: map<PeerId, Status>, heartbeats: map<PeerId, Time>)

  /** The operations that change a detector. */
  datatype Event =
    | HeartbeatReceived(id: PeerId, now: Time)
    | MonitorPass(now: Time)
    | Recovered(id: PeerId)

  function Apply(d: Detector, e: Event): (r: Detector)
    ensures e.HeartbeatReceived? ==>
      r.nodes == d.nodes && r.heartbeats.Keys == d.heartbeats.Keys + {e.id} && r.heartbeats[e.id] == e.now
    ensures e.HeartbeatReceived? ==>
      forall id | id in d.heartbeats && id != e.id :: r.heartbeats[id] == d.heartbeats[id]
    ensures !e.HeartbeatReceived? ==> r.heartbeats == d.heartbeats
    ensures e.Recovered? ==>
      r.nodes.Keys == d.nodes.Keys + {e.id} && r.nodes[e.id] == Online &&
      forall id | id in d.nodes && id != e.id :: r.nodes[id] == d.nodes[id]
    ensures d.nodes.Keys <= r.nodes.Keys
    ensures forall id | id in r.nodes && r.nodes[id] == Online ::
      (id in d.nodes && d.nodes[id] == Online) || e == Recovered(id)
  {
    match e
    case HeartbeatReceived(id, now) => d.(heartbeats := d.heartbeats[id := now])
    case MonitorPass(now) => d.(nodes := Monitored(d.nodes, d.heartbeats, now))
    case Recovered(id) => d.(nodes := d.nodes[id := Online])
  }

  /** The detector after the events `es`, in order. */
  function Run(d: Detector, es: seq<Event>): Detector
    decreases |es|
  {
    if es == [] then d else Run(Apply(d, es[0]), es[1..])
  }

  /** Recovery is the only way onto "online": a node that is online after a
      run and was not online before it was recovered during the run. */
  lemma {:induction false} OnlineOnlyThroughRecovery(d: Detector, es: seq<Event>, id: PeerId)
    requires id in Run(d, es).nodes && Run(d, es).nodes[id] == Online
    requires !(id in d.nodes && d.nodes[id] == Online)
    ensures Recovered(id) in es
    decreases |es|
  {
    if es == [] {
    } else {
      var next := Apply(d, es[0]);
      if id in next.nodes && next.nodes[id] == Online {
        assert es[0] == Recovered(id);
      } else {
        OnlineOnlyThroughRecovery(next, es[1..], id);
        assert es == [es[0]] + es[1..];
      }
    }
  }

  /** Heartbeat times in `es` never go back and none is before `t`. */
  predicate ClockFrom(es: seq<Event>, t: Time)
    decreases |es|
  {
    es == [] ||
    match es[0]
    case HeartbeatReceived(_, now) => t <= now && ClockFrom(es[1..], now)
    case _ => ClockFrom(es[1..], t)
  }

  predicate RecordedBy(heartbeats: map<PeerId, Time>, t: Time)
  {
    forall id | id in heartbeats :: heartbeats[id] <= t
  }

  /** With a clock that never goes back, every recorded last-seen time only
      grows, and no peer loses its entry. */
  lemma {:induction false} HeartbeatsNeverGoBack(d: Detector, es: seq<Event>, t: Time)
    requires RecordedBy(d.heartbeats, t) && ClockFrom(es, t)
    ensures forall id | id in d.heartbeats ::
      id in Run(d, es).heartbeats && d.heartbeats[id] <= Run(d, es).heartbeats[id]
    decreases |es|
  {
    if es != [] {
      var next := Apply(d, es[0]);
      var t' := if es[0].HeartbeatReceived? then es[0].now else t;
      HeartbeatsNeverGoBack(next, es[1..], t');
      assert forall id | id in d.heartbeats :: id in next.heartbeats && d.heartbeats[id] <= next.heartbeats[id];
    }
  }

  class NodeManager {
    /** peer id -> online/offline */
    var nodes: map<PeerId, Status>
    /** peer id -> time of its last heartbeat */
    var heartbeats: map<PeerId, Time>

    function State(): Detector
      reads this
    {
      Detector(nodes, heartbeats)
    }

    constructor (peers: seq<Peer>)
      ensures nodes == InitialNodes(peers)
      ensures heartbeats == map[]
    {
      nodes := map id | id in PeerIds(peers) :: Online;
      heartbeats := map[];
    }

    /** Records `now` as the peer's last-seen time; its status is untouched. */
    method ReceiveHeartbeat(id: PeerId, now: Time)
      modifies this
      ensures State() == Apply(old(State()), HeartbeatReceived(id, now))
      ensures nodes == old(nodes)
    {
      heartbeats := heartbeats[id := now];
    }

    /** One pass of the monitor loop at time `now`: every peer with a stale
        heartbeat is marked offline; nothing else changes. */
    method MonitorStep(now: Time)
      modifies this
      ensures State() == Apply(old(State()), MonitorPass(now))
      ensures heartbeats == old(heartbeats)
      ensures nodes == Monitored(old(nodes), heartbeats, now)
    {
      var pending := heartbeats.Keys;
      while pending != {}
        invariant pending <= heartbeats.Keys && heartbeats == old(heartbeats)
        invariant forall id | id in nodes :: id in old(nodes) || (IsStale(heartbeats, id, now) && id !in pending)
        invariant forall id | id in old(nodes) :: id in nodes
        invariant forall id | IsStale(heartbeats, id, now) && id !in pending :: id in nodes && nodes[id] == Offline
        invariant forall id | id in old(nodes) && !(IsStale(heartbeats, id, now) && id !in pending) ::
          nodes[id] == old(nodes)[id]
        decreases pending
      {
        HasMember(pending);
        var peer :| peer in pending;
        if now - heartbeats[peer] > LivenessTimeout {
          nodes := nodes[peer := Offline];
        }
        pending := pending - {peer};
      }
      var expected := Monitored(old(nodes), heartbeats, now);
      assert forall id :: id in nodes <==> id in expected;
      assert forall id | id in nodes :: nodes[id] == expected[id];
    }

    /** Marks the peer online whatever its heartbeat says. */
    method RecoverNode(id: PeerId)
      modifies this
      ensures State() == Apply(old(State()), Recovered(id))
      ensures heartbeats == old(heartbeats)
      ensures nodes == old(nodes)[id := Online]
    {
      nodes := nodes[id := Online];
    }
  }
}
