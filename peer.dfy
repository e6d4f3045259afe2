/** The topic table of one peer (peer.py): its four operations and the
    string-keyed request dispatcher, as transitions on the value of the two
    tables. The class PeerNode in module Node updates its fields by exactly
    these transitions. */
module TopicStore {
  import opened Common

  const CreateTopicAction: string := "create_topic"
  const PublishAction: string := "publish"
  const FetchMessagesAction: string := "fetch_messages"
  const SubscribeAction: string := "subscribe"
  const FetchTopicsAction: string := "fetch_topics"

  const TopicNameField: string := "topic_name"
  const MessageField: string := "message"
  const SubscriberIdField: string := "subscriber_id"

  /** A decoded request dictionary: the `action` key and the parameters the
      handlers read, each of which may be missing. */
  datatype Request = Request(
    action: Option<string>,
    topicName: Option<Topic>,
    message: Option<Message>,
    subscriberId: Option<SubscriberId>)

  /** The values the handlers return to the client. */
  datatype Response =
    | TopicCreated(topic: Topic)
    | MessagePublished
    | TopicNotFound
    | Subscribed(topic: Topic)
    | MessageList(messages: seq<Message>)
    | TopicMap(topics: map<Topic, seq<Message>>)
    | UnknownAction

  /** A handled request either yields a response, or stops at the first
      parameter the dispatcher reads that the request lacks (a KeyError in
      the source, raised before any handler runs, after which the connection
      is closed with no reply). */
  datatype Outcome = Reply(response: Response) | MissingField(field: string)

  /** topic name -> messages in publish order, and
      topic name -> subscriber ids in subscription order. */
  datatype Store = Store(topics: map<Topic, seq<Message>>, subscribers: map<Topic, seq<SubscriberId>>)

  /** Both tables name the same topics, and no topic lists a subscriber twice. */
  predicate Wf(s: Store)
  {
    && s.topics.Keys == s.subscribers.Keys
    && forall t | t in s.subscribers :: NoDuplicates(s.subscribers[t])
  }

  datatype Handled = Handled(next: Store, response: Response)

  /** `create_topic`: a new name gets an empty message list and an empty
      subscriber list; an existing name changes nothing. Either way the reply
      is `topic_created`. */
  function CreateTopic(s: Store, name: Topic): (r: Handled)
    ensures r.response == TopicCreated(name)
    ensures name in s.topics ==> r.next == s
    ensures name !in s.topics ==>
      name in r.next.topics && r.next.topics[name] == [] && name in r.next.subscribers && r.next.subscribers[name] == []
    ensures r.next.topics.Keys == s.topics.Keys + {name}
    ensures forall t | t in s.topics :: r.next.topics[t] == s.topics[t]
    ensures forall t | t in s.subscribers && t != name :: t in r.next.subscribers && r.next.subscribers[t] == s.subscribers[t]
    ensures Wf(s) ==> Wf(r.next)
  {
    if name !in s.topics then
      Handled(Store(s.topics[name := []], s.subscribers[name := []]), TopicCreated(name))
    else
      Handled(s, TopicCreated(name))
  }

  /** `publish_message`: appends to an existing topic, else `topic_not_found`
      with no change. */
  function PublishMessage(s: Store, name: Topic, message: Message): (r: Handled)
    ensures name in s.topics ==>
      r.response == MessagePublished && name in r.next.topics && r.next.topics[name] == s.topics[name] + [message]
    ensures name !in s.topics ==> r.response == TopicNotFound && r.next == s
    ensures r.next.topics.Keys == s.topics.Keys && r.next.subscribers == s.subscribers
    ensures forall t | t in s.topics && t != name :: r.next.topics[t] == s.topics[t]
    ensures Wf(s) ==> Wf(r.next)
  {
    if name in s.topics then
      Handled(s.(topics := s.topics[name := s.topics[name] + [message]]), MessagePublished)
    else
      Handled(s, TopicNotFound)
  }

  /** `topics.get(name, [])` */
  function FetchMessages(s: Store, name: Topic): seq<Message>
  {
    if name in s.topics then s.topics[name] else []
  }

  /** `subscribe_to_topic`: adds the id once to an existing topic, else
      `topic_not_found` with no change. */
  function SubscribeToTopic(s: Store, name: Topic, id: SubscriberId): (r: Handled)
    ensures name in s.subscribers ==>
      && r.response == Subscribed(name)
      && name in r.next.subscribers && id in r.next.subscribers[name]
      && (id in s.subscribers[name] ==> r.next == s)
      && (id !in s.subscribers[name] ==> r.next.subscribers[name] == s.subscribers[name] + [id])
    ensures name !in s.subscribers ==> r.response == TopicNotFound && r.next == s
    ensures r.next.topics == s.topics && r.next.subscribers.Keys == s.subscribers.Keys
    ensures forall t | t in s.subscribers && t != name :: r.next.subscribers[t] == s.subscribers[t]
    ensures Wf(s) ==> Wf(r.next)
  {
    if name in s.subscribers then
      if id !in s.subscribers[name] then
        var subs := s.subscribers[name] + [id];
        assert NoDuplicates(s.subscribers[name]) ==> NoDuplicates(subs);
        Handled(s.(subscribers := s.subscribers[name := subs]), Subscribed(name))
      else
        Handled(s, Subscribed(name))
    else
      Handled(s, TopicNotFound)
  }

  predicate IsKnownAction(action: Option<string>)
  {
    action.Some? &&
    action.value in {CreateTopicAction, PublishAction, FetchMessagesAction, SubscribeAction, FetchTopicsAction}
  }

  datatype Served = Served(next: Store, outcome: Outcome)

  /** `process_request`: routes the five known actions to their handlers;
      every other action, or none, gets `unknown_action` and changes nothing. */
  function Handle(s: Store, req: Request): (r: Served)
    ensures !IsKnownAction(req.action) ==> r == Served(s, Reply(UnknownAction))
    ensures req.action == Some(FetchTopicsAction) ==> r == Served(s, Reply(TopicMap(s.topics)))
    ensures req.action == Some(FetchMessagesAction) ==>
      r.next == s &&
      r.outcome == if req.topicName.None? then MissingField(TopicNameField)
                   else Reply(MessageList(FetchMessages(s, req.topicName.value)))
    ensures req.action == Some(CreateTopicAction) && req.topicName.Some? ==>
      var h := CreateTopic(s, req.topicName.value); r == Served(h.next, Reply(h.response))
    ensures req.action == Some(PublishAction) && req.topicName.Some? && req.message.Some? ==>
      var h := PublishMessage(s, req.topicName.value, req.message.value); r == Served(h.next, Reply(h.response))
    ensures req.action == Some(SubscribeAction) && req.topicName.Some? && req.subscriberId.Some? ==>
      var h := SubscribeToTopic(s, req.topicName.value, req.subscriberId.value); r == Served(h.next, Reply(h.response))
    ensures req.action == Some(CreateTopicAction) && req.topicName.None? ==>
      r == Served(s, MissingField(TopicNameField))
    ensures req.action == Some(PublishAction) && req.topicName.None? ==>
      r == Served(s, MissingField(TopicNameField))
    ensures req.action == Some(PublishAction) && req.topicName.Some? && req.message.None? ==>
      r == Served(s, MissingField(MessageField))
    ensures req.action == Some(SubscribeAction) && req.topicName.None? ==>
      r == Served(s, MissingField(TopicNameField))
    ensures req.action == Some(SubscribeAction) && req.topicName.Some? && req.subscriberId.None? ==>
      r == Served(s, MissingField(SubscriberIdField))
    ensures r.outcome.MissingField? ==> r.next == s
    ensures Wf(s) ==> Wf(r.next)
    ensures s.topics.Keys <= r.next.topics.Keys
    ensures forall t | t in r.next.topics && t !in s.topics ::
      req.action == Some(CreateTopicAction) && req.topicName == Some(t)
    ensures forall t | t in s.topics :: s.topics[t] <= r.next.topics[t]
  {
    if req.action == Some(CreateTopicAction) then
      if req.topicName.None? then Served(s, MissingField(TopicNameField))
      else
        var h := CreateTopic(s, req.topicName.value);
        Served(h.next, Reply(h.response))
    else if req.action == Some(PublishAction) then
      if req.topicName.None? then Served(s, MissingField(TopicNameField))
      else if req.message.None? then Served(s, MissingField(MessageField))
      else
        var h := PublishMessage(s, req.topicName.value, req.message.value);
        Served(h.next, Reply(h.response))
    else if req.action == Some(FetchMessagesAction) then
      if req.topicName.None? then Served(s, MissingField(TopicNameField))
      else Served(s, Reply(MessageList(FetchMessages(s, req.topicName.value))))
    else if req.action == Some(SubscribeAction) then
      if req.topicName.None? then Served(s, MissingField(TopicNameField))
      else if req.subscriberId.None? then Served(s, MissingField(SubscriberIdField))
      else
        var h := SubscribeToTopic(s, req.topicName.value, req.subscriberId.value);
        Served(h.next, Reply(h.response))
    else if req.action == Some(FetchTopicsAction) then
      Served(s, Reply(TopicMap(s.topics)))
    else
      Served(s, Reply(UnknownAction))
  }

  /** The tables after serving `reqs` one at a time, in order. */
  function Serve(s: Store, reqs: seq<Request>): Store
    decreases |reqs|
  {
    if reqs == [] then s else Serve(Handle(s, reqs[0]).next, reqs[1..])
  }

  /** A heartbeat request has no branch of its own and falls through. */
  lemma HeartbeatIsUnknownAction(s: Store, req: Request)
    requires req.action == Some("heartbeat")
    ensures Handle(s, req) == Served(s, Reply(UnknownAction))
  {
  }

  /** The two tables keep the same topics, and subscriber lists stay free of
      duplicates, whatever requests arrive. */
  lemma {:induction false} ServePreservesWf(s: Store, reqs: seq<Request>)
    requires Wf(s)
    ensures Wf(Serve(s, reqs))
    decreases |reqs|
  {
    if reqs != [] {
      ServePreservesWf(Handle(s, reqs[0]).next, reqs[1..]);
    }
  }

  /** Topics are never deleted and their message lists are append-only:
      each old list is a prefix of the new one. */
  lemma {:induction false} ServeAppendOnly(s: Store, reqs: seq<Request>)
    ensures forall t | t in s.topics :: t in Serve(s, reqs).topics && s.topics[t] <= Serve(s, reqs).topics[t]
    decreases |reqs|
  {
    if reqs != [] {
      var next := Handle(s, reqs[0]).next;
      ServeAppendOnly(next, reqs[1..]);
    }
  }

  /** Only `create_topic` adds topics: a topic present after serving that was
      absent before was named by a `create_topic` request. */
  lemma {:induction false} TopicsComeFromCreate(s: Store, reqs: seq<Request>, t: Topic)
    requires t in Serve(s, reqs).topics && t !in s.topics
    ensures exists i | 0 <= i < |reqs| :: reqs[i].action == Some(CreateTopicAction) && reqs[i].topicName == Some(t)
    decreases |reqs|
  {
    if reqs != [] {
      var next := Handle(s, reqs[0]).next;
      if t in next.topics {
        assert reqs[0].action == Some(CreateTopicAction) && reqs[0].topicName == Some(t);
      } else {
        TopicsComeFromCreate(next, reqs[1..], t);
        var i :| 0 <= i < |reqs[1..]| && reqs[1..][i].action == Some(CreateTopicAction) && reqs[1..][i].topicName == Some(t);
        assert reqs[i + 1] == reqs[1..][i];
      }
    }
  }

  /** One `publish` request per message, in order. */
  function Publishes(name: Topic, messages: seq<Message>): (r: seq<Request>)
    ensures |r| == |messages|
  {
    if messages == [] then []
    else [Request(Some(PublishAction), Some(name), Some(messages[0]), None)] + Publishes(name, messages[1..])
  }

  /** Publishing m1, ..., mn to an existing topic makes its fetched list end
      with exactly m1, ..., mn, in that order. */
  lemma {:induction false} PublishesInOrder(s: Store, name: Topic, messages: seq<Message>)
    requires name in s.topics
    ensures FetchMessages(Serve(s, Publishes(name, messages)), name) == s.topics[name] + messages
    decreases |messages|
  {
    if messages != [] {
      var reqs := Publishes(name, messages);
      var next := Handle(s, reqs[0]).next;
      assert next.topics[name] == s.topics[name] + [messages[0]];
      assert reqs[1..] == Publishes(name, messages[1..]);
      PublishesInOrder(next, name, messages[1..]);
      assert [messages[0]] + messages[1..] == messages;
    }
  }

  /** Creating a topic twice is the same as creating it once. */
  lemma CreateTopicIdempotent(s: Store, name: Topic)
    ensures CreateTopic(CreateTopic(s, name).next, name) == CreateTopic(s, name)
  {
  }

  function Occurrences(s: seq<SubscriberId>, id: SubscriberId): nat
  {
    multiset(s)[id]
  }

  /** Subscribing the same id twice is the same as subscribing it once, and
      the id is then listed exactly once. */
  lemma SubscribeIdempotent(s: Store, name: Topic, id: SubscriberId)
    requires Wf(s) && name in s.subscribers
    ensures var once := SubscribeToTopic(s, name, id).next;
      SubscribeToTopic(once, name, id).next == once &&
      Occurrences(once.subscribers[name], id) == 1
  {
    var once := SubscribeToTopic(s, name, id).next;
    assert id in once.subscribers[name];
    NoDuplicatesCountsAtMostOne(once.subscribers[name]);
  }

  /** create "orders", publish "A" and "B", subscribe "s1" twice: the topic
      lists "A" then "B" and one subscriber; the absent topic "ghost" is not
      found by publish and fetches as empty. */
  lemma OrdersScenario()
    ensures
      var s1 := CreateTopic(Store(map[], map[]), "orders").next;
      var s2 := PublishMessage(s1, "orders", "A").next;
      var s3 := PublishMessage(s2, "orders", "B").next;
      var s4 := SubscribeToTopic(s3, "orders", "s1").next;
      var s5 := SubscribeToTopic(s4, "orders", "s1").next;
      && FetchMessages(s5, "orders") == ["A", "B"]
      && "orders" in s5.subscribers && s5.subscribers["orders"] == ["s1"]
      && PublishMessage(s5, "ghost", "x") == Handled(s5, TopicNotFound)
      && FetchMessages(s5, "ghost") == []
  {
  }
}

/** The peer object of peer.py: the topic and subscriber tables as fields,
    its replication manager and its node manager. */
module Node {
  import opened Common
  import opened TopicStore
  import opened Replicate
  import opened NodeManagement

  /** Every stored assignment is a placement drawn from `peers`. */
  ghost predicate AllPlaced(replicas: map<Topic, seq<Peer>>, peers: seq<Peer>, factor: nat)
  {
    forall t | t in replicas :: IsPlacement(replicas[t], peers, factor)
  }

  /** The tables are well formed, and every topic, and only a topic, has a
      replica assignment drawn from the peer list. */
  ghost predicate Consistent(s: Store, replicas: map<Topic, seq<Peer>>, peers: seq<Peer>, factor: nat)
  {
    Wf(s) && replicas.Keys == s.topics.Keys && AllPlaced(replicas, peers, factor)
  }

  /** Creating a new topic together with its placement keeps the peer consistent. */
  lemma CreateKeepsConsistent(s: Store, name: Topic, replicas: map<Topic, seq<Peer>>, chosen: seq<Peer>, peers: seq<Peer>, factor: nat)
    requires Consistent(s, replicas, peers, factor) && name !in s.topics
    requires IsPlacement(chosen, peers, factor)
    ensures Consistent(TopicStore.CreateTopic(s, name).next, replicas[name := chosen], peers, factor)
  {
  }

  class PeerNode {
    const nodeId: PeerId
    const port: int
    const peerList: seq<Peer>
    /** topic name -> messages */
    var topics: map<Topic, seq<Message>>
    /** topic name -> subscriber ids */
    var subscribers: map<Topic, seq<SubscriberId>>
    const replicationManager: ReplicationManager
    const nodeManager: NodeManager

    function State(): Store
      reads this
    {
      Store(topics, subscribers)
    }

    /** The tables are well formed, and every topic, and only a topic, has a
        replica assignment drawn from the peer list. */
    ghost predicate Valid()
      reads this, replicationManager
    {
      Consistent(State(), replicationManager.topicReplicas, peerList, replicationManager.replicationFactor)
    }

    constructor (nodeId: PeerId, port: int, peerList: seq<Peer>)
      ensures Valid()
      ensures this.nodeId == nodeId && this.port == port && this.peerList == peerList
      ensures State() == Store(map[], map[])
      ensures fresh(replicationManager) && fresh(nodeManager)
      ensures replicationManager.replicationFactor == DefaultReplicationFactor
      ensures replicationManager.consistencyModel == StrongConsistency
      ensures nodeManager.nodes == InitialNodes(peerList) && nodeManager.heartbeats == map[]
    {
      this.nodeId := nodeId;
      this.port := port;
      this.peerList := peerList;
      topics := map[];
      subscribers := map[];
      replicationManager := new ReplicationManager(DefaultReplicationFactor, StrongConsistency);
      nodeManager := new NodeManager(peerList);
    }

    /** Creates the topic if it is new and asks for its replicas, ranked by
        the random `rankKeys`; an existing topic keeps its tables and its
        replica assignment. */
    method CreateTopic(name: Topic, rankKeys: seq<int>) returns (response: Response)
      requires Valid() && |rankKeys| == |peerList|
      modifies this, replicationManager
      ensures Valid()
      ensures Handled(State(), response) == TopicStore.CreateTopic(old(State()), name)
      ensures replicationManager.topicReplicas ==
        if name in old(topics) then old(replicationManager.topicReplicas)
        else old(replicationManager.topicReplicas)[name := SelectReplicas(peerList, rankKeys, replicationManager.replicationFactor)]
    {
      ghost var spec := TopicStore.CreateTopic(State(), name);
      if name !in topics {
        ghost var before := replicationManager.topicReplicas;
        ghost var s0 := State();
        topics := topics[name := []];
        subscribers := subscribers[name := []];
        replicationManager.ReplicateTopic(name, peerList, rankKeys);
        CreateKeepsConsistent(s0, name, before,
          replicationManager.topicReplicas[name], peerList, replicationManager.replicationFactor);
        assert State() == spec.next;
      }
      response := TopicCreated(name);
    }

    /** Appends the message to an existing topic and runs the replica
        synchronisation step, whose notices have no effect on any table. */
    method PublishMessage(name: Topic, message: Message) returns (response: Response)
      requires Valid()
      modifies this
      ensures Valid()
      ensures Handled(State(), response) == TopicStore.PublishMessage(old(State()), name, message)
    {
      if name in topics {
        topics := topics[name := topics[name] + [message]];
        var notices := replicationManager.SynchronizeReplicas(name, message);
        response := MessagePublished;
      } else {
        response := TopicNotFound;
      }
    }

    /** The stored list of an existing topic, and the empty list otherwise. */
    method FetchMessages(name: Topic) returns (messages: seq<Message>)
      ensures name in topics ==> messages == topics[name]
      ensures name !in topics ==> messages == []
    {
      if name in topics {
        messages := topics[name];
      } else {
        messages := [];
      }
    }

    /** Adds the id to an existing topic unless it is already listed. */
    method SubscribeToTopic(name: Topic, id: SubscriberId) returns (response: Response)
      requires Valid()
      modifies this
      ensures Valid()
      ensures Handled(State(), response) == TopicStore.SubscribeToTopic(old(State()), name, id)
    {
      ghost var spec := TopicStore.SubscribeToTopic(State(), name, id);
      if name in subscribers {
        if id !in subscribers[name] {
          subscribers := subscribers[name := subscribers[name] + [id]];
        }
        response := Subscribed(name);
      } else {
        response := TopicNotFound;
      }
      assert State() == spec.next;
    }

    /** Serves one request as `Handle` specifies; no replica assignment that
        exists is ever chosen again. */
    method ProcessRequest(req: Request, rankKeys: seq<int>) returns (outcome: Outcome)
      requires Valid() && |rankKeys| == |peerList|
      modifies this, replicationManager
      ensures Valid()
      ensures Served(State(), outcome) == Handle(old(State()), req)
      ensures forall t | t in old(replicationManager.topicReplicas) ::
        t in replicationManager.topicReplicas &&
        replicationManager.topicReplicas[t] == old(replicationManager.topicReplicas)[t]
    {
      if req.action == Some(CreateTopicAction) {
        if req.topicName.None? {
          outcome := MissingField(TopicNameField);
        } else {
          var response := CreateTopic(req.topicName.value, rankKeys);
          outcome := Reply(response);
        }
      } else if req.action == Some(PublishAction) {
        if req.topicName.None? {
          outcome := MissingField(TopicNameField);
        } else if req.message.None? {
          outcome := MissingField(MessageField);
        } else {
          var response := PublishMessage(req.topicName.value, req.message.value);
          outcome := Reply(response);
        }
      } else if req.action == Some(FetchMessagesAction) {
        if req.topicName.None? {
          outcome := MissingField(TopicNameField);
        } else {
          var messages := FetchMessages(req.topicName.value);
          outcome := Reply(MessageList(messages));
        }
      } else if req.action == Some(SubscribeAction) {
        if req.topicName.None? {
          outcome := MissingField(TopicNameField);
        } else if req.subscriberId.None? {
          outcome := MissingField(SubscriberIdField);
        } else {
          var response := SubscribeToTopic(req.topicName.value, req.subscriberId.value);
          outcome := Reply(response);
        }
      } else if req.action == Some(FetchTopicsAction) {
        outcome := Reply(TopicMap(topics));
      } else {
        outcome := Reply(UnknownAction);
      }
    }
  }
}
