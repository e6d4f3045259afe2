# Pub/sub peer: topic store, replica placement, failure detector

This project models the in-memory core of one peer of a small peer-to-peer
publish/subscribe system, and proves properties about it. The core has three
parts.

- **The topic store of `PeerNode`** (peer.py). It keeps two tables: topic name
  to its messages in publish order, and topic name to its subscriber ids. It
  offers `create_topic`, `publish_message`, `fetch_messages` and
  `subscribe_to_topic`, plus the string-keyed request dispatcher
  `process_request`.
  - Module `TopicStore` states each operation as a transition on the value of
    the two tables. `Handle` is the dispatcher and `Serve` folds it over a
    request trace.
  - Module `Node` holds the class `PeerNode`. Its `topics` and `subscribers`
    fields are updated in place, and each method is proved to perform exactly
    the matching `TopicStore` transition. The class invariant `Valid` says
    three things: the tables are well formed, every topic has a replica
    assignment, and every assignment is drawn from the peer list.
- **Replica placement** (replicate.py, module `Replicate`). `replicate_topic`
  ranks the peer list by one random key per peer. It then stores the first
  `replication_factor` peers as the topic's replicas. `synchronize_replicas`
  walks those replicas and reports one notice per replica. It changes nothing.
- **The heartbeat failure detector** (node_manager.py, module
  `NodeManagement`). It keeps a status table (online or offline) and a
  last-seen table. The operations are: receiving a heartbeat, one pass of the
  monitor loop, and explicit recovery. A pass marks offline every peer whose
  last heartbeat is strictly more than 5 time units old. `Apply` and `Run`
  state the detector as a transition system; the class `NodeManager` is proved
  against them.

Modelling choices:
- The source reads the clock with `time.time()`. Here time is the integer
  parameter `now`, fixed for the whole of one monitor pass.
- The source ranks peers with `sorted(peer_list, key=lambda _: random.randint(1, 100))`.
  Here the random draws are the parameter `rankKeys`/`keys`, one integer per
  peer in list order, and `sorted` is a stable sort by key.
- A request is a dictionary. Here it is the datatype `Request`, whose action
  and fields are each optional. The dispatcher reads a request's fields
  itself, `topic_name` first, before it calls any handler (peer.py:47, 49,
  51, 53). When one of them is missing, the source raises a KeyError and
  sends no reply. Here that is the outcome `MissingField(field)` naming the
  first missing field, and the state does not change.

Behaviour of the code worth knowing:
- Heartbeat requests are not routed (peer.py:43-56). `process_request` has
  no `heartbeat` branch, so such a request gets `unknown_action`, and nothing
  reaches `receive_heartbeat` (`TopicStore.HeartbeatIsUnknownAction`).
- `fetch_topics` returns the whole topic-to-messages table, not a list of
  names (peer.py:54-55).
- In strong mode, publishing does not wait for replicas and cannot fail
  because of them. `synchronize_replicas` only reports notices
  (replicate.py:19-21).
- Nothing enforces that heartbeat timestamps are monotonic
  (node_manager.py:17). Monotonicity of last-seen times is proved only for
  a clock that never goes back (`NodeManagement.HeartbeatsNeverGoBack`).
- Every configured peer starts online, before any heartbeat is received
  (node_manager.py:6).

## Model

| member | source | states |
|---|---|---|
| TopicStore.CreateTopic | peer.py:58-65 | the reply is always `topic_created` with the name. An existing name leaves both tables unchanged. A new name gets an empty message list and an empty subscriber list. No other topic changes, and well-formedness is preserved. |
| TopicStore.PublishMessage | peer.py:67-76 | for an existing topic, the message is appended at the end of its list and the reply is `message_published`. For an absent topic, the reply is `topic_not_found` and nothing changes. Other topics, the subscriber table and well-formedness are preserved. |
| TopicStore.SubscribeToTopic | peer.py:83-90 | for an existing topic, the reply is `subscribed`. A new id is appended, and an id already listed leaves everything unchanged. For an absent topic, the reply is `topic_not_found` and nothing changes. Subscriber lists stay free of duplicates. |
| TopicStore.Handle | peer.py:43-56 | each of the five known actions is routed to its handler, with that handler's exact result. `fetch_topics` returns the whole topic table. `fetch_messages` returns the stored list or `[]` and changes nothing. Any other action, or none, returns `unknown_action` and changes nothing. A create, publish or subscribe request lacking a field it needs yields `MissingField` of the first missing field, checked `topic_name` first, with no change to the tables. Topics are never removed, only `create_topic` of that name adds one, and message lists only grow at the end. |
| TopicStore.HeartbeatIsUnknownAction | peer.py:43-56 | a request whose action is `heartbeat` gets `unknown_action` and leaves the tables unchanged |
| TopicStore.ServePreservesWf | peer.py:14-15 | after any sequence of requests, both tables still name the same topics and no subscriber list holds an id twice |
| TopicStore.ServeAppendOnly | peer.py:70-71 | after any sequence of requests, every topic still exists and its old message list is a prefix of its new one |
| TopicStore.TopicsComeFromCreate | peer.py:61-63 | a topic that appears during a sequence of requests was named by one of its `create_topic` requests |
| TopicStore.PublishesInOrder | peer.py:70-71 | publishing m1..mn to an existing topic makes its fetched list the old list followed by exactly m1..mn |
| TopicStore.CreateTopicIdempotent | peer.py:60-65 | creating a topic twice gives the same state and reply as creating it once |
| TopicStore.SubscribeIdempotent | peer.py:86-89 | subscribing an id twice gives the same state as subscribing it once, and the id is then listed exactly once |
| TopicStore.OrdersScenario | peer.py:58-90 | create "orders", publish "A" then "B", subscribe "s1" twice: the topic fetches as ["A","B"] with the single subscriber "s1". Publishing to the absent "ghost" is `topic_not_found` with no change, and fetching it gives `[]`. |
| Node.CreateKeepsConsistent | peer.py:61-64 | adding a new topic together with a placement drawn from the peer list keeps the tables well formed and keeps exactly one assignment per topic |
| Node.PeerNode.constructor | peer.py:10-17 | the peer starts with empty tables and a replication manager with factor 2 in strong mode. Its node manager marks every configured peer online. |
| Node.PeerNode.CreateTopic | peer.py:58-65 | the fields and reply are exactly `TopicStore.CreateTopic`. A new topic gets `SelectReplicas` of the peer list as its assignment. An existing topic keeps its assignment. The class invariant is kept. |
| Node.PeerNode.PublishMessage | peer.py:67-76 | the fields and reply are exactly `TopicStore.PublishMessage`, and the replica table is not touched |
| Node.PeerNode.FetchMessages | peer.py:78-81 | returns the stored list of a present topic and `[]` for an absent one; changes no state |
| Node.PeerNode.SubscribeToTopic | peer.py:83-90 | the fields and reply are exactly `TopicStore.SubscribeToTopic` |
| Node.PeerNode.ProcessRequest | peer.py:43-56 | the new fields and the outcome are exactly `TopicStore.Handle`. An existing replica assignment is never reselected or dropped. |
| Replicate.InsertByKeyPermutes | replicate.py:12 | inserting one (key, peer) entry into a ranking adds exactly that entry and changes no other |
| Replicate.InsertByKeyPermutesPeers | replicate.py:12 | inserting one entry into a ranking adds exactly that entry's peer to the peers |
| Replicate.InsertByKeySorted | replicate.py:12 | inserting into a key-sorted ranking keeps it key-sorted |
| Replicate.SortByKeyPermutes | replicate.py:12 | sorting by the random keys keeps exactly the same (key, peer) entries with the same multiplicities, so every peer keeps the key it drew; with `SortByKeySorted` the output is the input sorted by those keys |
| Replicate.SortByKeyPermutesPeers | replicate.py:12 | sorting by the random keys keeps exactly the same peers, with the same multiplicities |
| Replicate.SortByKeySorted | replicate.py:12 | sorting by the random keys puts the keys in ascending order |
| Replicate.PeersOfZip | replicate.py:12 | pairing peers with their keys and dropping the keys again gives the peer list back |
| Replicate.Rank | replicate.py:12 | the ranking is a permutation of the peer list |
| Replicate.SelectReplicas | replicate.py:12-13 | the assignment has `min(replication_factor, len(peers))` entries, and is a sub-multiset of the peer list |
| Replicate.SelectReplicasFromPeers | replicate.py:12-13 | every replica is one of the peers |
| Replicate.SelectReplicasNoDuplicates | replicate.py:12-13 | a peer list without duplicates gives an assignment without duplicates |
| Replicate.ReplicationManager.constructor | replicate.py:5-8 | stores the factor and the consistency model; starts with no assignments |
| Replicate.ReplicationManager.ReplicateTopic | replicate.py:10-14 | the topic's entry becomes `SelectReplicas` of the peers, a placement of the right size drawn from them. Every other topic's entry is unchanged. |
| Replicate.ReplicationManager.SynchronizeReplicas | replicate.py:16-25 | changes no state. An unrecognised model yields no notices. Otherwise there is one notice per replica of the topic, in order, carrying the message, and it is a direct send exactly in strong mode. An unassigned topic yields none. |
| NodeManagement.InitialNodes | node_manager.py:6 | the status table names exactly the ids of the peer list, all online |
| NodeManagement.Monitored | node_manager.py:22-26 | after a pass, the table names the old ids plus the stale ones. Every stale id (strictly more than 5 units since its heartbeat) is offline. Every other entry keeps its status. No id is online that was not online before. |
| NodeManagement.MonitorIdempotent | node_manager.py:23-25 | two passes at the same time give the same table as one |
| NodeManagement.Apply | node_manager.py:14-33 | a heartbeat sets only that peer's last-seen time. A pass changes only statuses, and a recovery marks only that peer online. No event removes a status entry, and only `Recovered(id)` can make `id` online. |
| NodeManagement.OnlineOnlyThroughRecovery | node_manager.py:29-33 | over any sequence of events, a peer that ends online and was not online at the start was recovered during the sequence |
| NodeManagement.HeartbeatsNeverGoBack | node_manager.py:14-17 | when heartbeat times never decrease, no last-seen entry is lost or goes back over any sequence of events |
| NodeManagement.NodeManager.constructor | node_manager.py:5-8 | every configured peer is online and no heartbeat is recorded |
| NodeManagement.NodeManager.ReceiveHeartbeat | node_manager.py:14-17 | performs `Apply` of `HeartbeatReceived(id, now)`; the status table is untouched |
| NodeManagement.NodeManager.MonitorStep | node_manager.py:22-26 | the loop over the heartbeat entries yields exactly `Monitored` of the old table, and leaves the heartbeats unchanged |
| NodeManagement.NodeManager.RecoverNode | node_manager.py:29-33 | marks the peer online whatever its heartbeat says; no other entry changes |

## Left out

- Sockets, pickle and threads are out: `start_server`, `handle_connections`, `handle_client`, `start_heartbeat_sender`, `start_heartbeat_monitor`, and the `while True` / `time.sleep(1)` wrapper of the monitor. Each operation is modelled as one atomic step, so the locks are not modelled.
- The subscriber notification loop in `publish_message` (peer.py:73-74) is out, because it only prints.
- All `print` output is out. The eventual-mode `time.sleep(random.uniform(...))` in `synchronize_replicas` is out. The code sends nothing to replicas, so no replica state exists to model.
- `time.time()` returns a float, re-read for each entry during a pass. Here it is one integer `now` per pass.
- The random keys are drawn from 1..100 in the source. The model allows any integers, which covers every ranking the source can produce.
- `replication_factor` is a natural number. The source's negative slice bounds are not modelled.
- Handlers return the live dictionary or list (`fetch_topics`, `fetch_messages`), so a caller could alias it. The model returns values.
- A request payload that is not a dictionary is not modelled.
- client.py, benchmark.py and "extra points.py" are not part of this model.
- TopicStore.FetchMessages: it has no contract of its own; what it returns is stated by `TopicStore.Handle` and `Node.PeerNode.FetchMessages`.
