/** Replica placement and the (state-free) synchronisation step of
    replicate.py's ReplicationManager.

    The source ranks the peer list with `sorted(peer_list, key=...)` whose key
    draws a fresh random integer for every element. Here those draws are the
    parameter `keys` (one per peer, in list order), and `sorted` is a stable
    sort by key: equal keys keep their list order. */
module Replicate {
  import opened Common

  const DefaultReplicationFactor: nat := 2
  const StrongConsistency: string := "strong"
  const EventualConsistency: string := "eventual"

  /** A peer together with the random key it was ranked by. */
  type Keyed = (int, Peer)

  predicate SortedByKey(s: seq<Keyed>)
  {
    forall i, j | 0 <= i < j < |s| :: s[i].0 <= s[j].0
  }

  function Zip(keys: seq<int>, peers: seq<Peer>): (r: seq<Keyed>)
    requires |keys| == |peers|
    ensures |r| == |peers|
  {
    if peers == [] then [] else [(keys[0], peers[0])] + Zip(keys[1..], peers[1..])
  }

  function PeersOf(s: seq<Keyed>): (r: seq<Peer>)
    ensures |r| == |s|
  {
    if s == [] then [] else [s[0].1] + PeersOf(s[1..])
  }

  /** Pairing peers with keys and dropping the keys again gives the peers back. */
  lemma {:induction false} PeersOfZip(keys: seq<int>, peers: seq<Peer>)
    requires |keys| == |peers|
    ensures PeersOf(Zip(keys, peers)) == peers
  {
    if peers != [] {
      PeersOfZip(keys[1..], peers[1..]);
      PeersOfCons((keys[0], peers[0]), Zip(keys[1..], peers[1..]));
    }
  }

  /** Inserts `x` in front of the first entry whose key is not smaller, so
      that `x`, which came earlier in the list, stays before equal keys. */
  function InsertByKey(x: Keyed, s: seq<Keyed>): seq<Keyed>
  {
    if s == [] || x.0 <= s[0].0 then [x] + s else [s[0]] + InsertByKey(x, s[1..])
  }

  /** `sorted(..., key=...)`: a stable insertion sort on the keys. */
  function SortByKey(s: seq<Keyed>): seq<Keyed>
  {
    if s == [] then [] else InsertByKey(s[0], SortByKey(s[1..]))
  }

  lemma PeersOfCons(x: Keyed, s: seq<Keyed>)
    ensures PeersOf([x] + s) == [x.1] + PeersOf(s)
  {
  }

  /** Insertion adds exactly the inserted (key, peer) entry and nothing else. */
  lemma {:induction false} InsertByKeyPermutes(x: Keyed, s: seq<Keyed>)
    ensures multiset(InsertByKey(x, s)) == multiset(s) + multiset{x}
  {
    if s != [] && x.0 > s[0].0 {
      InsertByKeyPermutes(x, s[1..]);
      assert s == [s[0]] + s[1..];
    }
  }

  /** Insertion adds exactly the inserted entry's peer to the peers. */
  lemma {:induction false} InsertByKeyPermutesPeers(x: Keyed, s: seq<Keyed>)
    ensures multiset(PeersOf(InsertByKey(x, s))) == multiset(PeersOf(s)) + multiset{x.1}
  {
    if s == [] || x.0 <= s[0].0 {
      PeersOfCons(x, s);
    } else {
      var rest := InsertByKey(x, s[1..]);
      InsertByKeyPermutesPeers(x, s[1..]);
      assert InsertByKey(x, s) == [s[0]] + rest;
      PeersOfCons(s[0], rest);
      assert s == [s[0]] + s[1..];
      PeersOfCons(s[0], s[1..]);
      calc {
        multiset(PeersOf(InsertByKey(x, s)));
        multiset([s[0].1] + PeersOf(rest));
        multiset([s[0].1]) + multiset(PeersOf(rest));
        multiset([s[0].1]) + multiset(PeersOf(s[1..])) + multiset{x.1};
        multiset([s[0].1] + PeersOf(s[1..])) + multiset{x.1};
      }
    }
  }

  predicate KeysAtLeast(s: seq<Keyed>, k: int)
  {
    forall i | 0 <= i < |s| :: k <= s[i].0
  }

  lemma {:induction false} InsertByKeyKeysAtLeast(x: Keyed, s: seq<Keyed>, k: int)
    requires k <= x.0 && KeysAtLeast(s, k)
    ensures KeysAtLeast(InsertByKey(x, s), k)
  {
    if s == [] || x.0 <= s[0].0 {
    } else {
      InsertByKeyKeysAtLeast(x, s[1..], k);
    }
  }

  lemma {:induction false} InsertByKeySorted(x: Keyed, s: seq<Keyed>)
    requires SortedByKey(s)
    ensures SortedByKey(InsertByKey(x, s))
  {
    if s == [] || x.0 <= s[0].0 {
    } else {
      var rest := InsertByKey(x, s[1..]);
      InsertByKeySorted(x, s[1..]);
      InsertByKeyKeysAtLeast(x, s[1..], s[0].0);
      var r := [s[0]] + rest;
      assert r == InsertByKey(x, s);
      forall i, j | 0 <= i < j < |r| ensures r[i].0 <= r[j].0 {
        assert r[j] == rest[j - 1];
        if i > 0 {
          assert r[i] == rest[i - 1];
        }
      }
    }
  }

  /** The stable sort reorders its (key, peer) entries and nothing else:
      every peer keeps the key it was drawn. */
  lemma {:induction false} SortByKeyPermutes(s: seq<Keyed>)
    ensures multiset(SortByKey(s)) == multiset(s)
  {
    if s != [] {
      SortByKeyPermutes(s[1..]);
      InsertByKeyPermutes(s[0], SortByKey(s[1..]));
      assert s == [s[0]] + s[1..];
    }
  }

  /** Dropping the keys: the sorted peers are the input peers, reordered. */
  lemma {:induction false} SortByKeyPermutesPeers(s: seq<Keyed>)
    ensures multiset(PeersOf(SortByKey(s))) == multiset(PeersOf(s))
  {
    if s != [] {
      var sortedRest := SortByKey(s[1..]);
      SortByKeyPermutesPeers(s[1..]);
      InsertByKeyPermutesPeers(s[0], sortedRest);
      assert s == [s[0]] + s[1..];
      PeersOfCons(s[0], s[1..]);
    }
  }

  /** The stable sort leaves the keys in ascending order. */
  lemma {:induction false} SortByKeySorted(s: seq<Keyed>)
    ensures SortedByKey(SortByKey(s))
  {
    if s != [] {
      SortByKeySorted(s[1..]);
      InsertByKeySorted(s[0], SortByKey(s[1..]));
    }
  }

  /** The proximity ranking: the peer list reordered by its random keys. */
  function Rank(peers: seq<Peer>, keys: seq<int>): (r: seq<Peer>)
    requires |keys| == |peers|
    ensures multiset(r) == multiset(peers)
    ensures |r| == |peers|
  {
    var zipped := Zip(keys, peers);
    PeersOfZip(keys, peers);
    SortByKeyPermutesPeers(zipped);
    assert |multiset(PeersOf(SortByKey(zipped)))| == |multiset(peers)|;
    PeersOf(SortByKey(zipped))
  }

  /** The slice `ranked[:factor]`, which takes the whole list when it is
      shorter than `factor`. */
  function Prefix(ranked: seq<Peer>, factor: nat): seq<Peer>
  {
    ranked[..Min(factor, |ranked|)]
  }

  /** The replica assignment `replicate_topic` stores for a topic: the first
      `factor` peers of the ranking, as many as the factor allows, each taken
      from the peer list no more often than it occurs there. */
  function SelectReplicas(peers: seq<Peer>, keys: seq<int>, factor: nat): (r: seq<Peer>)
    requires |keys| == |peers|
    ensures IsPlacement(r, peers, factor)
  {
    var ranked := Rank(peers, keys);
    PrefixSubMultiset(ranked, Min(factor, |ranked|));
    Prefix(ranked, factor)
  }

  /** Every replica is one of the peers. */
  lemma SelectReplicasFromPeers(peers: seq<Peer>, keys: seq<int>, factor: nat)
    requires |keys| == |peers|
    ensures forall p | p in SelectReplicas(peers, keys, factor) :: p in peers
  {
    SubMultisetMembers(SelectReplicas(peers, keys, factor), peers);
  }

  /** Distinct peers give distinct replicas. */
  lemma SelectReplicasNoDuplicates(peers: seq<Peer>, keys: seq<int>, factor: nat)
    requires |keys| == |peers| && NoDuplicates(peers)
    ensures NoDuplicates(SelectReplicas(peers, keys, factor))
  {
    SubMultisetNoDuplicates(SelectReplicas(peers, keys, factor), peers);
  }

  /** What every stored assignment satisfies: as many replicas as the factor
      allows, each drawn from the peer list no more often than it occurs there. */
  predicate IsPlacement(r: seq<Peer>, peers: seq<Peer>, factor: nat)
  {
    |r| == Min(factor, |peers|) && multiset(r) <= multiset(peers)
  }

  /** One line `synchronize_replicas` prints for a replica: a direct send
      in strong mode, a queued delivery in eventual mode. */
  datatype SyncNotice = StrongSend(peer: Peer, message: Message) | EventualQueue(peer: Peer, message: Message)

  class ReplicationManager {
    const replicationFactor: nat
    const consistencyModel: string
    /** topic name -> its replica peers */
    var topicReplicas: map<Topic, seq<Peer>>

    constructor (replicationFactor: nat, consistencyModel: string)
      ensures this.replicationFactor == replicationFactor
      ensures this.consistencyModel == consistencyModel
      ensures topicReplicas == map[]
    {
      this.replicationFactor := replicationFactor;
      this.consistencyModel := consistencyModel;
      topicReplicas := map[];
    }

    /** `topic_replicas.get(topic, [])` */
    function ReplicasOf(topic: Topic): seq<Peer>
      reads this
    {
      if topic in topicReplicas then topicReplicas[topic] else []
    }

    /** Ranks `peers` by the random `keys` and stores the first
        `replicationFactor` of them as the topic's replicas, overwriting any
        previous assignment of that topic and no other. */
    method ReplicateTopic(topic: Topic, peers: seq<Peer>, keys: seq<int>)
      requires |keys| == |peers|
      modifies this
      ensures topicReplicas == old(topicReplicas)[topic := SelectReplicas(peers, keys, replicationFactor)]
      ensures IsPlacement(topicReplicas[topic], peers, replicationFactor)
      ensures forall t | t in old(topicReplicas) && t != topic :: t in topicReplicas && topicReplicas[t] == old(topicReplicas)[t]
    {
      var ranked := Rank(peers, keys);
      topicReplicas := topicReplicas[topic := ranked[..Min(replicationFactor, |ranked|)]];
    }

    /** Walks the topic's replicas and reports, in order, the notice it would
        print for each; an unassigned topic or an unrecognised consistency
        model yields nothing. Changes no state: the method has no frame. */
    method SynchronizeReplicas(topic: Topic, message: Message) returns (notices: seq<SyncNotice>)
      ensures consistencyModel != StrongConsistency && consistencyModel != EventualConsistency ==> notices == []
      ensures consistencyModel == StrongConsistency || consistencyModel == EventualConsistency ==>
        |notices| == |ReplicasOf(topic)|
      ensures forall i | 0 <= i < |notices| ::
        notices[i].peer == ReplicasOf(topic)[i] && notices[i].message == message &&
        (notices[i].StrongSend? <==> consistencyModel == StrongConsistency)
    {
      var replicas := if topic in topicReplicas then topicReplicas[topic] else [];
      notices := [];
      if consistencyModel == StrongConsistency {
        for i := 0 to |replicas|
          invariant |notices| == i
          invariant forall k | 0 <= k < i :: notices[k] == StrongSend(replicas[k], message)
        {
          notices := notices + [StrongSend(replicas[i], message)];
        }
      } else if consistencyModel == EventualConsistency {
        for i := 0 to |replicas|
          invariant |notices| == i
          invariant forall k | 0 <= k < i :: notices[k] == EventualQueue(replicas[k], message)
        {
          notices := notices + [EventualQueue(replicas[i], message)];
        }
      }
    }
  }
}
