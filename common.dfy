/** Types shared by the topic store, the replica placement and the failure
    detector of one pub/sub peer. */
module Common {

  /** Peer identifiers are the integers of the configured peer list. */
  type PeerId = int
  type Topic = string
  type Message = string
  type SubscriberId = string

  /** One entry of the static peer list: (peer_id, host, port). */
  datatype Peer = Peer(id: PeerId, host: string, port: int)

  /** A field of a request dictionary that may be absent. */
  datatype Option<T> = None | Some(value: T)

  function Min(a: int, b: int): (r: int)
    ensures r <= a && r <= b
    ensures r == a || r == b
  {
    if a <= b then a else b
  }

  predicate NoDuplicates<T(==)>(s: seq<T>)
  {
    forall i, j | 0 <= i < j < |s| :: s[i] != s[j]
  }

  /** In a sequence without duplicates every element occurs at most once. */
  lemma {:induction false} NoDuplicatesCountsAtMostOne<T>(s: seq<T>)
    requires NoDuplicates(s)
    ensures forall x :: multiset(s)[x] <= 1
  {
    if s != [] {
      var t := s[1..];
      assert s == [s[0]] + t;
      assert NoDuplicates(t) by {
        forall i, j | 0 <= i < j < |t| ensures t[i] != t[j] {
          assert t[i] == s[i + 1] && t[j] == s[j + 1];
        }
      }
      NoDuplicatesCountsAtMostOne(t);
      assert s[0] !in t;
      forall x ensures multiset(s)[x] <= 1 {
        assert multiset(s)[x] == multiset([s[0]])[x] + multiset(t)[x];
      }
    }
  }

  /** A sequence whose elements each occur at most once has no duplicates. */
  lemma CountsAtMostOneNoDuplicates<T>(s: seq<T>)
    requires forall x :: multiset(s)[x] <= 1
    ensures NoDuplicates(s)
  {
    forall i, j | 0 <= i < j < |s| ensures s[i] != s[j] {
      var x := s[i];
      assert s == s[..j] + s[j..];
      assert x in multiset(s[..j]) by { assert s[..j][i] == x; }
      assert multiset(s)[x] == multiset(s[..j])[x] + multiset(s[j..])[x];
      assert x !in multiset(s[j..]);
      assert s[j] in multiset(s[j..]) by { assert s[j..][0] == s[j]; }
    }
  }

  /** Taking a prefix never adds an element occurrence. */
  lemma PrefixSubMultiset<T>(s: seq<T>, k: nat)
    requires k <= |s|
    ensures multiset(s[..k]) <= multiset(s)
  {
    assert s == s[..k] + s[k..];
  }

  /** Every element of a sub-multiset occurs in the larger sequence. */
  lemma SubMultisetMembers<T>(r: seq<T>, s: seq<T>)
    requires multiset(r) <= multiset(s)
    ensures forall x | x in r :: x in s
  {
    forall x | x in r ensures x in s {
      assert x in multiset(r);
    }
  }

  /** A sub-multiset of a duplicate-free sequence is duplicate-free. */
  lemma SubMultisetNoDuplicates<T>(r: seq<T>, s: seq<T>)
    requires multiset(r) <= multiset(s)
    requires NoDuplicates(s)
    ensures NoDuplicates(r)
  {
    NoDuplicatesCountsAtMostOne(s);
    forall x ensures multiset(r)[x] <= 1 {
      assert multiset(r)[x] <= multiset(s)[x];
    }
    CountsAtMostOneNoDuplicates(r);
  }

  lemma NoMemberIsEmpty<T>(s: set<T>)
    requires forall x :: x !in s
    ensures s == {}
  {
  }

  /** A non-empty set has an element to pick. */
  lemma HasMember(s: set<PeerId>)
    requires s != {}
    ensures exists x :: x in s
  {
    if forall x :: x !in s {
      NoMemberIsEmpty(s);
      assert false;
    }
  }
}
