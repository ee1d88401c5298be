/** The seed that identifies a cluster and how replicas agree on one by gossip (pkg/usagestats/seed.go). */
module ClusterSeed {
  import opened Formatting

  /** An instant, and how it is held: time.Time values of one instant differ by location or monotonic reading. */
  datatype Time = Time(instant: int, form: int)

  datatype Value = Value(uid: string, createdAt: Time, version: string)

  /** What a replica holds after being offered another's seed. */
  function Merged(c: Value, other: Value): Value {
    if c.createdAt.instant < other.createdAt.instant then c
    else if c.createdAt == other.createdAt then (if Less(other.uid, c.uid) then other else c)
    else other
  }

  class Seed {
    var uid: string
    var createdAt: Time
    var version: string

    function Held(): Value
      reads this
    {
      Value(uid, createdAt, version)
    }

    constructor (v: Value)
      ensures Held() == v
    {
      uid, createdAt, version := v.uid, v.createdAt, v.version;
    }

    /** Merge: the offered seed is reported as a change exactly when it replaces the local one. */
    method Merge(offer: Mergeable) returns (change: Seed?, failed: bool)
      modifies this
      ensures failed <==> offer.Foreign?
      ensures Held() == if offer.Peer? && offer.seed != null then Merged(old(Held()), old(offer.seed.Held())) else old(Held())
      ensures change != null <==> Held() != old(Held())
      ensures change != null ==> offer.Peer? && change == offer.seed && change != this && Held() == change.Held()
    {
      change, failed := null, false;
      match offer {
        case Nil =>
        case Foreign => failed := true;
        case Peer(other) =>
          if other == null {
            return;
          }
          if createdAt.instant < other.createdAt.instant {
            return;
          }
          LessAsymmetric(other.uid, uid);
          if createdAt == other.createdAt {
            if Less(other.uid, uid) {
              uid, createdAt, version := other.uid, other.createdAt, other.version;
              return other, false;
            }
            return;
          }
          uid, createdAt, version := other.uid, other.createdAt, other.version;
          return other, false;
      }
    }
  }

  /** What gossip may hand over: nothing, a value of another type, or a seed that may be nil. */
  datatype Mergeable = Nil | Foreign | Peer(seed: Seed?)

  // ---------- Order ----------

  ghost predicate Older(a: Value, b: Value) {
    a.createdAt.instant < b.createdAt.instant || (a.createdAt == b.createdAt && Less(a.uid, b.uid))
  }

  /** One instant is held in one form, and a time and UID fix the seed. */
  ghost predicate Comparable(a: Value, b: Value) {
    a == b || a.createdAt.instant != b.createdAt.instant || (a.createdAt == b.createdAt && a.uid != b.uid)
  }

  /** Two replicas that exchange their seeds end up with the same one exactly if the seeds are comparable. */
  lemma MergeCommutesIff(a: Value, b: Value)
    ensures Merged(a, b) == Merged(b, a) <==> Comparable(a, b)
  {
    LessTotal(a.uid, b.uid);
    LessAsymmetric(a.uid, b.uid);
  }

  lemma MergedOlder(a: Value, b: Value)
    requires Comparable(a, b)
    ensures var m := Merged(a, b); (m == a && (a == b || Older(a, b))) || (m == b && Older(b, a))
  {
    LessTotal(a.uid, b.uid);
  }

  lemma OlderTransitive(a: Value, b: Value, c: Value)
    requires Older(a, b) && Older(b, c)
    ensures Older(a, c)
  {
    if Less(a.uid, b.uid) && Less(b.uid, c.uid) {
      LessTransitive(a.uid, b.uid, c.uid);
    }
  }

  // ---------- Gossip ----------

  /** How a replica came by its seed: its own, or a merge of what two replicas held. */
  datatype Gossip = Own(seed: Value) | Met(local: Gossip, received: Gossip)

  function Result(g: Gossip): Value {
    match g
    case Own(seed) => seed
    case Met(local, received) => Merged(Result(local), Result(received))
  }

  /** The seeds that took part. */
  function Seeds(g: Gossip): set<Value> {
    match g
    case Own(seed) => {seed}
    case Met(local, received) => Seeds(local) + Seeds(received)
  }

  ghost predicate Coherent(seeds: set<Value>) {
    forall a, b :: a in seeds && b in seeds ==> Comparable(a, b)
  }

  ghost predicate Oldest(v: Value, seeds: set<Value>) {
    v in seeds && forall x :: x in seeds ==> x == v || Older(v, x)
  }

  lemma OldestOfBoth(u: Value, s: set<Value>, v: Value, t: set<Value>)
    requires Oldest(u, s) && Oldest(v, t) && Comparable(u, v)
    ensures Oldest(Merged(u, v), s + t)
  {
    var m := Merged(u, v);
    MergedOlder(u, v);
    forall x | x in s + t ensures x == m || Older(m, x) {
      if x in s && m == v && x != u && v != u {
        OlderTransitive(v, u, x);
      } else if x in t && m == u && x != v && v != u {
        OlderTransitive(u, v, x);
      }
    }
  }

  /** Any order, any repetition, any relaying: the oldest seed by time, then by UID. */
  lemma {:induction false} GossipFindsOldest(g: Gossip)
    requires Coherent(Seeds(g))
    ensures Oldest(Result(g), Seeds(g))
  {
    match g
    case Own(_) =>
    case Met(local, received) =>
      GossipFindsOldest(local);
      GossipFindsOldest(received);
      OldestOfBoth(Result(local), Seeds(local), Result(received), Seeds(received));
  }

  lemma OneOldest(u: Value, v: Value, seeds: set<Value>)
    requires Oldest(u, seeds) && Oldest(v, seeds)
    ensures u == v
  {
    LessAsymmetric(u.uid, v.uid);
  }

  ghost predicate Agree(g: Gossip, h: Gossip) {
    Result(g) == Result(h)
  }

  /** Replicas that have seen the same seeds agree, whatever the gossip, if and only if the seeds are coherent. */
  lemma ReplicasAgreeIff(seeds: set<Value>)
    ensures (forall g, h :: Seeds(g) == Seeds(h) <= seeds ==> Agree(g, h)) <==> Coherent(seeds)
  {
    if Coherent(seeds) {
      forall g, h | Seeds(g) == Seeds(h) <= seeds ensures Agree(g, h) {
        GossipFindsOldest(g);
        GossipFindsOldest(h);
        OneOldest(Result(g), Result(h), Seeds(g));
      }
    }
    if forall g, h :: Seeds(g) == Seeds(h) <= seeds ==> Agree(g, h) {
      forall a, b | a in seeds && b in seeds ensures Comparable(a, b) {
        var g, h := Met(Own(a), Own(b)), Met(Own(b), Own(a));
        assert Seeds(g) == Seeds(h) <= seeds;
        assert Agree(g, h);
        assert Result(Own(a)) == a && Result(Own(b)) == b;
        assert Result(g) == Merged(a, b) && Result(h) == Merged(b, a);
        MergeCommutesIff(a, b);
      }
    }
  }
}
