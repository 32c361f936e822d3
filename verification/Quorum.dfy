/** Replica configuration and quorum arithmetic. */
module Quorum {
  import opened Blocks
  import BitVectors

  /** Bit-map width: a certificate can name the replicas 0 to 31 only. */
  const MAX_REPLICAS: nat := BitVectors.WIDTH

  predicate Nameable(ids: set<ReplicaId>) {
    forall r | r in ids :: r < MAX_REPLICAS
  }

  /** The configured replicas and those among them that may vote arbitrarily. */
  datatype Config = Config(replicas: set<ReplicaId>, faulty: set<ReplicaId>) {
    predicate Valid() {
      faulty <= replicas && replicas != {}
    }

    function Honest(): set<ReplicaId> {
      replicas - faulty
    }

    /** The quorum size `finish_init` computes. */
    function NMajority(): nat {
      |replicas| - |replicas| / 3
    }

    /** More than this many faulty replicas and two quorums may meet in faulty
        replicas only. */
    predicate Tolerates() {
      |faulty| < |replicas| - 2 * (|replicas| / 3)
    }
  }

  /** `ReplicaConfig`: the map of replicas and the two counters kept beside it. */
  class ReplicaConfig<Info> {
    var replicaMap: map<ReplicaId, Info>
    var nreplicas: nat
    var nmajority: nat

    constructor ()
      ensures replicaMap == map[] && nreplicas == 0 && nmajority == 0
    {
      replicaMap, nreplicas, nmajority := map[], 0, 0;
    }

    ghost predicate Valid()
      reads this
    {
      nreplicas == |replicaMap|
    }

    /** Adding an id twice throws and changes nothing. */
    method AddReplica(id: ReplicaId, info: Info) returns (ok: bool)
      requires Valid()
      modifies this
      ensures Valid()
      ensures ok == (id !in old(replicaMap))
      ensures replicaMap == if ok then old(replicaMap)[id := info] else old(replicaMap)
      ensures nmajority == old(nmajority)
    {
      if id in replicaMap {
        return false;
      }
      replicaMap := replicaMap[id := info];
      nreplicas := nreplicas + 1;
      return true;
    }

    /** Sets the quorum size of the abstract configuration. */
    method FinishInit()
      requires Valid()
      modifies this
      ensures Valid()
      ensures replicaMap == old(replicaMap)
      ensures nmajority == Config(replicaMap.Keys, {}).NMajority()
    {
      var nfaulty := nreplicas / 3;
      nmajority := nreplicas - nfaulty;
      assert |replicaMap.Keys| == |replicaMap|;
    }
  }

  ghost predicate IsQuorum(c: Config, q: set<ReplicaId>) {
    q <= c.replicas && |q| >= c.NMajority()
  }

  lemma IntersectionSize<T>(a: set<T>, b: set<T>, u: set<T>)
    requires a <= u && b <= u
    ensures |a * b| >= |a| + |b| - |u|
  {
    SubsetSize(a + b, u);
    assert |a + b| == |a| + |b| - |a * b|;
  }

  lemma SubsetSize<T>(a: set<T>, b: set<T>)
    requires a <= b
    ensures |a| <= |b|
  {
    assert a + (b - a) == b;
  }

  /** Any two quorums share more than ⌊(n-1)/3⌋ replicas, for every n. */
  lemma QuorumsOverlap(c: Config, a: set<ReplicaId>, b: set<ReplicaId>)
    requires c.Valid() && IsQuorum(c, a) && IsQuorum(c, b)
    ensures |a * b| > (|c.replicas| - 1) / 3
    ensures |a * b| >= |c.replicas| - 2 * (|c.replicas| / 3)
  {
    IntersectionSize(a, b, c.replicas);
    assert |c.replicas| > 0;
  }

  lemma CommonHonest(c: Config, a: set<ReplicaId>, b: set<ReplicaId>) returns (r: ReplicaId)
    requires c.Valid() && c.Tolerates() && IsQuorum(c, a) && IsQuorum(c, b)
    ensures r in a && r in b && r in c.Honest()
  {
    QuorumsOverlap(c, a, b);
    if a * b <= c.faulty {
      SubsetSize(a * b, c.faulty);
    }
    r :| r in a * b && r !in c.faulty;
  }

  ghost predicate QuorumsShareHonest(c: Config) {
    forall a, b | IsQuorum(c, a) && IsQuorum(c, b) :: a * b * c.Honest() != {}
  }

  lemma Subset(s: set<ReplicaId>, k: nat) returns (t: set<ReplicaId>)
    requires k <= |s|
    ensures t <= s && |t| == k
  {
    if k == 0 {
      t := {};
    } else {
      var x :| x in s;
      var t' := Subset(s - {x}, k - 1);
      t := t' + {x};
    }
  }

  /** The exact tolerance of the code's quorum size: every two quorums share an
      honest replica if and only if the faulty replicas number fewer than
      n - 2⌊n/3⌋.  The code's own `nfaulty = n/3` is one too many whenever three
      divides n. */
  lemma ToleranceIsExact(c: Config)
    requires c.Valid()
    ensures QuorumsShareHonest(c) <==> c.Tolerates()
    ensures |c.faulty| <= (|c.replicas| - 1) / 3 ==> c.Tolerates()
    ensures |c.replicas| % 3 == 0 && |c.faulty| == |c.replicas| / 3 ==> !c.Tolerates()
  {
    if c.Tolerates() {
      forall a, b | IsQuorum(c, a) && IsQuorum(c, b)
        ensures a * b * c.Honest() != {}
      {
        var r := CommonHonest(c, a, b);
        assert r in a * b * c.Honest();
      }
    } else {
      var a, b := FaultyOverlap(c);
      assert a * b * c.Honest() == {};
    }
  }

  lemma FaultyOverlap(c: Config) returns (a: set<ReplicaId>, b: set<ReplicaId>)
    requires c.Valid() && !c.Tolerates()
    ensures IsQuorum(c, a) && IsQuorum(c, b)
    ensures a * b <= c.faulty
    ensures a + b == c.replicas
  {
    var k := |c.replicas| / 3;
    var shared := Subset(c.faulty, |c.replicas| - 2 * k);
    var others := c.replicas - shared;
    assert |others| == 2 * k;
    var left := Subset(others, k);
    var right := others - left;
    assert |right| == k;
    a, b := shared + left, shared + right;
    assert |a| == |shared| + |left|;
    assert |b| == |shared| + |right|;
  }
}
