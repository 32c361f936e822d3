/** Quorum certificates and their wire form. */
module Certificates {
  import opened BitVectors
  import opened Blocks
  import opened Quorum
  import ReplicaSpec
  import Network

  /** `QuorumCertificateWire`. */
  datatype Wire<Hash, Sig> = Wire(justify: Hash, bmp: nat, sigs: seq<Sig>)

  datatype AddResult = Added | DifferentHash | InvalidReplica

  datatype VerifyResult = Verdict(ok: bool) | UnknownReplica

  // ---- sets in ascending order ----

  function Least(s: set<nat>): (r: nat)
    requires s != {}
    ensures r in s && forall x | x in s :: r <= x
  {
    LeastExists(s);
    var r :| r in s && forall x | x in s :: r <= x;
    r
  }

  lemma HasLeast(s: set<nat>) returns (r: nat)
    requires s != {}
    ensures r in s && forall x | x in s :: r <= x
  {
    var y :| y in s;
    r := y;
    if s - {y} != {} {
      var q := HasLeast(s - {y});
      r := if q < y then q else y;
    }
    forall x | x in s
      ensures r <= x
    {
      assert x == y || x in s - {y};
    }
  }

  lemma LeastExists(s: set<nat>)
    requires s != {}
    ensures exists r :: r in s && forall x | x in s :: r <= x
  {
    var r := HasLeast(s);
  }

  /** The order in which a `std::map` is walked. */
  function InOrder(s: set<nat>): (r: seq<nat>)
    decreases |s|
  {
    if s == {} then [] else [Least(s)] + InOrder(s - {Least(s)})
  }

  lemma {:induction false} InOrderAscends(s: set<nat>)
    ensures Ascending(InOrder(s)) && |InOrder(s)| == |s|
    ensures forall x :: x in InOrder(s) <==> x in s
    decreases |s|
  {
    if s != {} {
      var l, rest := Least(s), s - {Least(s)};
      InOrderAscends(rest);
      AscendingCons(l, InOrder(rest));
    }
  }

  /** An ascending list is the only one of its elements. */
  lemma {:induction false} AscendingUnique(a: seq<nat>, b: seq<nat>)
    requires Ascending(a) && Ascending(b) && forall x :: x in a <==> x in b
    ensures a == b
  {
    if a == [] {
      EmptyOrNot(b);
    } else {
      assert a[0] in a;
      FirstEqual(a, b);
      forall x
        ensures x in a[1..] <==> x in b[1..]
      {
        InTail(a, x);
        InTail(b, x);
      }
      AscendingUnique(a[1..], b[1..]);
    }
  }

  lemma EmptyOrNot(b: seq<nat>)
    ensures b == [] || exists x :: x in b
  {
    if b != [] {
      assert b[0] in b;
    }
  }

  lemma FirstEqual(a: seq<nat>, b: seq<nat>)
    requires Ascending(a) && Ascending(b) && a != [] && forall x :: x in a <==> x in b
    ensures b != [] && a[0] == b[0]
  {
    assert a[0] in a && a[0] in b;
    assert b[0] in b && b[0] in a;
  }

  lemma InTail(a: seq<nat>, x: nat)
    requires Ascending(a) && a != []
    ensures x in a[1..] <==> x in a && x != a[0]
  {
  }

  // ---- the wire form ----

  ghost predicate ValidIds<Sig>(sigs: map<nat, Sig>) {
    forall r | r in sigs :: r < MAX_REPLICAS
  }

  function Signatures<Sig>(ids: seq<nat>, sigs: map<nat, Sig>): (r: seq<Sig>)
    requires forall i | 0 <= i < |ids| :: ids[i] in sigs
    ensures |r| == |ids| && forall i | 0 <= i < |ids| :: r[i] == sigs[ids[i]]
  {
    seq(|ids|, i requires 0 <= i < |ids| => sigs[ids[i]])
  }

  /** Ids and signatures, lowest id first. */
  function ToWire<Hash, Sig>(hash: Hash, sigs: map<nat, Sig>): Wire<Hash, Sig> {
    InOrderAscends(sigs.Keys);
    var ids := InOrder(sigs.Keys);
    Wire(hash, Mask(ids), Signatures(ids, sigs))
  }

  function Zip<Sig>(ids: seq<nat>, ss: seq<Sig>): map<nat, Sig>
    requires |ids| == |ss|
  {
    if ids == [] then map[] else
      var k := |ids| - 1;
      Zip(ids[..k], ss[..k])[ids[k] := ss[k]]
  }

  function FromWire<Hash, Sig>(w: Wire<Hash, Sig>): map<nat, Sig> {
    if |Positions(w.bmp)| != |w.sigs| then map[] else Zip(Positions(w.bmp), w.sigs)
  }

  lemma {:induction false} ZipSpec<Sig>(ids: seq<nat>, ss: seq<Sig>)
    requires |ids| == |ss| && Ascending(ids)
    ensures forall x :: x in Zip(ids, ss) <==> x in ids
    ensures forall i | 0 <= i < |ids| :: Zip(ids, ss)[ids[i]] == ss[i]
  {
    if ids != [] {
      var k := |ids| - 1;
      ZipSpec(ids[..k], ss[..k]);
      ZipLast(ids, ss, Zip(ids[..k], ss[..k]));
    }
  }

  lemma ZipLast<Sig>(ids: seq<nat>, ss: seq<Sig>, m: map<nat, Sig>)
    requires |ids| == |ss| > 0 && Ascending(ids)
    requires forall x :: x in m <==> x in ids[..|ids| - 1]
    requires forall i | 0 <= i < |ids| - 1 :: ids[i] in m && m[ids[i]] == ss[i]
    ensures var k := |ids| - 1; var all := m[ids[k] := ss[k]];
      && (forall x :: x in all <==> x in ids)
      && (forall i | 0 <= i < |ids| :: all[ids[i]] == ss[i])
  {
    var k := |ids| - 1;
    assert ids == ids[..k] + [ids[k]];
  }

  /** Serializing a certificate and reading it back is the identity. */
  lemma WireRoundTrip<Hash, Sig>(hash: Hash, sigs: map<nat, Sig>)
    requires ValidIds(sigs)
    ensures FromWire(ToWire(hash, sigs)) == sigs
    ensures ToWire(hash, sigs).bmp < Power2(MAX_REPLICAS)
    ensures |ToWire(hash, sigs).sigs| == PopCount(ToWire(hash, sigs).bmp)
  {
    var ids := InOrder(sigs.Keys);
    InOrderAscends(sigs.Keys);
    PositionsOfMask(ids);
    MaskBound(ids, MAX_REPLICAS);
    PopCountCounts(Mask(ids), 0);
    ZipOfSignatures(ids, sigs);
  }

  lemma ZipOfSignatures<Sig>(ids: seq<nat>, sigs: map<nat, Sig>)
    requires Ascending(ids) && forall x :: x in ids <==> x in sigs
    ensures Zip(ids, Signatures(ids, sigs)) == sigs
  {
    var back := Zip(ids, Signatures(ids, sigs));
    ZipSpec(ids, Signatures(ids, sigs));
    assert back.Keys == sigs.Keys;
    forall x | x in sigs
      ensures back[x] == sigs[x]
    {
      var i :| 0 <= i < |ids| && ids[i] == x;
    }
  }

  /** Reading a wire certificate and serializing it again is the identity exactly
      when its bit map has one bit for every signature. */
  lemma WireCanonical<Hash, Sig>(w: Wire<Hash, Sig>)
    ensures ToWire(w.justify, FromWire(w)) == w <==> PopCount(w.bmp) == |w.sigs|
  {
    var ids, sigs := Positions(w.bmp), FromWire(w);
    PopCountCounts(w.bmp, 0);
    if |ids| == |w.sigs| {
      PositionsAscending(w.bmp, 0);
      ZipSpec(ids, w.sigs);
      InOrderAscends(sigs.Keys);
      AscendingUnique(InOrder(sigs.Keys), ids);
      MaskOfPositions(w.bmp);
      assert Signatures(ids, sigs) == w.sigs;
    } else {
      assert ToWire(w.justify, sigs) == Wire(w.justify, 0, []);
    }
  }

  /** Ids read from a bit map of the source's width are valid. */
  lemma WireIdsValid<Hash, Sig>(w: Wire<Hash, Sig>)
    requires w.bmp < Power2(MAX_REPLICAS)
    ensures ValidIds(FromWire(w))
  {
    PositionsAscending(w.bmp, 0);
    PositionsBound(w.bmp, 0, MAX_REPLICAS);
    if |Positions(w.bmp)| == |w.sigs| {
      ZipSpec(Positions(w.bmp), w.sigs);
    }
  }

  // ---- verification ----

  /** The configured replicas whose signature in the certificate checks. */
  ghost function Signers<Hash, Sig, Key>(hash: Hash, sigs: map<nat, Sig>, keys: map<nat, Key>,
                                         check: (Sig, Hash, Key) -> bool): set<nat> {
    set r | r in sigs && r in keys && check(sigs[r], hash, keys[r])
  }

  /** When a certificate verifies: it is the genesis one, or enough different
      configured replicas signed it.  An unconfigured id in a certificate that is large
      enough makes the look-up of its key throw. */
  ghost function Judge<Hash, Sig, Key>(hash: Hash, sigs: map<nat, Sig>, keys: map<nat, Key>, nmajority: nat,
                                       check: (Sig, Hash, Key) -> bool, genesis: Hash): VerifyResult {
    if hash == genesis then Verdict(true)
    else if |sigs| < nmajority then Verdict(false)
    else if !(sigs.Keys <= keys.Keys) then UnknownReplica
    else Verdict(|Signers(hash, sigs, keys, check)| >= nmajority)
  }

  /** A certificate that verifies was signed by a quorum. */
  lemma VerifiedQuorum<Hash, Sig, Key>(c: Config, hash: Hash, sigs: map<nat, Sig>, keys: map<nat, Key>,
                                       check: (Sig, Hash, Key) -> bool, genesis: Hash)
    requires c.replicas == keys.Keys && hash != genesis
    requires Judge(hash, sigs, keys, c.NMajority(), check, genesis) == Verdict(true)
    ensures IsQuorum(c, Signers(hash, sigs, keys, check))
  {
  }

  /** The acceptance test of the protocol model is `verify`.  A signature that checks was
      made by its owner, so a certificate that verifies is accepted; and if the signature
      of everybody who voted checks, the two tests are one.  No id is unknown then. */
  lemma VerdictIsVerifies<Hash, Sig, Key>(c: Config, votes: seq<Network.Vote>, b: Block, hash: Hash,
                                          sigs: map<nat, Sig>, keys: map<nat, Key>,
                                          check: (Sig, Hash, Key) -> bool, genesis: Hash)
    requires c.replicas == keys.Keys && ValidIds(sigs) && (hash == genesis <==> b.Genesis?)
    requires forall r | r in sigs && r in keys && check(sigs[r], hash, keys[r]) :: Network.Vote(r, b) in votes
    ensures var verdict := Judge(hash, sigs, keys, c.NMajority(), check, genesis);
      var accepted := Network.Verifies(c, votes, ReplicaSpec.Certificate(b, sigs.Keys));
      && (verdict == Verdict(true) ==> accepted)
      && ((forall r | r in sigs && r in keys && Network.Vote(r, b) in votes :: check(sigs[r], hash, keys[r])) ==>
            (accepted <==> verdict == Verdict(true)))
  {
    var signers, voters := Signers(hash, sigs, keys, check), Network.Voters(c, votes, b);
    SubsetSize(signers, sigs.Keys * voters);
    SubsetSize(sigs.Keys * voters, sigs.Keys);
    if forall r | r in sigs && r in keys && Network.Vote(r, b) in votes :: check(sigs[r], hash, keys[r]) {
      assert signers == sigs.Keys * voters;
    }
  }

  /** Two certificates that verify, whatever they certify, were both signed by some
      honest replica. */
  lemma CommonSigner<Hash, Sig, Key>(c: Config, h1: Hash, s1: map<nat, Sig>, h2: Hash, s2: map<nat, Sig>,
                                     keys: map<nat, Key>, check: (Sig, Hash, Key) -> bool, genesis: Hash)
    returns (r: nat)
    requires c.Valid() && c.Tolerates() && c.replicas == keys.Keys && h1 != genesis && h2 != genesis
    requires Judge(h1, s1, keys, c.NMajority(), check, genesis) == Verdict(true)
    requires Judge(h2, s2, keys, c.NMajority(), check, genesis) == Verdict(true)
    ensures r in c.Honest() && r in s1 && r in s2 && r in keys
    ensures check(s1[r], h1, keys[r]) && check(s2[r], h2, keys[r])
  {
    VerifiedQuorum(c, h1, s1, keys, check, genesis);
    VerifiedQuorum(c, h2, s2, keys, check, genesis);
    r := CommonHonest(c, Signers(h1, s1, keys, check), Signers(h2, s2, keys, check));
  }

  /** A certificate built from enough checked votes verifies after a trip over the
      wire. */
  lemma BuiltVerifies<Hash, Sig, Key>(hash: Hash, sigs: map<nat, Sig>, keys: map<nat, Key>, nmajority: nat,
                                      check: (Sig, Hash, Key) -> bool, genesis: Hash)
    requires ValidIds(sigs) && |sigs| >= nmajority
    requires forall r | r in sigs :: r in keys && check(sigs[r], hash, keys[r])
    ensures Judge(hash, FromWire(ToWire(hash, sigs)), keys, nmajority, check, genesis) == Verdict(true)
  {
    WireRoundTrip(hash, sigs);
    assert Signers(hash, sigs, keys, check) == sigs.Keys;
  }

  /** Signers among the first ids of a list. */
  ghost function SignersAmong<Hash, Sig, Key>(ids: seq<nat>, hash: Hash, sigs: map<nat, Sig>, keys: map<nat, Key>,
                                              check: (Sig, Hash, Key) -> bool): set<nat> {
    set r | r in ids && r in sigs && r in keys && check(sigs[r], hash, keys[r])
  }

  lemma SignersNext<Hash, Sig, Key>(ids: seq<nat>, i: nat, hash: Hash, sigs: map<nat, Sig>, keys: map<nat, Key>,
                                    check: (Sig, Hash, Key) -> bool)
    requires Ascending(ids) && i < |ids| && ids[i] in sigs && ids[i] in keys
    ensures |SignersAmong(ids[..i + 1], hash, sigs, keys, check)| ==
      |SignersAmong(ids[..i], hash, sigs, keys, check)| + if check(sigs[ids[i]], hash, keys[ids[i]]) then 1 else 0
  {
    var a := SignersAmong(ids[..i], hash, sigs, keys, check);
    var b := SignersAmong(ids[..i + 1], hash, sigs, keys, check);
    var r := ids[i];
    assert ids[..i + 1] == ids[..i] + [r];
    assert r !in ids[..i];
    assert b == if check(sigs[r], hash, keys[r]) then a + {r} else a;
  }

  lemma ZipNext<Sig>(ids: seq<nat>, ss: seq<Sig>, i: nat)
    requires |ids| == |ss| && Ascending(ids) && i < |ids|
    ensures ids[i] !in Zip(ids[..i], ss[..i])
    ensures Zip(ids[..i + 1], ss[..i + 1]) == Zip(ids[..i], ss[..i])[ids[i] := ss[i]]
  {
    ZipSpec(ids[..i], ss[..i]);
    assert ids[..i + 1][..i] == ids[..i] && ss[..i + 1][..i] == ss[..i];
  }

  /** The loop of the constructor from the wire form. */
  method Unpack<Sig>(bmp: nat, ss: seq<Sig>) returns (sigs: map<nat, Sig>)
    ensures sigs == if |Positions(bmp)| == |ss| then Zip(Positions(bmp), ss) else map[]
  {
    sigs := map[];
    var bv := new BitVector(bmp);
    if bv.Size() != |ss| {
      return;
    }
    ghost var ids := Positions(bmp);
    PositionsAscending(bmp, 0);
    for i := 0 to |ss|
      invariant Positions(bv.bv) == ids[i..]
      invariant sigs == Zip(ids[..i], ss[..i])
    {
      ZipNext(ids, ss, i);
      ghost var rest := Positions(bv.bv);
      var id := bv.Pop();
      assert rest[0] == id == ids[i] && rest[1..] == ids[i + 1..];
      if id !in sigs {
        sigs := sigs[id := ss[i]];
      }
    }
    assert ids[..|ids|] == ids && ss[..|ids|] == ss;
  }

  lemma MaskNext(ids: seq<nat>, i: nat)
    requires Ascending(ids) && i < |ids|
    ensures Mask(ids[..i + 1]) == Mask(ids[..i]) + Power2(ids[i])
    ensures ids[i] !in Positions(Mask(ids[..i]))
  {
    PositionsOfMask(ids[..i]);
    MaskAppend(ids[..i], ids[i]);
    assert ids[..i + 1] == ids[..i] + [ids[i]];
  }

  /** The loop of `serialize`. */
  method Pack<Sig>(ids: seq<nat>, sigs: map<nat, Sig>) returns (bmp: nat, out: seq<Sig>)
    requires Ascending(ids) && forall x | x in ids :: x in sigs && x < WIDTH
    ensures bmp == Mask(ids) && out == Signatures(ids, sigs)
  {
    var bv := new BitVector(0);
    out := [];
    for i := 0 to |ids|
      invariant bv.bv == Mask(ids[..i]) && out == Signatures(ids[..i], sigs)
    {
      assert ids[i] in ids;
      MaskNext(ids, i);
      out := out + [sigs[ids[i]]];
      bv.Add(ids[i]);
    }
    assert ids[..|ids|] == ids;
    bmp := bv.bv;
  }

  /** The loop of `verify`. */
  method CountValid<Hash, Sig, Key>(ids: seq<nat>, hash: Hash, sigs: map<nat, Sig>, keys: map<nat, Key>,
                                    check: (Sig, Hash, Key) -> bool) returns (known: bool, nvalid: nat)
    requires Ascending(ids) && forall x | x in ids :: x in sigs
    ensures known <==> forall x | x in ids :: x in keys
    ensures known ==> nvalid == |SignersAmong(ids, hash, sigs, keys, check)|
  {
    nvalid := 0;
    for i := 0 to |ids|
      invariant forall x | x in ids[..i] :: x in keys
      invariant nvalid == |SignersAmong(ids[..i], hash, sigs, keys, check)|
    {
      var id := ids[i];
      assert id in ids;
      if id !in keys {
        return false, nvalid;
      }
      SignersNext(ids, i, hash, sigs, keys, check);
      if check(sigs[id], hash, keys[id]) {
        nvalid := nvalid + 1;
      }
    }
    assert ids[..|ids|] == ids;
    return true, nvalid;
  }

  class QuorumCertificate<Hash(==), Sig(==)> {
    const objHash: Hash
    var sigs: map<nat, Sig>

    constructor (hash: Hash)
      ensures objHash == hash && sigs == map[]
    {
      objHash, sigs := hash, map[];
    }

    /** The constructor from the wire form: ids are popped off the bit map, lowest
        first; a bit map that does not match the signatures leaves none. */
    constructor OfWire(w: Wire<Hash, Sig>)
      requires w.bmp < Power2(MAX_REPLICAS)
      ensures objHash == w.justify && sigs == FromWire(w) && ValidIds(sigs)
    {
      WireIdsValid(w);
      var read := Unpack(w.bmp, w.sigs);
      objHash, sigs := w.justify, read;
    }

    /** Walks the signatures from the lowest id. */
    method Serialize() returns (w: Wire<Hash, Sig>)
      requires ValidIds(sigs)
      ensures w == ToWire(objHash, sigs)
    {
      InOrderAscends(sigs.Keys);
      var bmp, out := Pack(InOrder(sigs.Keys), sigs);
      return Wire(objHash, bmp, out);
    }

    /** A vote for another hash or by an id beyond the bit map throws; a second vote by
        one replica is ignored. */
    method AddPartialCertificate(rid: nat, hash: Hash, sig: Sig) returns (r: AddResult)
      requires ValidIds(sigs)
      modifies this
      ensures ValidIds(sigs)
      ensures r == if hash != objHash then DifferentHash else if rid >= MAX_REPLICAS then InvalidReplica else Added
      ensures sigs == if r.Added? && rid !in old(sigs) then old(sigs)[rid := sig] else old(sigs)
    {
      if hash != objHash {
        return DifferentHash;
      }
      if rid >= MAX_REPLICAS {
        return InvalidReplica;
      }
      if rid !in sigs {
        sigs := sigs[rid := sig];
      }
      return Added;
    }

    /** Counts the valid signatures one by one. */
    method Verify<Key>(config: ReplicaConfig<Key>, check: (Sig, Hash, Key) -> bool, genesis: Hash)
      returns (r: VerifyResult)
      ensures r == Judge(objHash, sigs, config.replicaMap, config.nmajority, check, genesis)
    {
      if objHash == genesis {
        return Verdict(true);
      }
      if |sigs| < config.nmajority {
        return Verdict(false);
      }
      InOrderAscends(sigs.Keys);
      ghost var ids := InOrder(sigs.Keys);
      var known, nvalid := CountValid(InOrder(sigs.Keys), objHash, sigs, config.replicaMap, check);
      assert SignersAmong(ids, objHash, sigs, config.replicaMap, check) ==
        Signers(objHash, sigs, config.replicaMap, check);
      return if known then Verdict(nvalid >= config.nmajority) else UnknownReplica;
    }
  }
}
