/** Bit vectors of replica ids. */
module BitVectors {

  /** Bits in a replica bit map. */
  const WIDTH: nat := 32

  function Power2(k: nat): nat {
    if k == 0 then 1 else 2 * Power2(k - 1)
  }

  /** The positions of the one bits of `n`, lowest first, counted from `k`. */
  function PositionsFrom(n: nat, k: nat): seq<nat>
    decreases n
  {
    if n == 0 then []
    else if n % 2 == 1 then [k] + PositionsFrom(n / 2, k + 1)
    else PositionsFrom(n / 2, k + 1)
  }

  function Positions(n: nat): seq<nat> {
    PositionsFrom(n, 0)
  }

  /** The number with exactly these bits. */
  function Mask(ps: seq<nat>): nat {
    if ps == [] then 0 else Power2(ps[0]) + Mask(ps[1..])
  }

  ghost predicate Ascending(ps: seq<nat>) {
    forall i, j | 0 <= i < j < |ps| :: ps[i] < ps[j]
  }

  /** `__builtin_popcount`. */
  function PopCount(n: nat): nat {
    if n == 0 then 0 else n % 2 + PopCount(n / 2)
  }

  /** `__builtin_ffs` less one. */
  function Lowest(n: nat): nat
    requires n > 0
  {
    if n % 2 == 1 then 0 else 1 + Lowest(n / 2)
  }

  /** Bit `k` of `n`. */
  predicate Bit(n: nat, k: nat)
    decreases k
  {
    if k == 0 then n % 2 == 1 else Bit(n / 2, k - 1)
  }

  lemma AscendingCons(p: nat, ps: seq<nat>)
    requires Ascending(ps) && forall x | x in ps :: p < x
    ensures Ascending([p] + ps)
  {
    var qs := [p] + ps;
    forall i, j | 0 <= i < j < |qs|
      ensures qs[i] < qs[j]
    {
      assert qs[j] in ps;
    }
  }

  lemma {:induction false} PositionsAscending(n: nat, k: nat)
    ensures Ascending(PositionsFrom(n, k))
    ensures forall x | x in PositionsFrom(n, k) :: x >= k
    decreases n
  {
    if n > 0 {
      PositionsAscending(n / 2, k + 1);
      AscendingCons(k, PositionsFrom(n / 2, k + 1));
    }
  }

  lemma {:induction false} PopCountCounts(n: nat, k: nat)
    ensures PopCount(n) == |PositionsFrom(n, k)|
    decreases n
  {
    if n > 0 {
      PopCountCounts(n / 2, k + 1);
    }
  }

  lemma {:induction false} PositionsAreBits(n: nat, k: nat, p: nat)
    ensures p in PositionsFrom(n, k) <==> p >= k && Bit(n, p - k)
    decreases n
  {
    if n == 0 {
      if p >= k {
        ZeroHasNoBits(p - k);
      }
    } else {
      PositionsAreBits(n / 2, k + 1, p);
    }
  }

  lemma {:induction false} ZeroHasNoBits(p: nat)
    ensures !Bit(0, p)
  {
    if p > 0 {
      ZeroHasNoBits(p - 1);
    }
  }

  lemma {:induction false} PositionsBound(n: nat, k: nat, w: nat)
    requires n < Power2(w)
    ensures forall x | x in PositionsFrom(n, k) :: x < k + w
    decreases n
  {
    if n > 0 {
      PositionsBound(n / 2, k + 1, w - 1);
    }
  }

  lemma {:induction false} LowestIsFirst(n: nat, k: nat)
    requires n > 0
    ensures PositionsFrom(n, k) != [] && PositionsFrom(n, k)[0] == k + Lowest(n)
    ensures Power2(Lowest(n)) <= n
    ensures PositionsFrom(n - Power2(Lowest(n)), k) == PositionsFrom(n, k)[1..]
    decreases n
  {
    if n % 2 == 0 {
      LowestIsFirst(n / 2, k + 1);
      var m := n / 2 - Power2(Lowest(n / 2));
      assert n - Power2(Lowest(n)) == 2 * m;
      assert PositionsFrom(2 * m, k) == PositionsFrom(m, k + 1);
    } else {
      assert PositionsFrom(n - 1, k) == PositionsFrom(n / 2, k + 1);
    }
  }

  /** Positions determine the number ... */
  lemma {:induction false} MaskOfPositions(n: nat)
    ensures Mask(Positions(n)) == n
    decreases n
  {
    if n > 0 {
      LowestIsFirst(n, 0);
      MaskOfPositions(n - Power2(Lowest(n)));
    }
  }

  lemma PowerPositive(k: nat)
    ensures Power2(k) > 0
  {
  }

  lemma {:induction false} PositionsOfPower(m: nat, p: nat, k: nat)
    requires forall x | x in PositionsFrom(m, k) :: x > k + p
    ensures PositionsFrom(Power2(p) + m, k) == [k + p] + PositionsFrom(m, k)
    decreases p
  {
    assert m % 2 == 1 ==> k in PositionsFrom(m, k);
    if p == 0 {
      assert (1 + m) / 2 == m / 2;
      assert m > 0 ==> PositionsFrom(m, k) == PositionsFrom(m / 2, k + 1);
    } else {
      assert Power2(p) + m == 2 * (Power2(p - 1) + m / 2);
      assert PositionsFrom(m, k) == PositionsFrom(m / 2, k + 1);
      PositionsOfPower(m / 2, p - 1, k + 1);
    }
  }

  /** ... and every ascending list is the positions of some number. */
  lemma {:induction false} PositionsOfMask(ps: seq<nat>)
    requires Ascending(ps)
    ensures Positions(Mask(ps)) == ps
  {
    if ps != [] {
      PositionsOfMask(ps[1..]);
      PositionsOfPower(Mask(ps[1..]), ps[0], 0);
    }
  }

  lemma {:induction false} MaskAppend(ps: seq<nat>, p: nat)
    ensures Mask(ps + [p]) == Mask(ps) + Power2(p)
  {
    if ps == [] {
      assert [p][1..] == [];
    } else {
      assert (ps + [p])[1..] == ps[1..] + [p];
      MaskAppend(ps[1..], p);
    }
  }

  lemma {:induction false} MaskBound(ps: seq<nat>, w: nat)
    requires Ascending(ps) && forall x | x in ps :: x < w
    ensures Mask(ps) < Power2(w)
    decreases w
  {
    if ps == [] {
      PowerPositive(w);
    } else {
      var k := |ps| - 1;
      assert ps[k] in ps;
      MaskBound(ps[..k], ps[k]);
      MaskAppend(ps[..k], ps[k]);
      assert ps[..k] + [ps[k]] == ps;
      PowerGrows(ps[k] + 1, w);
    }
  }

  lemma {:induction false} PowerGrows(a: nat, b: nat)
    requires a <= b
    ensures Power2(a) <= Power2(b)
    decreases b
  {
    if a < b {
      PowerGrows(a, b - 1);
    }
  }

  /** The bit vector of the source, as wide as a replica bit map. */
  class BitVector {
    var bv: nat

    constructor (bv: nat)
      ensures this.bv == bv
    {
      this.bv := bv;
    }

    /** Adds a position and no other. */
    method Add(loc: nat)
      requires loc < WIDTH
      modifies this
      ensures bv == old(bv) + if loc in old(Positions(bv)) then 0 else Power2(loc)
      ensures forall p: nat :: p in Positions(bv) <==> p == loc || p in old(Positions(bv))
    {
      ghost var was := bv;
      if !Contains(loc) {
        bv := bv + Power2(loc);
        forall p: nat
          ensures p in Positions(bv) <==> p == loc || p in Positions(was)
        {
          AddedBit(was, loc, p);
          PositionsAreBits(was, 0, p);
          PositionsAreBits(bv, 0, p);
        }
      }
    }

    /** Removes the lowest position and returns it. */
    method Pop() returns (loc: nat)
      requires bv > 0
      modifies this
      ensures [loc] + Positions(bv) == old(Positions(bv))
    {
      loc := Lowest(bv);
      LowestIsFirst(bv, 0);
      bv := bv - Power2(loc);
    }

    function Size(): (r: nat)
      reads this
      ensures r == |Positions(bv)|
    {
      PopCountCounts(bv, 0);
      PopCount(bv)
    }

    predicate Contains(loc: nat)
      reads this
      ensures Contains(loc) <==> loc in Positions(bv)
    {
      PositionsAreBits(bv, 0, loc);
      Bit(bv, loc)
    }
  }

  lemma {:induction false} AddedBit(n: nat, p: nat, q: nat)
    requires !Bit(n, p)
    ensures Bit(n + Power2(p), q) <==> q == p || Bit(n, q)
    decreases p
  {
    if p > 0 {
      assert (n + Power2(p)) / 2 == n / 2 + Power2(p - 1);
      if q > 0 {
        AddedBit(n / 2, p - 1, q - 1);
      }
    } else if q > 0 {
      assert (n + 1) / 2 == n / 2;
    }
  }
}
