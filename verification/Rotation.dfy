/** The in-place exchange of two adjacent blocks of arguments. */
module Rotation {
  import opened NumberTheory

  /** `gcd` of the C source: a common divisor that every common divisor divides. */
  method GcdLoop(x: nat, y: nat) returns (b: nat)
    requires y > 0
    ensures b == Gcd(x, y) && b > 0
    ensures Divides(b, x) && Divides(b, y)
    ensures forall d | Divides(d, x) && Divides(d, y) :: Divides(d, b)
  {
    GcdDivides(x, y);
    var a: nat := x;
    b := y;
    var c: nat := a % b;
    while c != 0
      invariant b > 0 && c == a % b
      invariant Gcd(a, b) == Gcd(x, y)
      decreases b
    {
      a := b;
      b := c;
      c := a % b;
    }
  }

  lemma GcdDivides(x: nat, y: nat)
    requires y > 0
    ensures Divides(Gcd(x, y), x) && Divides(Gcd(x, y), y)
    ensures forall d | Divides(d, x) && Divides(d, y) :: Divides(d, Gcd(x, y))
  {
    var _, _ := Bezout(x, y);
    forall d | Divides(d, x) && Divides(d, y)
      ensures Divides(d, Gcd(x, y))
    {
      GcdGreatest(x, y, d);
    }
  }

  /** Two adjacent blocks of lengths `a` and `b`, cut into `g` cycles of length
      `len`.  Positions are counted from the start of the first block. */
  datatype Shape = Shape(a: nat, b: nat, g: nat, len: nat) {
    ghost predicate Valid() {
      && b > 0 && g == Gcd(a, b) && g * len == a + b && len > 0
    }

    function N(): nat {
      a + b
    }

    /** The position reached after `k` steps from `c`. */
    function Pos(c: nat, k: nat): nat
      requires b > 0
    {
      (c + k * b) % N()
    }
  }

  lemma ShapeValid(a: nat, b: nat)
    requires b > 0
    ensures Shape(a, b, Gcd(a, b), (a + b) / Gcd(a, b)).Valid()
  {
    var g := Gcd(a, b);
    var k, l := Factors(a, b);
    SumFactor(a, b, k, l, g);
    ExactDivision(a + b, k + l, g);
  }

  lemma PosRange(s: Shape, c: nat, k: nat)
    requires s.Valid()
    ensures s.Pos(c, k) < s.N()
  {
  }

  lemma PosStart(s: Shape, c: nat)
    requires s.Valid() && c < s.N()
    ensures s.Pos(c, 0) == c
  {
  }

  /** One step of the loop: back by the first block or forward by the second. */
  lemma PosStep(s: Shape, c: nat, k: nat)
    requires s.Valid()
    ensures var p := s.Pos(c, k);
      s.Pos(c, k + 1) == if p >= s.a then p - s.a else p + s.b
  {
    var n, x := s.N(), c + k * s.b;
    var q, p := x / n, x % n;
    assert c + (k + 1) * s.b == x + s.b;
    assert x == q * n + p;
    if p >= s.a {
      assert x + s.b == (q + 1) * n + (p - s.a) by {
        assert (q + 1) * n == q * n + n;
      }
      DivModUnique(x + s.b, n, q + 1, p - s.a);
    } else {
      DivModUnique(x + s.b, n, q, p + s.b);
    }
  }

  /** What a step undoes: the position before `p` on its cycle. */
  function Source(s: Shape, p: nat): nat
    requires s.b > 0
  {
    (p + s.a) % s.N()
  }

  lemma SourceOfPos(s: Shape, c: nat, k: nat)
    requires s.Valid()
    ensures Source(s, s.Pos(c, k + 1)) == s.Pos(c, k)
  {
    var n, p := s.N(), s.Pos(c, k);
    PosStep(s, c, k);
    if p >= s.a {
      DivModUnique(p, n, 0, p);
    } else {
      DivModUnique(p + s.b + s.a, n, 1, p);
    }
  }

  /** Positions of one cycle agree modulo `g`. */
  lemma PosClass(s: Shape, c: nat, k: nat)
    requires s.Valid()
    ensures s.Pos(c, k) % s.g == c % s.g
  {
    var _, l := Factors(s.a, s.b);
    StepClass(c, k, s.b, s.N(), l, s.len, s.g);
  }

  /** A cycle does not meet itself before its full length. */
  lemma PosDistinct(s: Shape, c: nat, k: nat, l: nat)
    requires s.Valid() && k < l < k + s.len
    ensures s.Pos(c, k) != s.Pos(c, l)
  {
    if s.Pos(c, k) == s.Pos(c, l) {
      var n := s.N();
      var m := (c + l * s.b) / n - (c + k * s.b) / n;
      assert (l - k) * s.b == m * n;
      var x, y := Bezout(s.a, s.b);
      var z := WholeTurns(l - k, m, s.a, s.b, x, y, s.g, s.len);
      Between(l - k, z, s.len);
    }
  }

  lemma Between(k: int, z: int, d: int)
    requires k == z * d && d > 0
    ensures k <= 0 || k >= d
  {
    if z >= 1 {
      MulAtLeast(z, d);
    } else {
      MulNonNegative(-z, d);
    }
  }

  /** ... and closes there. */
  lemma PosCloses(s: Shape, c: nat)
    requires s.Valid() && c < s.N()
    ensures s.Pos(c, s.len) == c
  {
    var _, l := Factors(s.a, s.b);
    CycleCloses(c, s.len, s.b, l, s.N(), s.g);
  }

  /** Every position of the same class is on the cycle. */
  lemma PosCovers(s: Shape, c: nat, p: nat) returns (k: nat)
    requires s.Valid() && c < s.N() && p < s.N() && p % s.g == c % s.g
    ensures 1 <= k <= s.len && s.Pos(c, k) == p
  {
    var x, y := Bezout(s.a, s.b);
    var _, l := Factors(s.a, s.b);
    k := CycleReaches(c, p, s.a, s.b, x, y, l, s.len, s.g);
    if k == 0 {
      PosStart(s, c);
      k := s.len;
      PosCloses(s, c);
    }
  }

  // ---- the array ----

  /** Positions visited in the first `j` steps from `c`. */
  ghost predicate Visited(s: Shape, c: nat, j: nat, p: nat)
    requires s.Valid()
  {
    exists k: nat :: 1 <= k <= j && s.Pos(c, k) == p
  }

  /** What one cycle has done after `j` steps: visited positions hold what their
      source held, the start holds what will be put down next, everything else is
      untouched.  `was` and `now` are the two blocks before and during. */
  ghost predicate CycleAt<T>(s: Shape, c: nat, j: nat, was: seq<T>, now: seq<T>)
    requires s.Valid() && c < s.N() && j <= s.len
  {
    && |was| == |now| == s.N()
    && (forall k: nat | 1 <= k <= j && k < s.len :: now[s.Pos(c, k)] == was[s.Pos(c, k - 1)])
    && now[c] == was[s.Pos(c, if j < s.len then j else s.len - 1)]
    && (forall p | 0 <= p < s.N() && p != c && !Visited(s, c, j, p) :: now[p] == was[p])
  }

  lemma CycleStep<T>(s: Shape, c: nat, j: nat, p: nat, was: seq<T>, now: seq<T>, next: seq<T>)
    requires s.Valid() && c < s.N() && j < s.len && CycleAt(s, c, j, was, now)
    requires p == s.Pos(c, j + 1) && next == now[p := now[c]][c := now[p]]
    ensures CycleAt(s, c, j + 1, was, next)
  {
    PosStart(s, c);
    if j + 1 < s.len {
      PosDistinct(s, c, 0, j + 1);
      forall k: nat | 1 <= k <= j
        ensures s.Pos(c, k) != p && s.Pos(c, k) != c
      {
        PosDistinct(s, c, k, j + 1);
        PosDistinct(s, c, 0, k);
      }
    } else {
      PosCloses(s, c);
      assert next == now;
    }
    forall q | 0 <= q < s.N() && q != c && !Visited(s, c, j + 1, q)
      ensures next[q] == was[q]
    {
      assert q != p;
      assert !Visited(s, c, j, q);
    }
  }

  lemma CycleDone<T>(s: Shape, c: nat, was: seq<T>, now: seq<T>)
    requires s.Valid() && c < s.N() && CycleAt(s, c, s.len, was, now)
    ensures forall p | 0 <= p < s.N() :: now[p] == was[if p % s.g == c % s.g then Source(s, p) else p]
  {
    forall p | 0 <= p < s.N()
      ensures now[p] == was[if p % s.g == c % s.g then Source(s, p) else p]
    {
      if p % s.g == c % s.g {
        var k := PosCovers(s, c, p);
        SourceOfPos(s, c, k - 1);
        if k == s.len {
          PosCloses(s, c);
        }
      } else if Visited(s, c, s.len, p) {
        var k: nat :| 1 <= k <= s.len && s.Pos(c, k) == p;
        PosClass(s, c, k);
        assert false;
      }
    }
  }

  /** Residues below `i` have been moved, the others not yet. */
  ghost predicate RotatedBelow<T>(s: Shape, i: nat, was: seq<T>, now: seq<T>)
    requires s.Valid()
  {
    && |was| == |now| == s.N()
    && forall p | 0 <= p < s.N() :: now[p] == was[if p % s.g < i then Source(s, p) else p]
  }

  /** `permute_args`: the block from `start` to `mid` changes places with the block
      from `mid` to `end`, each keeping its order, and nothing else moves.  The
      second block must not be empty, or `gcd` divides by zero. */
  method PermuteArgs<T>(start: nat, mid: nat, end: nat, nargv: array<T>)
    requires start <= mid < end <= nargv.Length
    modifies nargv
    ensures nargv[start..end] == old(nargv[mid..end]) + old(nargv[start..mid])
    ensures nargv[..start] == old(nargv[..start]) && nargv[end..] == old(nargv[end..])
  {
    var nnonopts := mid - start;
    var nopts := end - mid;
    var ncycle := GcdLoop(nnonopts, nopts);
    var cyclelen := (end - start) / ncycle;
    ghost var was := nargv[start..end];
    ShapeValid(nnonopts, nopts);
    RotateCycles(start, mid, end, nargv, ncycle, cyclelen, Shape(nnonopts, nopts, ncycle, cyclelen));
    assert was[nnonopts..] == old(nargv[mid..end]) && was[..nnonopts] == old(nargv[start..mid]);
  }

  /** The two nested loops. */
  method RotateCycles<T>(start: nat, mid: nat, end: nat, nargv: array<T>, ncycle: nat, cyclelen: nat, ghost s: Shape)
    requires start <= mid < end <= nargv.Length
    requires s.Valid() && s.a == mid - start && s.b == end - mid && s.g == ncycle && s.len == cyclelen
    modifies nargv
    ensures nargv[start..end] == old(nargv[start..end])[s.a..] + old(nargv[start..end])[..s.a]
    ensures nargv[..start] == old(nargv[..start]) && nargv[end..] == old(nargv[end..])
  {
    ghost var was := nargv[start..end];
    for i := 0 to ncycle
      invariant RotatedBelow(s, i, was, nargv[start..end])
      invariant nargv[..start] == old(nargv[..start]) && nargv[end..] == old(nargv[end..])
    {
      StartClass(s, i);
      RotateClass(start, mid, end, nargv, i, cyclelen, s, was);
    }
    RotatedAll(s, was, nargv[start..end]);
  }

  /** One cycle moves one residue class. */
  method RotateClass<T>(start: nat, mid: nat, end: nat, nargv: array<T>, i: nat, cyclelen: nat, ghost s: Shape,
                        ghost was: seq<T>)
    requires start <= mid < end <= nargv.Length
    requires s.Valid() && s.a == mid - start && s.b == end - mid && s.len == cyclelen
    requires i < s.g && s.a + i < s.N() && (s.a + i) % s.g == i
    requires RotatedBelow(s, i, was, nargv[start..end])
    modifies nargv
    ensures RotatedBelow(s, i + 1, was, nargv[start..end])
    ensures nargv[..start] == old(nargv[..start]) && nargv[end..] == old(nargv[end..])
  {
    ghost var before := nargv[start..end];
    RotateCycle(start, mid, end, nargv, mid + i, cyclelen, s);
    RotatedNext(s, i, was, before, nargv[start..end]);
  }

  /** The inner loop. */
  method RotateCycle<T>(start: nat, mid: nat, end: nat, nargv: array<T>, cstart: nat, cyclelen: nat, ghost s: Shape)
    requires start <= mid < end <= nargv.Length && start <= cstart < end
    requires s.Valid() && s.a == mid - start && s.b == end - mid && s.len == cyclelen
    modifies nargv
    ensures CycleAt(s, cstart - start, s.len, old(nargv[start..end]), nargv[start..end])
    ensures nargv[..start] == old(nargv[..start]) && nargv[end..] == old(nargv[end..])
  {
    var pos := cstart;
    ghost var before := nargv[start..end];
    PosStart(s, cstart - start);
    CycleStart(s, cstart - start, before);
    for j := 0 to cyclelen
      invariant pos == start + s.Pos(cstart - start, j)
      invariant CycleAt(s, cstart - start, j, before, nargv[start..end])
      invariant nargv[..start] == old(nargv[..start]) && nargv[end..] == old(nargv[end..])
    {
      pos := StepAndExchange(start, mid, end, nargv, cstart, pos, s, j, before);
    }
  }

  /** The body of the inner loop. */
  method StepAndExchange<T>(start: nat, mid: nat, end: nat, nargv: array<T>, cstart: nat, pos: nat,
                            ghost s: Shape, ghost j: nat, ghost was: seq<T>) returns (pos': nat)
    requires start <= mid < end <= nargv.Length && start <= cstart < end
    requires s.Valid() && s.a == mid - start && s.b == end - mid && j < s.len
    requires pos == start + s.Pos(cstart - start, j)
    requires CycleAt(s, cstart - start, j, was, nargv[start..end])
    modifies nargv
    ensures pos' == start + s.Pos(cstart - start, j + 1)
    ensures CycleAt(s, cstart - start, j + 1, was, nargv[start..end])
    ensures nargv[..start] == old(nargv[..start]) && nargv[end..] == old(nargv[end..])
  {
    pos' := Step(start, mid, end, cstart, pos, s, j);
    ghost var now := nargv[start..end];
    Exchange(start, end, nargv, pos', cstart);
    CycleStep(s, cstart - start, j, pos' - start, was, now, nargv[start..end]);
  }

  /** Where the next argument goes: back by the first block or forward by the second. */
  method Step(start: nat, mid: nat, end: nat, cstart: nat, pos: nat, ghost s: Shape, ghost j: nat) returns (pos': nat)
    requires start <= mid < end && start <= cstart < end
    requires s.Valid() && s.a == mid - start && s.b == end - mid
    requires pos == start + s.Pos(cstart - start, j)
    ensures start <= pos' < end && pos' == start + s.Pos(cstart - start, j + 1)
  {
    PosStep(s, cstart - start, j);
    if pos >= mid {
      pos' := pos - (mid - start);
    } else {
      pos' := pos + (end - mid);
    }
    PosRange(s, cstart - start, j + 1);
  }

  method Exchange<T>(start: nat, end: nat, nargv: array<T>, pos: nat, cstart: nat)
    requires start <= pos < end && start <= cstart < end && end <= nargv.Length
    modifies nargv
    ensures var now := old(nargv[start..end]);
      nargv[start..end] == now[pos - start := now[cstart - start]][cstart - start := now[pos - start]]
    ensures nargv[..start] == old(nargv[..start]) && nargv[end..] == old(nargv[end..])
  {
    var swap := nargv[pos];
    nargv[pos] := nargv[cstart];
    nargv[cstart] := swap;
  }

  lemma CycleStart<T>(s: Shape, c: nat, was: seq<T>)
    requires s.Valid() && c < s.N() && |was| == s.N()
    ensures CycleAt(s, c, 0, was, was)
  {
    PosStart(s, c);
  }

  lemma StartClass(s: Shape, i: nat)
    requires s.Valid() && i < s.g
    ensures s.a + i < s.N() && (s.a + i) % s.g == i
  {
    var k, l := Factors(s.a, s.b);
    ExactDivision(s.b, l, s.g);
    MulAtLeast(l, s.g);
    DivModUnique(s.a + i, s.g, k, i);
  }

  lemma RotatedNext<T>(s: Shape, i: nat, was: seq<T>, before: seq<T>, now: seq<T>)
    requires s.Valid() && i < s.g && s.a + i < s.N() && (s.a + i) % s.g == i
    requires RotatedBelow(s, i, was, before) && CycleAt(s, s.a + i, s.len, before, now)
    ensures RotatedBelow(s, i + 1, was, now)
  {
    CycleDone(s, s.a + i, before, now);
    forall p | 0 <= p < s.N()
      ensures now[p] == was[if p % s.g < i + 1 then Source(s, p) else p]
    {
      if p % s.g == i {
        SourceClass(s, p);
      }
    }
  }

  lemma SourceClass(s: Shape, p: nat)
    requires s.Valid() && p < s.N()
    ensures Source(s, p) % s.g == p % s.g
  {
    var k, _ := Factors(s.a, s.b);
    StepClass(p, 1, s.a, s.N(), k, s.len, s.g);
  }

  lemma RotatedAll<T>(s: Shape, was: seq<T>, now: seq<T>)
    requires s.Valid() && RotatedBelow(s, s.g, was, now)
    ensures now == was[s.a..] + was[..s.a]
  {
    forall p | 0 <= p < s.N()
      ensures now[p] == (was[s.a..] + was[..s.a])[p]
    {
      if p < s.b {
        DivModUnique(p + s.a, s.N(), 0, p + s.a);
      } else {
        DivModUnique(p + s.a, s.N(), 1, p - s.b);
      }
    }
  }
}
