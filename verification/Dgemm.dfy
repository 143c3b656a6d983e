/** The cache-blocked matrix product of src/engines/cpu/linpack.cpp, with uninterpreted arithmetic. */
module Dgemm {
  import opened Arithmetic

  /** The operations on matrix elements. Nothing is assumed about them: no associativity, no rounding model. */
  datatype Arith<!T> = Arith(
    zero: T,
    isZero: T -> bool,
    isOne: T -> bool,
    add: (T, T) -> T,
    mul: (T, T) -> T)

  /** C = alpha * A * B on top of a start matrix, all n x n and stored by rows. */
  datatype Problem<!T> = Problem(n: nat, ops: Arith<T>, alpha: T, a: seq<T>, b: seq<T>, start: seq<T>)

  ghost predicate WellFormed<T>(p: Problem<T>) {
    |p.a| == p.n * p.n && |p.b| == p.n * p.n && |p.start| == p.n * p.n
  }

  function Index(n: nat, i: nat, j: nat): (k: nat)
    requires i < n && j < n
    ensures k < n * n
  {
    IndexInRange(n, i, j);
    i * n + j
  }

  lemma IndexInRange(n: nat, i: nat, j: nat)
    requires i < n && j < n
    ensures 0 <= i * n + j < n * n
  {
    RowsBelow(n, i, n);
    MulMono(n, 0, i);
  }

  lemma IndexInjective(n: nat, i: nat, j: nat, k: nat, l: nat)
    requires i < n && j < n && k < n && l < n && Index(n, i, j) == Index(n, k, l)
    ensures i == k && j == l
  {
    PlaceUnique(n, i, j, k, l);
  }

  /** The plain product, element by element: the left fold over the first m values of k, in ascending order. */
  function Cell<T>(p: Problem<T>, i: nat, j: nat, m: nat): T
    requires WellFormed(p) && i < p.n && j < p.n && m <= p.n
  {
    if m == 0 then p.start[Index(p.n, i, j)]
    else p.ops.add(Cell(p, i, j, m - 1),
                   p.ops.mul(p.ops.mul(p.alpha, p.a[Index(p.n, i, m - 1)]), p.b[Index(p.n, m - 1, j)]))
  }

  function At<T>(n: nat, c: seq<T>, i: nat, j: nat): T
    requires |c| == n * n && i < n && j < n
  {
    c[Index(n, i, j)]
  }

  /** The elements of rows i0 .. i1 - 1 and columns j0 .. j1 - 1 have taken in the first m values of k. */
  ghost predicate Region<T>(p: Problem<T>, c: seq<T>, i0: nat, i1: nat, j0: nat, j1: nat, m: nat)
    requires WellFormed(p) && |c| == p.n * p.n && i1 <= p.n && j1 <= p.n && m <= p.n
  {
    forall i: nat, j: nat :: i0 <= i < i1 && j0 <= j < j1 ==> At(p.n, c, i, j) == Cell(p, i, j, m)
  }

  /** Elements outside that block are the same in c and d. */
  ghost predicate Outside<T>(n: nat, c: seq<T>, d: seq<T>, i0: nat, i1: nat, j0: nat, j1: nat)
    requires |c| == |d| == n * n
  {
    forall i: nat, j: nat :: i < n && j < n && !(i0 <= i < i1 && j0 <= j < j1) ==> At(n, c, i, j) == At(n, d, i, j)
  }

  lemma OutsideTrans<T>(n: nat, c: seq<T>, d: seq<T>, e: seq<T>, i0: nat, i1: nat, j0: nat, j1: nat)
    requires |c| == |d| == |e| == n * n
    requires Outside(n, c, d, i0, i1, j0, j1) && Outside(n, d, e, i0, i1, j0, j1)
    ensures Outside(n, c, e, i0, i1, j0, j1)
  {
  }

  lemma OutsideWiden<T>(n: nat, c: seq<T>, d: seq<T>, i0: nat, i1: nat, j0: nat, j1: nat,
      k0: nat, k1: nat, l0: nat, l1: nat)
    requires |c| == |d| == n * n && Outside(n, c, d, i0, i1, j0, j1)
    requires k0 <= i0 && i1 <= k1 && l0 <= j0 && j1 <= l1
    ensures Outside(n, c, d, k0, k1, l0, l1)
  {
  }

  /** A region disjoint from the changed block keeps its state. */
  lemma RegionKept<T>(p: Problem<T>, c: seq<T>, d: seq<T>, i0: nat, i1: nat, j0: nat, j1: nat, m: nat,
      k0: nat, k1: nat, l0: nat, l1: nat)
    requires WellFormed(p) && |c| == |d| == p.n * p.n && i1 <= p.n && j1 <= p.n && m <= p.n
    requires Region(p, c, i0, i1, j0, j1, m) && Outside(p.n, c, d, k0, k1, l0, l1)
    requires i1 <= k0 || k1 <= i0 || j1 <= l0 || l1 <= j0
    ensures Region(p, d, i0, i1, j0, j1, m)
  {
    hide Cell;
    forall i: nat, j: nat | i0 <= i < i1 && j0 <= j < j1 ensures At(p.n, d, i, j) == Cell(p, i, j, m) {
      assert At(p.n, c, i, j) == At(p.n, d, i, j);
    }
  }

  /** Storing one element leaves the others. */
  lemma StoreOne<T>(n: nat, c: seq<T>, i: nat, j: nat, v: T)
    requires |c| == n * n && i < n && j < n
    ensures var d := c[Index(n, i, j) := v];
      At(n, d, i, j) == v && Outside(n, c, d, i, i + 1, j, j + 1)
  {
    hide Index;
    var d := c[Index(n, i, j) := v];
    forall k: nat, l: nat | k < n && l < n && !(i <= k < i + 1 && j <= l < j + 1)
      ensures At(n, c, k, l) == At(n, d, k, l)
    {
      if Index(n, k, l) == Index(n, i, j) { IndexInjective(n, k, l, i, j); }
    }
  }

  // ---- the six loops -------------------------------------------------------

  const TILE := 64

  /** The innermost loop: columns jj .. jEnd - 1 of row i take in the k-th term. */
  method InnerLoop<T>(p: Problem<T>, c: array<T>, i: nat, k: nat, jj: nat, jEnd: nat)
    requires WellFormed(p) && c.Length == p.n * p.n && i < p.n && k < p.n && jj <= jEnd <= p.n
    requires Region(p, c[..], i, i + 1, jj, jEnd, k)
    modifies c
    ensures Region(p, c[..], i, i + 1, jj, jEnd, k + 1)
    ensures Outside(p.n, old(c[..]), c[..], i, i + 1, jj, jEnd)
  {
    var n := p.n;
    var aik := p.ops.mul(p.alpha, p.a[Index(n, i, k)]);
    ghost var c0 := c[..];
    var j := jj;
    while j < jEnd
      invariant jj <= j <= jEnd
      invariant Region(p, c[..], i, i + 1, jj, j, k + 1)
      invariant Region(p, c[..], i, i + 1, j, jEnd, k)
      invariant Outside(n, c0, c[..], i, i + 1, jj, jEnd)
    {
      ghost var before := c[..];
      var at := Index(n, i, j);
      var v := p.ops.add(c[at], p.ops.mul(aik, p.b[Index(n, k, j)]));
      InnerStep(p, c0, before, i, k, jj, j, jEnd, v);
      c[at] := v;
      assert c[..] == before[at := v];
      j := j + 1;
    }
  }

  lemma InnerStep<T>(p: Problem<T>, c0: seq<T>, c: seq<T>, i: nat, k: nat, jj: nat, j: nat, jEnd: nat, v: T)
    requires WellFormed(p) && |c0| == |c| == p.n * p.n && i < p.n && k < p.n && jj <= j < jEnd <= p.n
    requires Region(p, c, i, i + 1, jj, j, k + 1) && Region(p, c, i, i + 1, j, jEnd, k)
    requires Outside(p.n, c0, c, i, i + 1, jj, jEnd)
    requires v == p.ops.add(At(p.n, c, i, j),
                            p.ops.mul(p.ops.mul(p.alpha, p.a[Index(p.n, i, k)]), p.b[Index(p.n, k, j)]))
    ensures var d := c[Index(p.n, i, j) := v];
      Region(p, d, i, i + 1, jj, j + 1, k + 1) && Region(p, d, i, i + 1, j + 1, jEnd, k)
      && Outside(p.n, c0, d, i, i + 1, jj, jEnd)
  {
    hide Index;
    var n, d := p.n, c[Index(p.n, i, j) := v];
    assert v == Cell(p, i, j, k + 1) by { assert At(n, c, i, j) == Cell(p, i, j, k); }
    hide Cell, At;
    StoreOne(n, c, i, j, v);
    RegionKept(p, c, d, i, i + 1, jj, j, k + 1, i, i + 1, j, j + 1);
    assert Region(p, c, i, i + 1, j + 1, jEnd, k);
    RegionKept(p, c, d, i, i + 1, j + 1, jEnd, k, i, i + 1, j, j + 1);
    OutsideWiden(n, c, d, i, i + 1, j, j + 1, i, i + 1, jj, jEnd);
    OutsideTrans(n, c0, c, d, i, i + 1, jj, jEnd);
  }

  /** The k loop of one row of a tile. */
  method RowLoop<T>(p: Problem<T>, c: array<T>, i: nat, kk: nat, kEnd: nat, jj: nat, jEnd: nat)
    requires WellFormed(p) && c.Length == p.n * p.n && i < p.n && kk <= kEnd <= p.n && jj <= jEnd <= p.n
    requires Region(p, c[..], i, i + 1, jj, jEnd, kk)
    modifies c
    ensures Region(p, c[..], i, i + 1, jj, jEnd, kEnd)
    ensures Outside(p.n, old(c[..]), c[..], i, i + 1, jj, jEnd)
  {
    hide Cell, At, Index, Region, Outside;
    ghost var c0 := c[..];
    OutsideRefl(p.n, c0, i, i + 1, jj, jEnd);
    var k := kk;
    while k < kEnd
      invariant kk <= k <= kEnd
      invariant Region(p, c[..], i, i + 1, jj, jEnd, k)
      invariant Outside(p.n, c0, c[..], i, i + 1, jj, jEnd)
    {
      ghost var before := c[..];
      InnerLoop(p, c, i, k, jj, jEnd);
      OutsideTrans(p.n, c0, before, c[..], i, i + 1, jj, jEnd);
      k := k + 1;
    }
  }

  lemma OutsideRefl<T>(n: nat, c: seq<T>, i0: nat, i1: nat, j0: nat, j1: nat)
    requires |c| == n * n
    ensures Outside(n, c, c, i0, i1, j0, j1)
  {
  }

  lemma RegionSub<T>(p: Problem<T>, c: seq<T>, i0: nat, i1: nat, j0: nat, j1: nat, m: nat,
      k0: nat, k1: nat, l0: nat, l1: nat)
    requires WellFormed(p) && |c| == p.n * p.n && i1 <= p.n && j1 <= p.n && m <= p.n
    requires Region(p, c, i0, i1, j0, j1, m) && i0 <= k0 && k1 <= i1 && j0 <= l0 && l1 <= j1
    ensures Region(p, c, k0, k1, l0, l1, m)
  {
    hide Cell, At;
  }

  lemma RegionEmpty<T>(p: Problem<T>, c: seq<T>, i0: nat, i1: nat, j0: nat, j1: nat, m: nat)
    requires WellFormed(p) && |c| == p.n * p.n && i1 <= p.n && j1 <= p.n && m <= p.n
    requires i1 <= i0 || j1 <= j0
    ensures Region(p, c, i0, i1, j0, j1, m)
  {
  }

  /** Two regions that meet along a row or column boundary are one. */
  lemma RegionJoin<T>(p: Problem<T>, c: seq<T>, i0: nat, im: nat, i1: nat, j0: nat, jm: nat, j1: nat, m: nat)
    requires WellFormed(p) && |c| == p.n * p.n && im <= p.n && i1 <= p.n && jm <= p.n && j1 <= p.n && m <= p.n
    ensures Region(p, c, i0, im, j0, j1, m) && Region(p, c, im, i1, j0, j1, m) ==> Region(p, c, i0, i1, j0, j1, m)
    ensures Region(p, c, i0, i1, j0, jm, m) && Region(p, c, i0, i1, jm, j1, m) ==> Region(p, c, i0, i1, j0, j1, m)
  {
    hide Cell, At;
  }

  /** The three inner loops: one tile. */
  method TileLoops<T>(p: Problem<T>, c: array<T>, ii: nat, iEnd: nat, kk: nat, kEnd: nat, jj: nat, jEnd: nat)
    requires WellFormed(p) && c.Length == p.n * p.n && ii <= iEnd <= p.n && kk <= kEnd <= p.n && jj <= jEnd <= p.n
    requires Region(p, c[..], ii, iEnd, jj, jEnd, kk)
    modifies c
    ensures Region(p, c[..], ii, iEnd, jj, jEnd, kEnd)
    ensures Outside(p.n, old(c[..]), c[..], ii, iEnd, jj, jEnd)
  {
    hide Cell, At, Index, Region, Outside;
    var n := p.n;
    ghost var c0 := c[..];
    OutsideRefl(n, c0, ii, iEnd, jj, jEnd);
    RegionEmpty(p, c0, ii, ii, jj, jEnd, kEnd);
    var i := ii;
    while i < iEnd
      invariant ii <= i <= iEnd
      invariant Region(p, c[..], ii, i, jj, jEnd, kEnd) && Region(p, c[..], i, iEnd, jj, jEnd, kk)
      invariant Outside(n, c0, c[..], ii, iEnd, jj, jEnd)
    {
      ghost var before := c[..];
      RegionSub(p, before, i, iEnd, jj, jEnd, kk, i, i + 1, jj, jEnd);
      RowLoop(p, c, i, kk, kEnd, jj, jEnd);
      RegionKept(p, before, c[..], ii, i, jj, jEnd, kEnd, i, i + 1, jj, jEnd);
      RegionJoin(p, c[..], ii, i, i + 1, jj, jj, jEnd, kEnd);
      RegionSub(p, before, i, iEnd, jj, jEnd, kk, i + 1, iEnd, jj, jEnd);
      RegionKept(p, before, c[..], i + 1, iEnd, jj, jEnd, kk, i, i + 1, jj, jEnd);
      OutsideWiden(n, before, c[..], i, i + 1, jj, jEnd, ii, iEnd, jj, jEnd);
      OutsideTrans(n, c0, before, c[..], ii, iEnd, jj, jEnd);
      i := i + 1;
    }
  }

  function TileEnd(t: nat, n: nat): (e: nat)
    requires t < n
    ensures t < e <= n
  {
    if t + TILE < n then t + TILE else n
  }

  /** The jj loop: a band of rows takes in the terms kk .. kEnd - 1. */
  method BandLoop<T>(p: Problem<T>, c: array<T>, ii: nat, iEnd: nat, kk: nat, kEnd: nat)
    requires WellFormed(p) && c.Length == p.n * p.n && ii <= iEnd <= p.n && kk <= kEnd <= p.n
    requires Region(p, c[..], ii, iEnd, 0, p.n, kk)
    modifies c
    ensures Region(p, c[..], ii, iEnd, 0, p.n, kEnd)
    ensures Outside(p.n, old(c[..]), c[..], ii, iEnd, 0, p.n)
  {
    hide Cell, At, Index, Region, Outside;
    var n := p.n;
    ghost var c0 := c[..];
    OutsideRefl(n, c0, ii, iEnd, 0, n);
    RegionEmpty(p, c0, ii, iEnd, 0, 0, kEnd);
    var jj := 0;
    while jj < n
      invariant 0 <= jj <= n
      invariant Region(p, c[..], ii, iEnd, 0, jj, kEnd) && Region(p, c[..], ii, iEnd, jj, n, kk)
      invariant Outside(n, c0, c[..], ii, iEnd, 0, n)
    {
      var jEnd := TileEnd(jj, n);
      ghost var before := c[..];
      RegionSub(p, before, ii, iEnd, jj, n, kk, ii, iEnd, jj, jEnd);
      TileLoops(p, c, ii, iEnd, kk, kEnd, jj, jEnd);
      RegionKept(p, before, c[..], ii, iEnd, 0, jj, kEnd, ii, iEnd, jj, jEnd);
      RegionJoin(p, c[..], ii, ii, iEnd, 0, jj, jEnd, kEnd);
      RegionSub(p, before, ii, iEnd, jj, n, kk, ii, iEnd, jEnd, n);
      RegionKept(p, before, c[..], ii, iEnd, jEnd, n, kk, ii, iEnd, jj, jEnd);
      OutsideWiden(n, before, c[..], ii, iEnd, jj, jEnd, ii, iEnd, 0, n);
      OutsideTrans(n, c0, before, c[..], ii, iEnd, 0, n);
      jj := jEnd;
    }
  }

  /** The kk loop: a band of rows takes in all terms. */
  method BandAllTerms<T>(p: Problem<T>, c: array<T>, ii: nat, iEnd: nat)
    requires WellFormed(p) && c.Length == p.n * p.n && ii <= iEnd <= p.n
    requires Region(p, c[..], ii, iEnd, 0, p.n, 0)
    modifies c
    ensures Region(p, c[..], ii, iEnd, 0, p.n, p.n)
    ensures Outside(p.n, old(c[..]), c[..], ii, iEnd, 0, p.n)
  {
    hide Cell, At, Index, Region, Outside;
    var n := p.n;
    ghost var c0 := c[..];
    OutsideRefl(n, c0, ii, iEnd, 0, n);
    var kk := 0;
    while kk < n
      invariant 0 <= kk <= n
      invariant Region(p, c[..], ii, iEnd, 0, n, kk)
      invariant Outside(n, c0, c[..], ii, iEnd, 0, n)
    {
      var kEnd := TileEnd(kk, n);
      ghost var before := c[..];
      BandLoop(p, c, ii, iEnd, kk, kEnd);
      OutsideTrans(n, c0, before, c[..], ii, iEnd, 0, n);
      kk := kEnd;
    }
  }

  /** The six loops together. */
  method Accumulate<T>(p: Problem<T>, c: array<T>)
    requires WellFormed(p) && c.Length == p.n * p.n && c[..] == p.start
    modifies c
    ensures Region(p, c[..], 0, p.n, 0, p.n, p.n)
  {
    var n := p.n;
    assert Region(p, c[..], 0, n, 0, n, 0);
    hide Cell, At, Index, Region, Outside;
    RegionEmpty(p, c[..], 0, 0, 0, n, n);
    var ii := 0;
    while ii < n
      invariant 0 <= ii <= n
      invariant Region(p, c[..], 0, ii, 0, n, n) && Region(p, c[..], ii, n, 0, n, 0)
    {
      var iEnd := TileEnd(ii, n);
      ghost var before := c[..];
      RegionSub(p, before, ii, n, 0, n, 0, ii, iEnd, 0, n);
      BandAllTerms(p, c, ii, iEnd);
      RegionKept(p, before, c[..], 0, ii, 0, n, n, ii, iEnd, 0, n);
      RegionJoin(p, c[..], 0, ii, iEnd, 0, 0, n, n);
      RegionSub(p, before, ii, n, 0, n, 0, iEnd, n, 0, n);
      RegionKept(p, before, c[..], iEnd, n, 0, n, 0, ii, iEnd, 0, n);
      ii := iEnd;
    }
  }

  /** C after the scaling by beta. */
  ghost function Scaled<T>(ops: Arith<T>, beta: T, c: seq<T>): (s: seq<T>)
    ensures |s| == |c|
  {
    if ops.isZero(beta) then seq(|c|, _ => ops.zero)
    else if !ops.isOne(beta) then seq(|c|, i requires 0 <= i < |c| => ops.mul(c[i], beta))
    else c
  }

  /** With beta zero the old contents play no part, whatever the arithmetic (an old NaN does not survive); with beta one
      they stay. */
  lemma ScaledForgets<T>(ops: Arith<T>, beta: T, c: seq<T>, d: seq<T>)
    requires |c| == |d|
    ensures ops.isZero(beta) ==> Scaled(ops, beta, c) == Scaled(ops, beta, d)
    ensures ops.isOne(beta) && !ops.isZero(beta) ==> Scaled(ops, beta, c) == c
  {
  }

  method ScaleByBeta<T>(ops: Arith<T>, beta: T, c: array<T>)
    modifies c
    ensures c[..] == Scaled(ops, beta, old(c[..]))
  {
    ghost var c0 := c[..];
    if ops.isZero(beta) || !ops.isOne(beta) {
      var zero := ops.isZero(beta);
      var i := 0;
      while i < c.Length
        invariant 0 <= i <= c.Length
        invariant forall k :: 0 <= k < i ==> c[k] == if zero then ops.zero else ops.mul(c0[k], beta)
        invariant forall k :: i <= k < c.Length ==> c[k] == c0[k]
      {
        c[i] := if zero then ops.zero else ops.mul(c[i], beta);
        i := i + 1;
      }
    }
  }

  /** naive_dgemm: every element ends as the plain left fold over k from the beta-scaled start. */
  method TiledDgemm<T>(n: nat, ops: Arith<T>, alpha: T, a: seq<T>, b: seq<T>, beta: T, c: array<T>)
    requires |a| == |b| == c.Length == n * n
    modifies c
    ensures var p := Problem(n, ops, alpha, a, b, Scaled(ops, beta, old(c[..])));
      forall i: nat, j: nat :: i < n && j < n ==> At(n, c[..], i, j) == Cell(p, i, j, n)
  {
    hide Cell, At, Index, Scaled;
    ScaleByBeta(ops, beta, c);
    var p := Problem(n, ops, alpha, a, b, c[..]);
    Accumulate(p, c);
  }

  // ---- over the reals the fold is the matrix product -----------------------

  function RealMul(x: real, y: real): real { x * y }

  const REALS: Arith<real> := Arith(0.0, x => x == 0.0, x => x == 1.0, (x, y) => x + y, (x, y) => RealMul(x, y))

  /** Row i of a times column j of b, over the first m terms. */
  function Dot(n: nat, a: seq<real>, b: seq<real>, i: nat, j: nat, m: nat): real
    requires |a| == |b| == n * n && i < n && j < n && m <= n
  {
    if m == 0 then 0.0 else Dot(n, a, b, i, j, m - 1) + RealMul(a[Index(n, i, m - 1)], b[Index(n, m - 1, j)])
  }

  /** Over the reals the fold is the start value plus alpha times the scalar product. */
  lemma {:induction false} FoldIsProduct(p: Problem<real>, i: nat, j: nat, m: nat)
    requires WellFormed(p) && p.ops == REALS && i < p.n && j < p.n && m <= p.n
    ensures Cell(p, i, j, m) == RealMul(p.alpha, Dot(p.n, p.a, p.b, i, j, m)) + p.start[Index(p.n, i, j)]
  {
    hide Index, RealMul;
    if m > 0 {
      FoldIsProduct(p, i, j, m - 1);
      var x, y := p.a[Index(p.n, i, m - 1)], p.b[Index(p.n, m - 1, j)];
      RealStep(p.alpha, Dot(p.n, p.a, p.b, i, j, m - 1), x, y);
    } else {
      RealZero(p.alpha);
    }
  }

  lemma RealStep(alpha: real, d: real, x: real, y: real)
    ensures RealMul(alpha, d + RealMul(x, y)) == RealMul(alpha, d) + RealMul(RealMul(alpha, x), y)
  {
  }

  lemma RealZero(alpha: real)
    ensures RealMul(alpha, 0.0) == 0.0
  {
  }

  /** Over the reals the three cases of beta are one: the start value is beta times the old one. */
  lemma ScaledIsProduct(beta: real, c: seq<real>, k: nat)
    requires k < |c|
    ensures Scaled(REALS, beta, c)[k] == RealMul(beta, c[k])
  {
    RealUnits(c[k]);
    RealCommutes(beta, c[k]);
    hide RealMul;
  }

  lemma RealUnits(x: real)
    ensures RealMul(0.0, x) == 0.0 && RealMul(1.0, x) == x
  {
  }

  lemma RealCommutes(x: real, y: real)
    ensures RealMul(x, y) == RealMul(y, x)
  {
  }

  /** Over the reals the result is alpha A B + beta C, for every alpha and beta. */
  lemma GemmOverReals(n: nat, alpha: real, a: seq<real>, b: seq<real>, beta: real, c: seq<real>, i: nat, j: nat)
    requires |a| == |b| == |c| == n * n && i < n && j < n
    ensures var p := Problem(n, REALS, alpha, a, b, Scaled(REALS, beta, c));
      Cell(p, i, j, n) == RealMul(alpha, Dot(n, a, b, i, j, n)) + RealMul(beta, c[Index(n, i, j)])
  {
    hide RealMul, Cell, Dot, Scaled, Index;
    FoldIsProduct(Problem(n, REALS, alpha, a, b, Scaled(REALS, beta, c)), i, j, n);
    ScaledIsProduct(beta, c, Index(n, i, j));
  }

  /** For example, by rows: 2 (1 2; 3 4) (5 6; 7 8) + 10 (1 1; 1 1) is (48 54; 96 110). */
  method TwoByTwo() returns (c: array<real>)
    ensures fresh(c) && c[..] == [48.0, 54.0, 96.0, 110.0]
  {
    hide Cell, Scaled, Dot, Index, RealMul;
    var a, b: seq<real> := [1.0, 2.0, 3.0, 4.0], [5.0, 6.0, 7.0, 8.0];
    c := new real[4](_ => 1.0);
    ghost var c0 := c[..];
    TiledDgemm(2, REALS, 2.0, a, b, 10.0, c);
    ghost var p := Problem(2, REALS, 2.0, a, b, Scaled(REALS, 10.0, c0));
    forall i: nat, j: nat | i < 2 && j < 2
      ensures c[Index(2, i, j)] == RealMul(2.0, Dot(2, a, b, i, j, 2)) + RealMul(10.0, 1.0)
    {
      assert At(2, c[..], i, j) == Cell(p, i, j, 2);
      GemmOverReals(2, 2.0, a, b, 10.0, c0, i, j);
      assert c0[Index(2, i, j)] == 1.0;
    }
    SmallIndex(0, 0);
    SmallIndex(0, 1);
    SmallIndex(1, 0);
    SmallIndex(1, 1);
    SmallValues();
    SmallProducts(a, b);
  }

  lemma SmallIndex(i: nat, j: nat)
    requires i < 2 && j < 2
    ensures Index(2, i, j) == 2 * i + j
  {
  }

  lemma SmallDot(a: seq<real>, b: seq<real>, i: nat, j: nat)
    requires |a| == |b| == 2 * 2 && i < 2 && j < 2
    ensures Dot(2, a, b, i, j, 2) ==
      RealMul(a[Index(2, i, 0)], b[Index(2, 0, j)]) + RealMul(a[Index(2, i, 1)], b[Index(2, 1, j)])
  {
    hide RealMul, Index;
    assert Dot(2, a, b, i, j, 0) == 0.0;
    assert Dot(2, a, b, i, j, 1) == RealMul(a[Index(2, i, 0)], b[Index(2, 0, j)]);
  }

  lemma SmallValues()
    ensures RealMul(1.0, 5.0) == 5.0 && RealMul(2.0, 7.0) == 14.0 && RealMul(1.0, 6.0) == 6.0
    ensures RealMul(2.0, 8.0) == 16.0 && RealMul(3.0, 5.0) == 15.0 && RealMul(4.0, 7.0) == 28.0
    ensures RealMul(3.0, 6.0) == 18.0 && RealMul(4.0, 8.0) == 32.0 && RealMul(10.0, 1.0) == 10.0
    ensures RealMul(2.0, 19.0) == 38.0 && RealMul(2.0, 22.0) == 44.0
    ensures RealMul(2.0, 43.0) == 86.0 && RealMul(2.0, 50.0) == 100.0
  {
  }

  lemma SmallProducts(a: seq<real>, b: seq<real>)
    requires a == [1.0, 2.0, 3.0, 4.0] && b == [5.0, 6.0, 7.0, 8.0]
    ensures 2 * 2 == |a|
    ensures Dot(2, a, b, 0, 0, 2) == 19.0 && Dot(2, a, b, 0, 1, 2) == 22.0
    ensures Dot(2, a, b, 1, 0, 2) == 43.0 && Dot(2, a, b, 1, 1, 2) == 50.0
  {
    hide RealMul, Index, Dot;
    SmallIndex(0, 0);
    SmallIndex(0, 1);
    SmallIndex(1, 0);
    SmallIndex(1, 1);
    SmallValues();
    SmallDot(a, b, 0, 0);
    SmallDot(a, b, 0, 1);
    SmallDot(a, b, 1, 0);
    SmallDot(a, b, 1, 1);
  }
}
