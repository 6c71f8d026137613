/** Vectors, matrices and their kernels over exact reals. */
module Kernels {
  type Vector = seq<real>
  type Matrix = seq<Vector>

  // ---------- Products and quotients ----------

  /** Named, so that a proof sees the arithmetic only where it needs it. */
  function Mul(a: real, b: real): real {
    a * b
  }

  function Div(a: real, b: real): real
    requires b != 0.0
  {
    a / b
  }

  // ---------- Vectors and kernels ----------

  ghost predicate Square(m: Matrix, n: nat) {
    |m| == n && forall k :: 0 <= k < n ==> |m[k]| == n
  }

  /** The inner product of the first n entries. */
  ghost function Dot(a: Vector, x: Vector, n: nat): real
    requires n <= |a| && n <= |x|
  {
    if n == 0 then 0.0 else Dot(a, x, n - 1) + Mul(a[n - 1], x[n - 1])
  }

  /** The matrix sends x to the zero vector. */
  ghost predicate InKernel(m: Matrix, x: Vector)
    requires Square(m, |m|)
  {
    |x| == |m| && forall k :: 0 <= k < |m| ==> Dot(m[k], x, |m|) == 0.0
  }

  ghost predicate IsZero(x: Vector) {
    forall p :: 0 <= p < |x| ==> x[p] == 0.0
  }

  ghost predicate TrivialKernel(m: Matrix)
    requires Square(m, |m|)
  {
    forall x | InKernel(m, x) :: IsZero(x)
  }

  ghost predicate AgreeOn(x: Vector, y: Vector, columns: set<nat>) {
    |x| == |y| && forall p :: p in columns && p < |x| ==> x[p] == y[p]
  }

  /** The entries in the columns of `free` may be chosen at will, and they then determine the
      kernel vector: the kernel is a copy of the |free|-dimensional space. */
  ghost predicate Parametrises(m: Matrix, free: set<nat>)
    requires Square(m, |m|)
  {
    && (forall p :: p in free ==> p < |m|)
    && (forall f: Vector | |f| == |m| :: exists x :: InKernel(m, x) && AgreeOn(x, f, free))
    && (forall x, y | InKernel(m, x) && InKernel(m, y) && AgreeOn(x, y, free) :: x == y)
  }

  ghost predicate KernelDimension(m: Matrix, d: int)
    requires Square(m, |m|)
  {
    exists free: set<nat> :: |free| == d && Parametrises(m, free)
  }

  lemma MulZero(a: real, b: real)
    requires a == 0.0 || b == 0.0
    ensures Mul(a, b) == 0.0
  {
  }

  lemma MulNonZero(a: real, b: real)
    requires a != 0.0 && b != 0.0
    ensures Mul(a, b) != 0.0
  {
  }

  lemma MulOne(a: real)
    ensures Mul(1.0, a) == a && Mul(a, 1.0) == a
  {
  }

  lemma MulMinus(a: real, x: real, y: real)
    ensures Mul(a, x - y) == Mul(a, x) - Mul(a, y)
  {
  }

  lemma MulPlus(x: real, y: real, s: real)
    ensures Mul(x + y, s) == Mul(x, s) + Mul(y, s)
  {
  }

  lemma MulTerm(b: real, s: real, x: real)
    ensures Mul(Mul(b, s), x) == Mul(Mul(b, x), s)
  {
  }

  lemma MulCombined(a: real, b: real, s: real, x: real)
    ensures Mul(a - Mul(b, s), x) == Mul(a, x) - Mul(Mul(b, x), s)
  {
    hide Mul;
    assert Mul(a - Mul(b, s), x) == Mul(a, x) - Mul(Mul(b, s), x) by {
      MulPlus(a - Mul(b, s), Mul(b, s), x);
    }
    MulTerm(b, s, x);
  }

  lemma DivUndone(a: real, c: real)
    requires c != 0.0
    ensures Mul(Div(a, c), c) == a
  {
  }

  lemma {:induction false} DotCombination(c: Vector, a: Vector, b: Vector, s: real, x: Vector, n: nat)
    requires n <= |a| && n <= |b| && n <= |c| && n <= |x|
    requires forall p :: 0 <= p < n ==> c[p] == a[p] - Mul(b[p], s)
    ensures Dot(c, x, n) == Dot(a, x, n) - Mul(Dot(b, x, n), s)
  {
    hide Mul;
    if n == 0 {
      MulZero(0.0, s);
    } else {
      DotCombination(c, a, b, s, x, n - 1);
      assert c[n - 1] == a[n - 1] - Mul(b[n - 1], s);
      MulCombined(a[n - 1], b[n - 1], s, x[n - 1]);
      MulPlus(Dot(b, x, n - 1), Mul(b[n - 1], x[n - 1]), s);
    }
  }

  lemma {:induction false} DotScaled(c: Vector, a: Vector, s: real, x: Vector, n: nat)
    requires n <= |a| && n <= |c| && n <= |x|
    requires forall p :: 0 <= p < n ==> a[p] == Mul(c[p], s)
    ensures Dot(a, x, n) == Mul(Dot(c, x, n), s)
  {
    hide Mul;
    if n == 0 {
      MulZero(0.0, s);
    } else {
      DotScaled(c, a, s, x, n - 1);
      assert a[n - 1] == Mul(c[n - 1], s);
      MulTerm(c[n - 1], s, x[n - 1]);
      MulPlus(Dot(c, x, n - 1), Mul(c[n - 1], x[n - 1]), s);
    }
  }

  lemma {:induction false} DotOfZeroTerms(a: Vector, x: Vector, n: nat)
    requires n <= |a| && n <= |x|
    requires forall p :: 0 <= p < n ==> a[p] == 0.0 || x[p] == 0.0
    ensures Dot(a, x, n) == 0.0
  {
    hide Mul;
    if n == 0 {
    } else {
      DotOfZeroTerms(a, x, n - 1);
      MulZero(a[n - 1], x[n - 1]);
    }
  }

  /** When y is x with entry q cleared, up to entries that the row ignores, the products differ
      by the term of q alone. */
  lemma {:induction false} DotWithoutTerm(a: Vector, x: Vector, y: Vector, q: nat, n: nat)
    requires n <= |a| && n <= |x| && n <= |y| && q < |a| && q < |x|
    requires forall p :: 0 <= p < n && p != q ==> a[p] == 0.0 || x[p] == y[p]
    requires q < n ==> y[q] == 0.0
    ensures Dot(a, x, n) == Dot(a, y, n) + if q < n then Mul(a[q], x[q]) else 0.0
  {
    hide Mul;
    if n == 0 {
    } else {
      DotWithoutTerm(a, x, y, q, n - 1);
      if n - 1 == q {
        MulZero(a[q], y[q]);
      } else if a[n - 1] == 0.0 {
        MulZero(a[n - 1], x[n - 1]);
        MulZero(a[n - 1], y[n - 1]);
      }
    }
  }

  ghost predicate SameKernel(a: Matrix, l: Matrix)
    requires Square(a, |a|) && Square(l, |l|)
  {
    forall x :: InKernel(a, x) <==> InKernel(l, x)
  }

  /** x less s times y. */
  ghost function Less(x: Vector, y: Vector, s: real): (d: Vector)
    requires |x| == |y|
    ensures |d| == |x| && forall p :: 0 <= p < |x| ==> d[p] == x[p] - Mul(y[p], s)
  {
    seq(|x|, p requires 0 <= p < |x| => x[p] - Mul(y[p], s))
  }

  lemma MulInside(a: real, x: real, y: real, s: real)
    ensures Mul(a, x - Mul(y, s)) == Mul(a, x) - Mul(Mul(a, y), s)
  {
    hide Mul;
    MulMinus(a, x, Mul(y, s));
    MulAssociates(a, y, s);
  }

  lemma MulAssociates(a: real, y: real, s: real)
    ensures Mul(a, Mul(y, s)) == Mul(Mul(a, y), s)
  {
  }

  lemma {:induction false} DotLess(a: Vector, x: Vector, y: Vector, s: real, n: nat)
    requires n <= |a| && n <= |x| == |y|
    ensures Dot(a, Less(x, y, s), n) == Dot(a, x, n) - Mul(Dot(a, y, n), s)
  {
    hide Mul;
    if n == 0 {
      MulZero(0.0, s);
    } else {
      DotLess(a, x, y, s, n - 1);
      MulInside(a[n - 1], x[n - 1], y[n - 1], s);
      MulPlus(Dot(a, y, n - 1), Mul(a[n - 1], y[n - 1]), s);
    }
  }

  // ---------- Dimension zero ----------

  ghost function Zeros(n: nat): (z: Vector)
    ensures |z| == n && IsZero(z)
  {
    seq(n, p => 0.0)
  }

  lemma ZerosInKernel(m: Matrix)
    requires Square(m, |m|)
    ensures InKernel(m, Zeros(|m|))
  {
    forall k | 0 <= k < |m|
      ensures Dot(m[k], Zeros(|m|), |m|) == 0.0
    {
      DotOfZeroTerms(m[k], Zeros(|m|), |m|);
    }
  }

  lemma NoFreeColumns(m: Matrix, x: Vector)
    requires Square(m, |m|) && Parametrises(m, {}) && InKernel(m, x)
    ensures IsZero(x)
  {
    ZerosInKernel(m);
    assert AgreeOn(x, Zeros(|m|), {});
    assert x == Zeros(|m|);
  }

  lemma SomeFreeColumn(m: Matrix, free: set<nat>, p: nat) returns (x: Vector)
    requires Square(m, |m|) && Parametrises(m, free) && p in free
    ensures InKernel(m, x) && !IsZero(x)
  {
    var f := Zeros(|m|)[p := 1.0];
    x :| InKernel(m, x) && AgreeOn(x, f, free);
    assert x[p] == f[p] == 1.0;
  }

  /** Dimension zero is the same as sending only the zero vector to zero. */
  lemma DimensionZero(m: Matrix, d: nat)
    requires Square(m, |m|) && KernelDimension(m, d)
    ensures d == 0 <==> TrivialKernel(m)
  {
    var free: set<nat> :| |free| == d && Parametrises(m, free);
    if d == 0 {
      assert free == {};
      forall x | InKernel(m, x)
        ensures IsZero(x)
      {
        NoFreeColumns(m, x);
      }
    } else {
      var p :| p in free;
      var x := SomeFreeColumn(m, free, p);
    }
  }

  /** A matrix of trivial kernel is injective: equal products come from equal vectors. */
  lemma TrivialKernelIsInjective(m: Matrix, x: Vector, y: Vector)
    requires Square(m, |m|) && TrivialKernel(m) && |x| == |y| == |m|
    requires forall k :: 0 <= k < |m| ==> Dot(m[k], x, |m|) == Dot(m[k], y, |m|)
    ensures x == y
  {
    var d := Less(x, y, 1.0);
    forall k | 0 <= k < |m|
      ensures Dot(m[k], d, |m|) == 0.0
    {
      DotLess(m[k], x, y, 1.0, |m|);
      MulOne(Dot(m[k], y, |m|));
    }
    assert InKernel(m, d);
    forall p | 0 <= p < |m|
      ensures x[p] == y[p]
    {
      MulOne(y[p]);
      assert d[p] == 0.0;
    }
  }

  // ---------- The dimension is unique ----------

  /** A set of vectors of length n that is closed under taking off multiples of its members. */
  ghost predicate Subspace(space: iset<Vector>, n: nat) {
    && (forall x :: x in space ==> |x| == n)
    && (forall x, y, s :: x in space && y in space ==> Less(x, y, s) in space)
  }

  /** The entries in the columns of `free` may be chosen at will and determine the vector. */
  ghost predicate Coordinates(space: iset<Vector>, n: nat, free: set<nat>) {
    && (forall p :: p in free ==> p < n)
    && (forall f: Vector | |f| == n :: exists x :: x in space && AgreeOn(x, f, free))
    && (forall x, y | x in space && y in space && AgreeOn(x, y, free) :: x == y)
  }

  lemma Member(space: iset<Vector>, n: nat, x: Vector, y: Vector, s: real)
    requires Subspace(space, n) && x in space && y in space
    ensures |x| == n && |y| == n && Less(x, y, s) in space
  {
  }

  ghost predicate Reads(x: Vector, f: Vector, free: set<nat>)
    requires |x| == |f|
  {
    forall p :: p in free && p < |x| ==> x[p] == f[p]
  }

  lemma Chosen(space: iset<Vector>, n: nat, free: set<nat>, f: Vector) returns (x: Vector)
    requires Coordinates(space, n, free) && |f| == n
    ensures x in space && |x| == n && Reads(x, f, free)
  {
    x :| x in space && AgreeOn(x, f, free);
  }

  lemma Determined(space: iset<Vector>, n: nat, free: set<nat>, x: Vector, y: Vector)
    requires Coordinates(space, n, free) && x in space && y in space && |x| == |y| == n && Reads(x, y, free)
    ensures x == y
  {
    assert AgreeOn(x, y, free);
  }

  lemma AreCoordinates(space: iset<Vector>, n: nat, free: set<nat>)
    requires forall p :: p in free ==> p < n
    requires forall f: Vector | |f| == n :: exists x :: x in space && AgreeOn(x, f, free)
    requires forall x, y | x in space && y in space && AgreeOn(x, y, free) :: x == y
    ensures Coordinates(space, n, free)
  {
  }

  lemma InRange(space: iset<Vector>, n: nat, free: set<nat>, p: nat)
    requires Coordinates(space, n, free) && p in free
    ensures p < n
  {
  }

  /** The members with a zero in column p. */
  ghost function Slice(space: iset<Vector>, p: nat): iset<Vector> {
    iset x | x in space && p < |x| && x[p] == 0.0
  }

  lemma SliceIsSubspace(space: iset<Vector>, n: nat, p: nat)
    requires Subspace(space, n) && p < n
    ensures Subspace(Slice(space, p), n)
  {
    forall x, y, s | x in Slice(space, p) && y in Slice(space, p)
      ensures Less(x, y, s) in Slice(space, p)
    {
      MulZero(y[p], s);
    }
  }

  lemma ChosenInColumn(space: iset<Vector>, n: nat, free: set<nat>, p: nat, f: Vector) returns (x: Vector)
    requires Coordinates(space, n, free) && p in free && |f| == n
    ensures x in Slice(space, p) && AgreeOn(x, f, free - {p})
  {
    InRange(space, n, free, p);
    x := Chosen(space, n, free, f[p := 0.0]);
    hide Coordinates;
    assert x[p] == f[p := 0.0][p];
  }

  lemma DeterminedInColumn(space: iset<Vector>, n: nat, free: set<nat>, p: nat, x: Vector, y: Vector)
    requires Subspace(space, n) && Coordinates(space, n, free) && p in free
    requires x in Slice(space, p) && y in Slice(space, p) && AgreeOn(x, y, free - {p})
    ensures x == y
  {
    Member(space, n, x, y, 0.0);
    hide Coordinates, Subspace;
    Determined(space, n, free, x, y);
  }

  /** A coordinate of the slice's own column goes away. */
  lemma SliceDropsColumn(space: iset<Vector>, n: nat, free: set<nat>, p: nat)
    requires Subspace(space, n) && Coordinates(space, n, free) && p in free
    ensures Coordinates(Slice(space, p), n, free - {p})
  {
    hide *;
    forall f: Vector | |f| == n
      ensures exists x :: x in Slice(space, p) && AgreeOn(x, f, free - {p})
    {
      var x := ChosenInColumn(space, n, free, p, f);
    }
    forall x, y | x in Slice(space, p) && y in Slice(space, p) && AgreeOn(x, y, free - {p})
      ensures x == y
    {
      DeterminedInColumn(space, n, free, p, x, y);
    }
    forall q | q in free - {p}
      ensures q < n
    {
      InRange(space, n, free, q);
    }
    AreCoordinates(Slice(space, p), n, free - {p});
  }

  /** The member with a one at coordinate g and zeros at the others. */
  ghost predicate Unit(space: iset<Vector>, n: nat, free: set<nat>, g: nat, u: Vector) {
    && g < n && u in space && |u| == n && u[g] == 1.0
    && forall q :: q in free && q != g && q < n ==> u[q] == 0.0
  }

  lemma UnitLength(space: iset<Vector>, n: nat, free: set<nat>, g: nat, u: Vector)
    requires Unit(space, n, free, g, u)
    ensures |u| == n
  {
  }

  lemma QuotientUndone(a: real, c: real)
    requires c != 0.0
    ensures Mul(c, Div(a, c)) == a
  {
  }

  /** The exchange: a unit member that shows in column p can clear that column. */
  lemma ChosenByExchange(space: iset<Vector>, n: nat, free: set<nat>, p: nat, g: nat, u: Vector, f: Vector) returns (y: Vector)
    requires Subspace(space, n) && Coordinates(space, n, free) && p < n && |f| == n
    requires Unit(space, n, free, g, u) && u[p] != 0.0
    ensures y in Slice(space, p) && AgreeOn(y, f, free - {g})
  {
    hide Mul, Div;
    var x := Chosen(space, n, free, f);
    var s := Div(x[p], u[p]);
    y := Less(x, u, s);
    Member(space, n, x, u, s);
    hide Subspace, Coordinates;
    QuotientUndone(x[p], u[p]);
    forall q | q in free - {g} && q < n
      ensures y[q] == f[q]
    {
      MulZero(u[q], s);
    }
  }

  lemma DeterminedByExchange(space: iset<Vector>, n: nat, free: set<nat>, p: nat, g: nat, u: Vector, x: Vector, y: Vector)
    requires Subspace(space, n) && Coordinates(space, n, free) && p < n
    requires Unit(space, n, free, g, u) && u[p] != 0.0
    requires x in Slice(space, p) && y in Slice(space, p) && AgreeOn(x, y, free - {g})
    ensures x == y
  {
    hide Mul;
    Member(space, n, x, y, 0.0);
    var s := x[g] - y[g];
    var z := Less(x, u, s);
    Member(space, n, x, u, s);
    hide Subspace, Coordinates;
    forall q | q in free && q < n
      ensures z[q] == y[q]
    {
      if q == g {
        MulOne(s);
      } else {
        MulZero(u[q], s);
      }
    }
    Determined(space, n, free, z, y);
    assert z[p] == y[p];
    if s != 0.0 {
      MulNonZero(u[p], s);
    }
    Determined(space, n, free, x, y);
  }

  /** ... so the slice at p does without g. */
  lemma SliceDropsCoordinate(space: iset<Vector>, n: nat, free: set<nat>, p: nat, g: nat, u: Vector)
    requires Subspace(space, n) && Coordinates(space, n, free) && p < n
    requires Unit(space, n, free, g, u) && u[p] != 0.0
    ensures Coordinates(Slice(space, p), n, free - {g})
  {
    UnitLength(space, n, free, g, u);
    hide *;
    forall f: Vector | |f| == n
      ensures exists x :: x in Slice(space, p) && AgreeOn(x, f, free - {g})
    {
      var x := ChosenByExchange(space, n, free, p, g, u, f);
    }
    forall x, y | x in Slice(space, p) && y in Slice(space, p) && AgreeOn(x, y, free - {g})
      ensures x == y
    {
      DeterminedByExchange(space, n, free, p, g, u, x, y);
    }
    forall q | q in free - {g}
      ensures q < n
    {
      InRange(space, n, free, q);
    }
    AreCoordinates(Slice(space, p), n, free - {g});
  }

  lemma UnitMember(space: iset<Vector>, n: nat, free: set<nat>, g: nat) returns (u: Vector)
    requires Coordinates(space, n, free) && g in free
    ensures Unit(space, n, free, g, u)
  {
    InRange(space, n, free, g);
    var f := Zeros(n)[g := 1.0];
    u := Chosen(space, n, free, f);
    hide Coordinates;
    assert u[g] == f[g];
    forall q | q in free && q != g && q < n
      ensures u[q] == 0.0
    {
      assert u[q] == f[q];
    }
  }

  lemma {:induction false} LessItself(u: Vector)
    ensures Less(u, u, 1.0) == Zeros(|u|)
  {
    forall q | 0 <= q < |u|
      ensures Less(u, u, 1.0)[q] == Zeros(|u|)[q]
    {
      MulOne(u[q]);
    }
  }

  /** A unit member is not zero, so it shows in some column of any other coordinates. */
  lemma UnitShows(space: iset<Vector>, n: nat, free: set<nat>, other: set<nat>, g: nat, u: Vector) returns (p: nat)
    requires Subspace(space, n) && Coordinates(space, n, other) && Unit(space, n, free, g, u)
    ensures p in other && p < n && u[p] != 0.0
  {
    var zero := Zeros(n);
    Member(space, n, u, u, 1.0);
    LessItself(u);
    hide Subspace, Coordinates;
    if forall q :: q in other && q < n ==> u[q] == 0.0 {
      Determined(space, n, other, u, zero);
      assert false;
    }
    p :| p in other && p < n && u[p] != 0.0;
  }

  /** Two sets of coordinates of one space have the same size. */
  lemma {:induction false} CoordinatesHaveOneSize(space: iset<Vector>, n: nat, free: set<nat>, other: set<nat>)
    requires Subspace(space, n) && Coordinates(space, n, free) && Coordinates(space, n, other)
    ensures |free| == |other|
    decreases |free|
  {
    hide *;
    if free == {} {
      if other != {} {
        var q :| q in other;
        var u := UnitMember(space, n, other, q);
        var p := UnitShows(space, n, other, free, q, u);
      }
    } else {
      var g :| g in free;
      var u := UnitMember(space, n, free, g);
      var p := UnitShows(space, n, free, other, g, u);
      UnitLength(space, n, free, g, u);
      SliceIsSubspace(space, n, p);
      SliceDropsCoordinate(space, n, free, p, g, u);
      SliceDropsColumn(space, n, other, p);
      CoordinatesHaveOneSize(Slice(space, p), n, free - {g}, other - {p});
    }
  }

  ghost function Kernel(m: Matrix): iset<Vector>
    requires Square(m, |m|)
  {
    iset x | InKernel(m, x)
  }

  lemma KernelIsSubspace(m: Matrix)
    requires Square(m, |m|)
    ensures Subspace(Kernel(m), |m|)
  {
    forall x, y, s | x in Kernel(m) && y in Kernel(m)
      ensures Less(x, y, s) in Kernel(m)
    {
      forall k | 0 <= k < |m|
        ensures Dot(m[k], Less(x, y, s), |m|) == 0.0
      {
        DotLess(m[k], x, y, s, |m|);
        MulZero(Dot(m[k], y, |m|), s);
      }
    }
  }

  /** The kernel has one dimension. */
  lemma DimensionIsUnique(m: Matrix, d: int, e: int)
    requires Square(m, |m|) && KernelDimension(m, d) && KernelDimension(m, e)
    ensures d == e
  {
    var free: set<nat> :| |free| == d && Parametrises(m, free);
    var other: set<nat> :| |other| == e && Parametrises(m, other);
    KernelIsSubspace(m);
    ParametersAreCoordinates(m, free);
    ParametersAreCoordinates(m, other);
    CoordinatesHaveOneSize(Kernel(m), |m|, free, other);
  }

  lemma ParametersAreCoordinates(m: Matrix, free: set<nat>)
    requires Square(m, |m|) && Parametrises(m, free)
    ensures Coordinates(Kernel(m), |m|, free)
  {
    hide InKernel;
    forall f: Vector | |f| == |m|
      ensures exists x :: x in Kernel(m) && AgreeOn(x, f, free)
    {
      var x :| InKernel(m, x) && AgreeOn(x, f, free);
      assert x in Kernel(m);
    }
  }
}
