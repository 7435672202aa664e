/** Embedding vectors over the reals: cosine similarity and the hashed text embedding. */
module Cosine {
  import opened Numbers
  import opened Sequences

  type Vector = seq<real>

  /** Multiplication under a name of its own, so that proofs choose when to look inside. */
  function Times(x: real, y: real): (r: real)
    ensures x > 0.0 && y > 0.0 ==> r > 0.0
  {
    x * y
  }

  function Dot(a: Vector, b: Vector): real
    requires |a| == |b|
  {
    if a == [] then 0.0 else Times(a[0], b[0]) + Dot(a[1..], b[1..])
  }

  /** A square root; over the reals it exists, over floats it is rounded. */
  ghost predicate IsSqrt(sqrt: real -> real) {
    forall x: real :: x >= 0.0 ==> sqrt(x) >= 0.0 && Times(sqrt(x), sqrt(x)) == x
  }

  /** `cosine_similarity` */
  function CosineSimilarity(sqrt: real -> real, left: Vector, right: Vector): real {
    if left == [] || right == [] then 0.0
    else
      var size := Min(|left|, |right|);
      Similarity(sqrt, left[..size], right[..size])
  }

  /** The quotient, once both vectors have one length. */
  function Similarity(sqrt: real -> real, l: Vector, r: Vector): real
    requires |l| == |r|
  {
    var leftNorm, rightNorm := sqrt(Dot(l, l)), sqrt(Dot(r, r));
    if leftNorm <= 0.0 || rightNorm <= 0.0 then 0.0 else Dot(l, r) / Times(leftNorm, rightNorm)
  }

  ghost predicate IsZero(a: Vector) {
    forall i :: 0 <= i < |a| ==> a[i] == 0.0
  }

  // ----- laws of multiplication

  lemma SquareSign(x: real)
    ensures Times(x, x) >= 0.0
    ensures Times(x, x) == 0.0 <==> x == 0.0
  {
    if x > 0.0 {
      assert x * x > 0.0;
    } else if x < 0.0 {
      assert Times(x, x) == Times(-x, -x);
    }
  }

  lemma TimesCommutes(x: real, y: real)
    ensures Times(x, y) == Times(y, x)
  {
  }

  lemma TimesAssociates(x: real, y: real, z: real)
    ensures Times(Times(x, y), z) == Times(x, Times(y, z))
  {
  }

  lemma TimesOverSum(k: real, x: real, y: real)
    ensures Times(k, x + y) == Times(k, x) + Times(k, y)
  {
  }

  lemma DifferenceTimes(x: real, y: real, z: real)
    ensures Times(x - y, z) == Times(x, z) - Times(y, z)
  {
  }

  lemma NegativeProduct(k: real, x: real)
    requires k > 0.0 && x < 0.0
    ensures Times(k, x) < 0.0
  {
    assert k * (-x) > 0.0;
  }

  lemma TimesZero(k: real)
    ensures Times(k, 0.0) == 0.0
  {
  }

  // ----- the dot product

  lemma {:induction false} DotCommutes(a: Vector, b: Vector)
    requires |a| == |b|
    ensures Dot(a, b) == Dot(b, a)
  {
    hide Times;
    if a != [] {
      TimesCommutes(a[0], b[0]);
      DotCommutes(a[1..], b[1..]);
    }
  }

  lemma {:induction false} DotSquare(a: Vector)
    ensures Dot(a, a) >= 0.0
    ensures Dot(a, a) == 0.0 <==> IsZero(a)
  {
    hide Times;
    if a != [] {
      DotSquare(a[1..]);
      SquareSign(a[0]);
      ZeroSplits(a);
    }
  }

  lemma ZeroSplits(a: Vector)
    requires a != []
    ensures IsZero(a) <==> a[0] == 0.0 && IsZero(a[1..])
  {
    assert forall i :: 0 < i < |a| ==> a[i] == a[1..][i - 1];
  }

  function Scale(k: real, a: Vector): (r: Vector)
    ensures |r| == |a| && forall i :: 0 <= i < |a| ==> r[i] == Times(k, a[i])
  {
    seq(|a|, i requires 0 <= i < |a| => Times(k, a[i]))
  }

  lemma {:induction false} DotScale(k: real, a: Vector, b: Vector)
    requires |a| == |b|
    ensures Dot(Scale(k, a), b) == Times(k, Dot(a, b))
  {
    hide Times;
    if a == [] {
      TimesZero(k);
    } else {
      DotScale(k, a[1..], b[1..]);
      assert Scale(k, a)[1..] == Scale(k, a[1..]);
      TimesAssociates(k, a[0], b[0]);
      TimesOverSum(k, Times(a[0], b[0]), Dot(a[1..], b[1..]));
    }
  }

  lemma DotScaleSelf(k: real, a: Vector)
    ensures Dot(Scale(k, a), Scale(k, a)) == Times(Times(k, k), Dot(a, a))
  {
    hide *;
    var s := Scale(k, a);
    DotScale(k, a, s);
    DotCommutes(a, s);
    DotScale(k, a, a);
    TimesAssociates(k, k, Dot(a, a));
  }

  /** p * a - q * b */
  function Combine(p: real, a: Vector, q: real, b: Vector): (r: Vector)
    requires |a| == |b|
    ensures |r| == |a| && forall i :: 0 <= i < |a| ==> r[i] == Times(p, a[i]) - Times(q, b[i])
  {
    seq(|a|, i requires 0 <= i < |a| => Times(p, a[i]) - Times(q, b[i]))
  }

  lemma {:induction false} DotCombine(p: real, a: Vector, q: real, b: Vector, x: Vector)
    requires |a| == |b| == |x|
    ensures Dot(Combine(p, a, q, b), x) == Times(p, Dot(a, x)) - Times(q, Dot(b, x))
  {
    hide Times;
    if a == [] {
      TimesZero(p);
      TimesZero(q);
    } else {
      DotCombine(p, a[1..], q, b[1..], x[1..]);
      assert Combine(p, a, q, b)[1..] == Combine(p, a[1..], q, b[1..]);
      DifferenceTimes(Times(p, a[0]), Times(q, b[0]), x[0]);
      TimesAssociates(p, a[0], x[0]);
      TimesAssociates(q, b[0], x[0]);
      TimesOverSum(p, Times(a[0], x[0]), Dot(a[1..], x[1..]));
      TimesOverSum(q, Times(b[0], x[0]), Dot(b[1..], x[1..]));
    }
  }

  /** What Cauchy and Schwarz compare: the product of the squares less the square of the product. */
  function Gap(a: Vector, b: Vector): real
    requires |a| == |b|
  {
    Times(Dot(b, b), Dot(a, a)) - Times(Dot(a, b), Dot(a, b))
  }

  /** The part of `a` that stands at a right angle to `b`, up to a factor. */
  function Rejection(a: Vector, b: Vector): Vector
    requires |a| == |b|
  {
    Combine(Dot(b, b), a, Dot(a, b), b)
  }

  lemma RejectionSquare(a: Vector, b: Vector)
    requires |a| == |b|
    ensures Dot(Rejection(a, b), Rejection(a, b)) == Times(Dot(b, b), Gap(a, b))
  {
    hide Times, Dot, Combine;
    var product, square, c := Dot(a, b), Dot(b, b), Rejection(a, b);
    DotCombine(square, a, product, b, a);
    DotCombine(square, a, product, b, b);
    DotCombine(square, a, product, b, c);
    DotCommutes(a, b);
    DotCommutes(a, c);
    DotCommutes(b, c);
    TimesCommutes(square, product);
    TimesZero(product);
  }

  lemma {:induction false} DotWithZero(a: Vector, b: Vector)
    requires |a| == |b| && IsZero(b)
    ensures Dot(a, b) == 0.0
  {
    hide Times;
    if a != [] {
      ZeroSplits(b);
      TimesZero(a[0]);
      DotWithZero(a[1..], b[1..]);
    }
  }

  /** Cauchy and Schwarz: the square of a dot product is at most the product of the squares. */
  lemma CauchySchwarz(a: Vector, b: Vector)
    requires |a| == |b|
    ensures Times(Dot(a, b), Dot(a, b)) <= Times(Dot(a, a), Dot(b, b))
  {
    hide Times, Dot, Rejection, IsZero;
    DotSquare(b);
    TimesCommutes(Dot(a, a), Dot(b, b));
    if Dot(b, b) == 0.0 {
      DotWithZero(a, b);
      TimesZero(Dot(a, a));
      TimesZero(0.0);
    } else {
      DotSquare(Rejection(a, b));
      RejectionSquare(a, b);
      if Gap(a, b) < 0.0 {
        NegativeProduct(Dot(b, b), Gap(a, b));
      }
    }
  }

  // ----- the similarity

  lemma SquaresGrow(m: real, n: real)
    requires 0.0 <= m < n
    ensures Times(m, m) < Times(n, n)
  {
    assert m * (n - m) >= 0.0;
    assert (n - m) * n > 0.0;
    assert n * n - m * m == m * (n - m) + (n - m) * n;
  }

  lemma SquareBounds(d: real, n: real)
    requires n >= 0.0 && Times(d, d) <= Times(n, n)
    ensures -n <= d <= n
  {
    assert Times(d, d) == Times(-d, -d);
    hide Times;
    if d > n {
      SquaresGrow(n, d);
    }
    if -d > n {
      SquaresGrow(n, -d);
    }
  }

  lemma QuotientTimes(d: real, n: real)
    requires n != 0.0
    ensures Times(d / n, n) == d
  {
  }

  lemma TimesMonotone(x: real, y: real, n: real)
    requires n > 0.0 && x < y
    ensures Times(x, n) < Times(y, n)
  {
    assert (y - x) * n > 0.0;
  }

  lemma QuotientBounds(d: real, n: real)
    requires n > 0.0 && -n <= d <= n
    ensures -1.0 <= d / n <= 1.0
  {
    assert Times(1.0, n) == n && Times(-1.0, n) == -n;
    QuotientTimes(d, n);
    hide Times;
    if d / n > 1.0 {
      TimesMonotone(1.0, d / n, n);
    }
    if d / n < -1.0 {
      TimesMonotone(d / n, -1.0, n);
    }
  }

  lemma SquareOfProduct(x: real, y: real)
    ensures Times(Times(x, y), Times(x, y)) == Times(Times(x, x), Times(y, y))
  {
    hide Times;
    TimesAssociates(x, y, Times(x, y));
    TimesCommutes(y, Times(x, y));
    TimesAssociates(x, y, y);
    TimesAssociates(x, x, Times(y, y));
  }

  lemma SimilarityBounds(sqrt: real -> real, l: Vector, r: Vector)
    requires IsSqrt(sqrt) && |l| == |r|
    ensures -1.0 <= Similarity(sqrt, l, r) <= 1.0
    ensures Similarity(sqrt, l, r) == Similarity(sqrt, r, l)
  {
    hide Times, Dot, IsZero;
    DotSquare(l);
    DotSquare(r);
    DotCommutes(l, r);
    CauchySchwarz(l, r);
    var x, y := sqrt(Dot(l, l)), sqrt(Dot(r, r));
    if x > 0.0 && y > 0.0 {
      SquareOfProduct(x, y);
      SquareBounds(Dot(l, r), Times(x, y));
      QuotientBounds(Dot(l, r), Times(x, y));
      TimesCommutes(x, y);
    }
  }

  /** The similarity lies between -1 and 1 and does not depend on the order of its arguments. */
  lemma CosineBounds(sqrt: real -> real, left: Vector, right: Vector)
    requires IsSqrt(sqrt)
    ensures -1.0 <= CosineSimilarity(sqrt, left, right) <= 1.0
    ensures CosineSimilarity(sqrt, left, right) == CosineSimilarity(sqrt, right, left)
  {
    hide Similarity, IsSqrt;
    if left != [] && right != [] {
      var size := Min(|left|, |right|);
      SimilarityBounds(sqrt, left[..size], right[..size]);
    }
  }

  lemma SquaresDiffer(m: real, n: real)
    requires m >= 0.0 && n >= 0.0 && Times(m, m) == Times(n, n)
    ensures m == n
  {
    hide Times;
    if m < n {
      SquaresGrow(m, n);
    }
    if n < m {
      SquaresGrow(n, m);
    }
  }

  lemma SqrtOfScaled(sqrt: real -> real, k: real, n: real)
    requires IsSqrt(sqrt) && k > 0.0 && n >= 0.0
    ensures sqrt(Times(Times(k, k), n)) == Times(k, sqrt(n))
  {
    hide Times;
    var s := sqrt(n);
    var square := Times(Times(k, k), n);
    SquareOfProduct(k, s);
    SquareSign(Times(k, s));
    if s == 0.0 {
      TimesZero(k);
    }
    assert Times(k, s) >= 0.0;
    SquaresDiffer(sqrt(square), Times(k, s));
  }

  lemma QuotientIs(q: real, d: real, n: real)
    requires n > 0.0 && Times(q, n) == d
    ensures d / n == q
  {
  }

  lemma ScaledQuotient(k: real, d: real, n: real)
    requires k > 0.0 && n > 0.0
    ensures Times(k, d) / Times(k, n) == d / n
  {
    var q := d / n;
    QuotientTimes(d, n);
    hide Times;
    TimesAssociates(k, q, n);
    TimesCommutes(k, q);
    TimesAssociates(q, k, n);
    QuotientIs(q, Times(k, d), Times(k, n));
  }

  lemma SimilarityIgnoresScale(sqrt: real -> real, k: real, l: Vector, r: Vector)
    requires IsSqrt(sqrt) && k > 0.0 && |l| == |r|
    ensures Similarity(sqrt, Scale(k, l), r) == Similarity(sqrt, l, r)
  {
    hide Times, Dot, IsZero, Scale;
    DotScale(k, l, r);
    DotScaleSelf(k, l);
    DotSquare(l);
    DotSquare(r);
    var x, y := sqrt(Dot(l, l)), sqrt(Dot(r, r));
    SqrtOfScaled(sqrt, k, Dot(l, l));
    TimesZero(k);
    if x > 0.0 && y > 0.0 {
      TimesAssociates(k, x, y);
      ScaledQuotient(k, Dot(l, r), Times(x, y));
    }
  }

  /** Lengthening a vector does not change its similarity to anything. */
  lemma CosineIgnoresScale(sqrt: real -> real, k: real, left: Vector, right: Vector)
    requires IsSqrt(sqrt) && k > 0.0
    ensures CosineSimilarity(sqrt, Scale(k, left), right) == CosineSimilarity(sqrt, left, right)
  {
    hide Times, Similarity, IsSqrt;
    if left != [] && right != [] {
      var size := Min(|left|, |right|);
      assert Scale(k, left)[..size] == Scale(k, left[..size]);
      SimilarityIgnoresScale(sqrt, k, left[..size], right[..size]);
    }
  }

  lemma PositiveNorm(sqrt: real -> real, a: Vector)
    requires IsSqrt(sqrt) && !IsZero(a)
    ensures Dot(a, a) > 0.0 && sqrt(Dot(a, a)) > 0.0
  {
    hide Times, Dot, IsZero;
    DotSquare(a);
    TimesZero(0.0);
  }

  ghost predicate SameDirection(a: Vector, b: Vector) {
    exists k: real :: k > 0.0 && a == Scale(k, b)
  }

  /**
    Two non-zero vectors of one length have similarity 1 exactly when one is a positive multiple of the
    other; so a non-zero vector has similarity 1 with itself.
    */
  lemma CosineOneMeansParallel(sqrt: real -> real, a: Vector, b: Vector)
    requires IsSqrt(sqrt) && |a| == |b| && !IsZero(a) && !IsZero(b)
    ensures CosineSimilarity(sqrt, a, b) == 1.0 <==> SameDirection(a, b)
  {
    hide Times, Dot, Similarity, Scale;
    assert a[..|a|] == a && b[..|b|] == b;
    assert CosineSimilarity(sqrt, a, b) == Similarity(sqrt, a, b);
    if Similarity(sqrt, a, b) == 1.0 {
      OneMeansParallel(sqrt, a, b);
    }
    if k: real :| k > 0.0 && a == Scale(k, b) {
      SimilarityIgnoresScale(sqrt, k, b, b);
      SelfSimilarity(sqrt, b);
    }
  }

  lemma SelfSimilarity(sqrt: real -> real, a: Vector)
    requires IsSqrt(sqrt) && !IsZero(a)
    ensures Similarity(sqrt, a, a) == 1.0
  {
    hide Times, Dot, IsZero;
    PositiveNorm(sqrt, a);
    One(Dot(a, a));
    QuotientIs(1.0, Dot(a, a), Dot(a, a));
  }

  lemma One(x: real)
    ensures Times(1.0, x) == x
  {
  }

  lemma OneMeansParallel(sqrt: real -> real, a: Vector, b: Vector)
    requires IsSqrt(sqrt) && |a| == |b| && !IsZero(a) && !IsZero(b) && Similarity(sqrt, a, b) == 1.0
    ensures SameDirection(a, b)
  {
    hide Times, Dot, IsZero, Scale;
    PositiveNorm(sqrt, a);
    PositiveNorm(sqrt, b);
    var x, y, product, square := sqrt(Dot(a, a)), sqrt(Dot(b, b)), Dot(a, b), Dot(b, b);
    QuotientTimes(product, Times(x, y));
    One(Times(x, y));
    SquareOfProduct(x, y);
    assert product > 0.0 && Times(product, product) == Times(Dot(a, a), square);
    ParallelWhenEqual(a, b);
    PositiveQuotient(product, square);
  }

  lemma PositiveQuotient(d: real, b: real)
    requires d > 0.0 && b > 0.0
    ensures d / b > 0.0
  {
  }

  lemma ParallelWhenEqual(a: Vector, b: Vector)
    requires |a| == |b| && Dot(b, b) > 0.0 && Times(Dot(a, b), Dot(a, b)) == Times(Dot(a, a), Dot(b, b))
    ensures a == Scale(Dot(a, b) / Dot(b, b), b)
  {
    hide Times, Dot;
    var square, product, c := Dot(b, b), Dot(a, b), Rejection(a, b);
    TimesCommutes(Dot(a, a), square);
    RejectionSquare(a, b);
    TimesZero(square);
    DotSquare(c);
    forall i | 0 <= i < |a| ensures a[i] == Times(product / square, b[i]) {
      assert c[i] == 0.0;
      DivideOut(square, a[i], product, b[i]);
    }
  }

  lemma DivideOut(k: real, x: real, d: real, y: real)
    requires k > 0.0 && Times(k, x) == Times(d, y)
    ensures x == Times(d / k, y)
  {
    var q := d / k;
    QuotientTimes(d, k);
    hide Times;
    TimesCommutes(q, k);
    TimesAssociates(k, q, y);
    CancelFactor(k, x, Times(q, y));
  }

  lemma CancelFactor(k: real, x: real, y: real)
    requires k > 0.0 && Times(k, x) == Times(k, y)
    ensures x == y
  {
    TimesCommutes(k, x);
    TimesCommutes(k, y);
    hide Times;
    if x < y {
      TimesMonotone(x, y, k);
    }
    if y < x {
      TimesMonotone(y, x, k);
    }
  }

  // ----- what the similarity is

  /** The vector with 1 at place i. */
  function Axis(n: nat, i: nat): Vector {
    seq(n, j => if j == i then 1.0 else 0.0)
  }

  /** The product with an axis picks the slot out; with linearity this leaves only the sum of a[i] * b[i]. */
  lemma {:induction false} DotPicksSlot(a: Vector, i: nat)
    requires i < |a|
    ensures Dot(a, Axis(|a|, i)) == a[i]
  {
    var axis := Axis(|a|, i);
    TimesCommutes(1.0, a[0]);
    TimesZero(a[0]);
    One(a[0]);
    hide Times;
    if i == 0 {
      assert IsZero(axis[1..]);
      DotWithZero(a[1..], axis[1..]);
    } else {
      assert axis[1..] == Axis(|a| - 1, i - 1);
      DotPicksSlot(a[1..], i - 1);
    }
  }

  function Difference(a: Vector, b: Vector): (r: Vector)
    requires |a| == |b|
    ensures |r| == |a| && forall i :: 0 <= i < |a| ==> r[i] == a[i] - b[i]
  {
    seq(|a|, i requires 0 <= i < |a| => a[i] - b[i])
  }

  lemma DotDifference(a: Vector, b: Vector, x: Vector)
    requires |a| == |b| == |x|
    ensures Dot(Difference(a, b), x) == Dot(a, x) - Dot(b, x)
  {
    hide Dot, Times;
    forall y ensures Times(1.0, y) == y {
      One(y);
    }
    assert Difference(a, b) == Combine(1.0, a, 1.0, b);
    DotCombine(1.0, a, 1.0, b, x);
  }

  function Norm(sqrt: real -> real, a: Vector): real {
    sqrt(Dot(a, a))
  }

  /** The similarity is what the lengths are multiplied by to give the product. */
  lemma SimilarityTimesLengths(sqrt: real -> real, a: Vector, b: Vector)
    requires IsSqrt(sqrt) && |a| == |b| && !IsZero(a) && !IsZero(b)
    ensures Norm(sqrt, a) > 0.0 && Norm(sqrt, b) > 0.0
    ensures Times(CosineSimilarity(sqrt, a, b), Times(Norm(sqrt, a), Norm(sqrt, b))) == Dot(a, b)
  {
    PositiveNorm(sqrt, a);
    PositiveNorm(sqrt, b);
    hide Times, Dot, IsZero;
    assert a[..|a|] == a && b[..|b|] == b;
    QuotientTimes(Dot(a, b), Times(Norm(sqrt, a), Norm(sqrt, b)));
  }

  /** The law of cosines. */
  lemma LawOfCosines(sqrt: real -> real, a: Vector, b: Vector)
    requires IsSqrt(sqrt) && |a| == |b| && !IsZero(a) && !IsZero(b)
    ensures var c := Difference(a, b);
            Dot(c, c) == Dot(a, a) + Dot(b, b)
                         - 2.0 * Times(CosineSimilarity(sqrt, a, b), Times(Norm(sqrt, a), Norm(sqrt, b)))
  {
    SimilarityTimesLengths(sqrt, a, b);
    hide *;
    var c := Difference(a, b);
    DotDifference(a, b, c);
    DotCommutes(a, c);
    DotCommutes(b, c);
    DotDifference(a, b, a);
    DotDifference(a, b, b);
    DotCommutes(a, b);
  }

  lemma SignOfProduct(x: real, n: real)
    requires n > 0.0
    ensures Times(x, n) > 0.0 <==> x > 0.0
    ensures Times(x, n) < 0.0 <==> x < 0.0
  {
    TimesCommutes(x, n);
    TimesZero(n);
    if x < 0.0 {
      NegativeProduct(n, x);
    }
  }

  /** The similarity has the sign of the product, and there is none with a zero vector. */
  lemma CosineSign(sqrt: real -> real, a: Vector, b: Vector)
    requires IsSqrt(sqrt) && |a| == |b|
    ensures CosineSimilarity(sqrt, a, b) > 0.0 <==> Dot(a, b) > 0.0
    ensures CosineSimilarity(sqrt, a, b) < 0.0 <==> Dot(a, b) < 0.0
    ensures IsZero(a) || IsZero(b) ==> CosineSimilarity(sqrt, a, b) == 0.0
  {
    if IsZero(a) || IsZero(b) {
      ZeroSimilarity(sqrt, a, b);
      ZeroSimilarity(sqrt, b, a);
      DotCommutes(a, b);
      CosineBounds(sqrt, a, b);
    } else {
      SimilarityTimesLengths(sqrt, a, b);
      hide *;
      SignOfProduct(Norm(sqrt, a), Norm(sqrt, b));
      SignOfProduct(CosineSimilarity(sqrt, a, b), Times(Norm(sqrt, a), Norm(sqrt, b)));
    }
  }

  lemma ZeroSimilarity(sqrt: real -> real, a: Vector, b: Vector)
    requires IsSqrt(sqrt) && |a| == |b|
    ensures IsZero(b) ==> CosineSimilarity(sqrt, a, b) == 0.0 && Dot(a, b) == 0.0
  {
    hide Times, Dot;
    if IsZero(b) {
      assert a[..|a|] == a && b[..|b|] == b;
      DotSquare(b);
      DotWithZero(a, b);
      var y := sqrt(0.0);
      SquareSign(y);
    }
  }

  /** Turning a vector round turns the sign of the similarity. */
  lemma CosineOfOpposite(sqrt: real -> real, a: Vector, b: Vector)
    requires IsSqrt(sqrt) && |a| == |b| && !IsZero(a) && !IsZero(b)
    ensures CosineSimilarity(sqrt, a, Scale(-1.0, b)) == -CosineSimilarity(sqrt, a, b)
    ensures !IsZero(Scale(-1.0, b))
  {
    hide Times, Dot, IsZero, Scale, CosineSimilarity, IsSqrt, Norm;
    var c := Scale(-1.0, b);
    MinusOne(b);
    DotScale(-1.0, b, a);
    DotCommutes(a, b);
    DotCommutes(a, c);
    SimilarityTimesLengths(sqrt, a, b);
    SimilarityTimesLengths(sqrt, a, c);
    var s, t, n := CosineSimilarity(sqrt, a, b), CosineSimilarity(sqrt, a, c), Times(Norm(sqrt, a), Norm(sqrt, b));
    MinusTimes(Dot(b, a));
    MinusTimes(-1.0);
    One(Dot(b, b));
    SameNorm(sqrt, b);
    SignOfProduct(Norm(sqrt, a), Norm(sqrt, b));
    hide *;
    MinusFactor(s, n);
    TimesCommutes(t, n);
    TimesCommutes(-s, n);
    CancelFactor(n, t, -s);
  }

  lemma SameNorm(sqrt: real -> real, b: Vector)
    ensures Norm(sqrt, Scale(-1.0, b)) == Norm(sqrt, b)
  {
    hide Times, Dot, Scale;
    DotScaleSelf(-1.0, b);
    MinusTimes(-1.0);
    One(Dot(b, b));
  }

  lemma MinusTimes(x: real)
    ensures Times(-1.0, x) == -x
  {
  }

  lemma MinusFactor(x: real, y: real)
    ensures Times(-x, y) == -Times(x, y)
  {
  }

  lemma MinusOne(b: Vector)
    ensures !IsZero(b) ==> !IsZero(Scale(-1.0, b))
    ensures Scale(-1.0, Scale(-1.0, b)) == b
  {
    forall i | 0 <= i < |b| ensures Scale(-1.0, b)[i] == -b[i] {
    }
    hide Times;
    assert forall i :: 0 <= i < |b| && b[i] != 0.0 ==> Scale(-1.0, b)[i] != 0.0;
  }

  /** Non-zero vectors of one length have similarity -1 exactly when they point in opposite directions. */
  lemma CosineMinusOneMeansOpposed(sqrt: real -> real, a: Vector, b: Vector)
    requires IsSqrt(sqrt) && |a| == |b| && !IsZero(a) && !IsZero(b)
    ensures CosineSimilarity(sqrt, a, b) == -1.0 <==> SameDirection(a, Scale(-1.0, b))
  {
    CosineOfOpposite(sqrt, a, b);
    CosineOneMeansParallel(sqrt, a, Scale(-1.0, b));
  }

  /** Only the slots that both vectors have count. */
  lemma CosineOfPrefixes(sqrt: real -> real, left: Vector, right: Vector, more: Vector)
    ensures |left| <= |right| ==> CosineSimilarity(sqrt, left, right) == CosineSimilarity(sqrt, left, right[..|left|])
    ensures |left| >= |right| ==> CosineSimilarity(sqrt, left, right) == CosineSimilarity(sqrt, left[..|right|], right)
    ensures |left| <= |right| ==> CosineSimilarity(sqrt, left, right + more) == CosineSimilarity(sqrt, left, right)
    ensures left == [] || right == [] ==> CosineSimilarity(sqrt, left, right) == 0.0
  {
    hide Similarity;
    if |left| <= |right| {
      assert (right + more)[..|left|] == right[..|left|] && left[..|left|] == left;
      assert right[..|left|][..|left|] == right[..|left|];
    }
    if |left| >= |right| {
      assert right[..|right|] == right && left[..|right|][..|right|] == left[..|right|];
    }
  }

  /** So the sign is that of the product over the slots both have. */
  lemma CosineSignOfPrefixes(sqrt: real -> real, left: Vector, right: Vector)
    requires IsSqrt(sqrt)
    ensures var n := Min(|left|, |right|);
            CosineSimilarity(sqrt, left, right) > 0.0 <==> Dot(left[..n], right[..n]) > 0.0
  {
    hide Similarity, Dot, Times;
    var n := Min(|left|, |right|);
    CosineOfPrefixes(sqrt, left, right, []);
    CosineSign(sqrt, left[..n], right[..n]);
    assert |left| <= |right| ==> left[..n] == left;
    assert |left| >= |right| ==> right[..n] == right;
  }

  // ----- the hashed text embedding

  /** A token's slot hash, the sign its hash gives it, and its length. */
  datatype Token = Token(hash: nat, negative: bool, length: nat)

  function Weight(t: Token): (w: real)
    ensures 1.0 <= (if t.negative then -w else w) <= 2.0
    ensures var size := if t.negative then -w else w;
            if t.length < 24 then 24.0 * (size - 1.0) == t.length as real else size == 2.0
  {
    var w := 1.0 + (if t.length < 24 then t.length else 24) as real / 24.0;
    if t.negative then -w else w
  }

  /** What the tokens add up to in one slot. */
  function SlotSum(tokens: seq<Token>, dimensions: Positive, slot: nat): real {
    if tokens == [] then 0.0
    else
      SlotSum(tokens[..|tokens| - 1], dimensions, slot)
      + if tokens[|tokens| - 1].hash % dimensions == slot then Weight(tokens[|tokens| - 1]) else 0.0
  }

  /** Every slot of `sums` is `norm` times that slot of `v`. */
  ghost predicate Stretches(norm: real, v: Vector, tokens: seq<Token>) {
    |v| >= 1 && forall i :: 0 <= i < |v| ==> SlotSum(tokens, |v|, i) == Times(norm, v[i])
  }

  /** `deterministic_text_embedding` of a tokenized text. */
  method TextEmbedding(sqrt: real -> real, tokens: seq<Token>, requested: int) returns (r: Vector)
    requires IsSqrt(sqrt)
    ensures |r| == if requested < 1 then 1 else requested
    ensures IsZero(r) || Dot(r, r) == 1.0
    ensures exists norm: real :: norm > 0.0 && Stretches(norm, r, tokens)
  {
    hide Times, Dot, Weight;
    var dimensions: Positive := if requested < 1 then 1 else requested;
    var values := new real[dimensions](_ => 0.0);
    var n := 0;
    while n < |tokens|
      invariant 0 <= n <= |tokens|
      invariant forall i :: 0 <= i < dimensions ==> values[i] == SlotSum(tokens[..n], dimensions, i)
    {
      var t := tokens[n];
      var index := t.hash % dimensions;
      assert tokens[..n + 1][..n] == tokens[..n];
      values[index] := values[index] + Weight(t);
      n := n + 1;
    }
    assert tokens[..n] == tokens;
    var v := values[..];
    var norm := sqrt(Dot(v, v));
    DotSquare(v);
    if norm <= 0.0 {
      r := v;
      TimesZero(0.0);
      AtUnit(r, tokens);
    } else {
      r := seq(dimensions, i requires 0 <= i < dimensions => v[i] / norm);
      Normalized(norm, v, r);
      assert Stretches(norm, r, tokens);
    }
  }

  lemma AtUnit(v: Vector, tokens: seq<Token>)
    requires |v| >= 1 && forall i :: 0 <= i < |v| ==> v[i] == SlotSum(tokens, |v|, i)
    ensures Stretches(1.0, v, tokens)
  {
    hide Times, SlotSum;
    forall i | 0 <= i < |v| ensures SlotSum(tokens, |v|, i) == Times(1.0, v[i]) {
      One(v[i]);
    }
  }

  lemma Normalized(norm: real, v: Vector, r: Vector)
    requires norm > 0.0 && Times(norm, norm) == Dot(v, v)
    requires |r| == |v| && forall i :: 0 <= i < |v| ==> r[i] == v[i] / norm
    ensures Dot(r, r) == 1.0
    ensures forall i :: 0 <= i < |v| ==> v[i] == Times(norm, r[i])
  {
    hide Times, Dot;
    forall i | 0 <= i < |v| ensures v[i] == Times(norm, r[i]) {
      QuotientTimes(v[i], norm);
      TimesCommutes(r[i], norm);
    }
    assert v == Scale(norm, r);
    DotScaleSelf(norm, r);
    var s := Times(norm, norm);
    One(s);
    TimesCommutes(1.0, s);
    CancelFactor(s, Dot(r, r), 1.0);
  }

  /** Only how often each token occurs matters to an embedding, not the order of the text. */
  lemma {:induction false} SlotSumIgnoresOrder(xs: seq<Token>, ys: seq<Token>, dimensions: Positive, slot: nat)
    requires multiset(xs) == multiset(ys)
    ensures SlotSum(xs, dimensions, slot) == SlotSum(ys, dimensions, slot)
  {
    hide SlotSum, Weight;
    assert |multiset(xs)| == |multiset(ys)|;
    if xs != [] {
      var x := xs[0];
      assert xs == [] + [x] + xs[1..] && [] + xs[1..] == xs[1..];
      TailCounts(xs);
      var before, after := TakeOut(ys, x);
      SlotSumIgnoresOrder(xs[1..], before + after, dimensions, slot);
      SlotSumAround([], x, xs[1..], dimensions, slot);
      SlotSumAround(before, x, after, dimensions, slot);
    }
  }

  lemma {:induction false} SlotSumAround(
    before: seq<Token>, x: Token, after: seq<Token>, dimensions: Positive, slot: nat)
    ensures SlotSum(before + [x] + after, dimensions, slot)
            == SlotSum(before + after, dimensions, slot) + if x.hash % dimensions == slot then Weight(x) else 0.0
  {
    hide Weight;
    if after == [] {
      assert before + [x] + after == before + [x] && before + after == before;
      assert (before + [x])[..|before|] == before;
    } else {
      var m := |after| - 1;
      var whole, part := before + [x] + after, before + after;
      assert whole[..|whole| - 1] == before + [x] + after[..m] && part[..|part| - 1] == before + after[..m];
      SlotSumAround(before, x, after[..m], dimensions, slot);
    }
  }
}
